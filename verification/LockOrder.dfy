/** Who is woken when: the waiters are a queue, first come first woken, over every interleaving. */
module LockOrder {
  import opened Common
  import opened LockModel

  /** A V wakes the thread that heads the waiters, and that one only; the semaphore is free again. */
  lemma WakesFirst(s: Lock, t: Tid)
    requires Inv(s) && Enabled(s, DoV(t))
    ensures Step(s, DoV(t)).Next?
    ensures var s' := Step(s, DoV(t)).state;
            && s'.value == 1 && s'.holder == s.holder && s'.repeat == s.repeat && s'.pc.Keys == s.pc.Keys
            && t in s'.pc && s'.pc[t].Idle?
            && (s.waiters == [] ==> s'.waiters == [])
            && (s.waiters != [] ==>
                  && s'.waiters == s.waiters[1..] && s.waiters[0] in s.pc
                  && s.pc[s.waiters[0]].Waiting? && s'.pc[s.waiters[0]].Woken? && s.waiters[0] !in s'.waiters)
            && (forall u :: u in s.pc && u != t && (s.waiters == [] || u != s.waiters[0]) ==> s'.pc[u] == s.pc[u])
  {
    OneInside(s, t, t);
  }

  /** A thread that misses the semaphore joins behind everybody; one that gets it leaves the waiters alone. */
  lemma JoinsLast(s: Lock, t: Tid)
    requires Inv(s) && Enabled(s, TryP(t))
    ensures Step(s, TryP(t)).Next?
    ensures var s' := Step(s, TryP(t)).state;
            && s'.holder == s.holder && s'.repeat == s.repeat && s'.pc.Keys == s.pc.Keys
            && t in s'.pc && (forall u :: u in s.pc && u != t ==> s'.pc[u] == s.pc[u])
            && (s.value == 0 ==> s'.waiters == s.waiters + [t] && s'.pc[t].Waiting? && s'.value == 0)
            && (s.value != 0 ==> s'.waiters == s.waiters && s'.pc[t].Passed? && s'.value == 0)
  {
  }

  // ---------- over runs ----------

  /** The threads whose state went from `Waiting` to `Woken`, by the states alone. */
  ghost function Awoken(s: Lock, s': Lock): set<Tid> {
    set u | u in s.pc && u in s'.pc && s.pc[u].Waiting? && s'.pc[u].Woken?
  }

  /** Those that began to wait. */
  ghost function Joining(s: Lock, s': Lock): set<Tid> {
    set u | u in s.pc && u in s'.pc && !s.pc[u].Waiting? && s'.pc[u].Waiting?
  }

  ghost function OneOf(s: set<Tid>): seq<Tid> {
    if s == {} then [] else var u :| u in s; [u]
  }

  /** The threads woken over a run, in order. */
  ghost function Wakeups(s: Lock, actions: seq<Action>): seq<Tid>
    decreases |actions|
  {
    if actions == [] then []
    else if !Disciplined(s, actions[0]) then Wakeups(s, actions[1..])
    else match Step(s, actions[0])
      case AssertFails => []
      case Next(s') => OneOf(Awoken(s, s')) + Wakeups(s', actions[1..])
  }

  /** The threads that began to wait, in order. */
  ghost function Joins(s: Lock, actions: seq<Action>): seq<Tid>
    decreases |actions|
  {
    if actions == [] then []
    else if !Disciplined(s, actions[0]) then Joins(s, actions[1..])
    else match Step(s, actions[0])
      case AssertFails => []
      case Next(s') => OneOf(Joining(s, s')) + Joins(s', actions[1..])
  }

  /** How many Vs a run takes. */
  function Vs(s: Lock, actions: seq<Action>): nat
    decreases |actions|
  {
    if actions == [] then 0
    else if !Disciplined(s, actions[0]) then Vs(s, actions[1..])
    else match Step(s, actions[0])
      case AssertFails => 0
      case Next(s') => (if actions[0].DoV? then 1 else 0) + Vs(s', actions[1..])
  }

  /** What one step adds to the two logs, and what that is to the queue. */
  ghost predicate Logged(s: Lock, s': Lock, joining: set<Tid>, awoken: set<Tid>) {
    && Joining(s, s') == joining && Awoken(s, s') == awoken
    && s.waiters + OneOf(joining) == OneOf(awoken) + s'.waiters
  }

  lemma VLog(s: Lock, t: Tid)
    requires Inv(s) && Enabled(s, DoV(t))
    ensures Step(s, DoV(t)).Next?
    ensures Logged(s, Step(s, DoV(t)).state, {}, if s.waiters == [] then {} else {s.waiters[0]})
  {
    WakesFirst(s, t);
    hide Inv, Step;
    var s' := Step(s, DoV(t)).state;
    assert Joining(s, s') == {};
    if s.waiters != [] {
      assert Awoken(s, s') == {s.waiters[0]};
      assert s.waiters == [s.waiters[0]] + s.waiters[1..];
    } else {
      assert Awoken(s, s') == {};
    }
  }

  lemma PLog(s: Lock, t: Tid)
    requires Inv(s) && Enabled(s, TryP(t))
    ensures Step(s, TryP(t)).Next?
    ensures Logged(s, Step(s, TryP(t)).state, if s.value == 0 then {t} else {}, {})
  {
    JoinsLast(s, t);
    hide Inv, Step;
    var s' := Step(s, TryP(t)).state;
    assert Awoken(s, s') == {};
    assert Joining(s, s') == if s.value == 0 then {t} else {};
  }

  lemma LocalLog(s: Lock, a: Action)
    requires Inv(s) && Disciplined(s, a) && !a.TryP? && !a.DoV?
    ensures Step(s, a).Next? && Logged(s, Step(s, a).state, {}, {}) && Step(s, a).state.waiters == s.waiters
    ensures forall u :: u in s.pc && u != a.t ==> u in Step(s, a).state.pc && Step(s, a).state.pc[u] == s.pc[u]
  {
    LocalInv(s, a);
    LocalFrame(s, a);
    hide Inv, Step, Disciplined;
    var s' := Step(s, a).state;
    assert Awoken(s, s') == {} && Joining(s, s') == {};
  }

  lemma StepLog(s: Lock, a: Action)
    requires Inv(s) && Disciplined(s, a)
    ensures Step(s, a).Next?
    ensures var s' := Step(s, a).state; s.waiters + OneOf(Joining(s, s')) == OneOf(Awoken(s, s')) + s'.waiters
  {
    hide Inv, Step, Disciplined, OneOf, Joining, Awoken;
    match a {
      case DoV(t) => DisciplinedEnabled(s, a); VLog(s, t);
      case TryP(t) => DisciplinedEnabled(s, a); PLog(s, t);
      case _ => LocalLog(s, a);
    }
  }

  lemma DisciplinedEnabled(s: Lock, a: Action)
    requires Disciplined(s, a)
    ensures Enabled(s, a)
  {
  }

  /**
    Over every interleaving the waiters are a queue: those waiting at first and those that began to wait, in that
    order, are those that were woken and then those that wait still.
   */
  lemma {:induction false} FirstComeFirstWoken(s: Lock, actions: seq<Action>)
    requires Inv(s)
    ensures Run(s, actions).Next?
    ensures s.waiters + Joins(s, actions) == Wakeups(s, actions) + Run(s, actions).state.waiters
    decreases |actions|
  {
    RunInv(s, actions);
    hide Inv, Step, Disciplined, OneOf, Joining, Awoken;
    if actions != [] {
      if Disciplined(s, actions[0]) {
        StepInv(s, actions[0]);
        StepLog(s, actions[0]);
        var s' := Step(s, actions[0]).state;
        FirstComeFirstWoken(s', actions[1..]);
        QueueStep(s.waiters, OneOf(Joining(s, s')), OneOf(Awoken(s, s')), s'.waiters, Joins(s', actions[1..]),
                  Wakeups(s', actions[1..]), Run(s', actions[1..]).state.waiters);
      } else {
        FirstComeFirstWoken(s, actions[1..]);
      }
    }
  }

  lemma QueueStep(w: seq<Tid>, j: seq<Tid>, a: seq<Tid>, w': seq<Tid>, js: seq<Tid>, as': seq<Tid>, w'': seq<Tid>)
    requires w + j == a + w' && w' + js == as' + w''
    ensures w + (j + js) == a + as' + w''
  {
    assert w + (j + js) == (w + j) + js;
    assert (a + w') + js == a + (w' + js);
    assert a + (as' + w'') == a + as' + w'';
  }

  /** How far a waiter has moved up after one step: by one place at a V. */
  lemma MovesUp(s: Lock, a: Action, k: nat)
    requires Inv(s) && Disciplined(s, a) && k < |s.waiters|
    ensures Step(s, a).Next?
    ensures var s' := Step(s, a).state;
            if a.DoV? && k == 0 then s.waiters[0] in s'.pc && s'.pc[s.waiters[0]].Woken? && s.waiters[0] !in s'.waiters
            else
              var k' := if a.DoV? then k - 1 else k;
              k' < |s'.waiters| && s'.waiters[k'] == s.waiters[k]
  {
    hide Inv, Step, Disciplined, OneOf, Joining, Awoken;
    match a {
      case DoV(t) => DisciplinedEnabled(s, a); WakesFirst(s, t);
      case TryP(t) => DisciplinedEnabled(s, a); JoinsLast(s, t);
      case _ => LocalLog(s, a);
    }
  }

  /**
    The waiter at position `k` is woken by exactly the (k+1)-th V: as long as fewer Vs have been taken it waits, that
    many places further up; the next V after `k` of them wakes it.
   */
  lemma {:induction false} WokenInTurn(s: Lock, k: nat, actions: seq<Action>, t: Tid)
    requires Inv(s) && k < |s.waiters| && Vs(s, actions) <= k
    ensures Run(s, actions).Next?
    ensures var z, w, v := Run(s, actions).state, s.waiters[k], Vs(s, actions);
            && k - v < |z.waiters| && z.waiters[k - v] == w && w in z.pc && z.pc[w].Waiting?
            && (Disciplined(z, DoV(t)) ==>
                  Step(z, DoV(t)).Next? && w in Step(z, DoV(t)).state.pc
                  && (Step(z, DoV(t)).state.pc[w].Woken? <==> v == k))
    decreases |actions|
  {
    RunInv(s, actions);
    hide Inv, Step, Disciplined;
    if actions == [] {
      NextWoken(s, k, t);
    } else if Disciplined(s, actions[0]) {
      StepInv(s, actions[0]);
      MovesUp(s, actions[0], k);
      WokenInTurn(Step(s, actions[0]).state, if actions[0].DoV? then k - 1 else k, actions[1..], t);
    } else {
      WokenInTurn(s, k, actions[1..], t);
    }
  }

  lemma NextWoken(s: Lock, k: nat, t: Tid)
    requires Inv(s) && k < |s.waiters|
    ensures var w := s.waiters[k];
            && w in s.pc && s.pc[w].Waiting?
            && (Disciplined(s, DoV(t)) ==>
                  Step(s, DoV(t)).Next? && w in Step(s, DoV(t)).state.pc
                  && (Step(s, DoV(t)).state.pc[w].Woken? <==> k == 0))
  {
    NotTwice(s, k);
    hide Inv, Step, Disciplined;
    if Disciplined(s, DoV(t)) {
      DisciplinedEnabled(s, DoV(t));
      WakesFirst(s, t);
    }
  }

  lemma NotTwice(s: Lock, k: nat)
    requires Inv(s) && k < |s.waiters|
    ensures s.waiters[k] in s.pc && s.pc[s.waiters[k]].Waiting? && (s.waiters[k] == s.waiters[0] <==> k == 0)
  {
  }
}
