/**
  The keyboard decoder as a transition system on the interrupt's flags, beside an
  independent reading of the scancode stream as a list of key events.
 */
module KbdModel {
  import IoQueue

  type Byte = b: nat | b < 256

  /** The key map: what a make code types without and with shift; NUL for the keys that type nothing. */
  function KeyMap(index: nat): (char, char)
    requires index < 0x3b
  {
    match index
    case 0x00 => ('\0', '\0') case 0x01 => ('\U{1b}', '\U{1b}') case 0x02 => ('1', '!') case 0x03 => ('2', '@')
    case 0x04 => ('3', '#') case 0x05 => ('4', '$') case 0x06 => ('5', '%') case 0x07 => ('6', '^')
    case 0x08 => ('7', '&') case 0x09 => ('8', '*') case 0x0a => ('9', '(') case 0x0b => ('0', ')')
    case 0x0c => ('-', '_') case 0x0d => ('=', '+') case 0x0e => ('\U{8}', '\U{8}') case 0x0f => ('\t', '\t')
    case 0x10 => ('q', 'Q') case 0x11 => ('w', 'W') case 0x12 => ('e', 'E') case 0x13 => ('r', 'R')
    case 0x14 => ('t', 'T') case 0x15 => ('y', 'Y') case 0x16 => ('u', 'U') case 0x17 => ('i', 'I')
    case 0x18 => ('o', 'O') case 0x19 => ('p', 'P') case 0x1a => ('[', '{') case 0x1b => (']', '}')
    case 0x1c => ('\r', '\r') case 0x1d => ('\0', '\0') case 0x1e => ('a', 'A') case 0x1f => ('s', 'S')
    case 0x20 => ('d', 'D') case 0x21 => ('f', 'F') case 0x22 => ('g', 'G') case 0x23 => ('h', 'H')
    case 0x24 => ('j', 'J') case 0x25 => ('k', 'K') case 0x26 => ('l', 'L') case 0x27 => (';', ':')
    case 0x28 => ('\'', '\"') case 0x29 => ('`', '~') case 0x2a => ('\0', '\0') case 0x2b => ('\\', '|')
    case 0x2c => ('z', 'Z') case 0x2d => ('x', 'X') case 0x2e => ('c', 'C') case 0x2f => ('v', 'V')
    case 0x30 => ('b', 'B') case 0x31 => ('n', 'N') case 0x32 => ('m', 'M') case 0x33 => (',', '<')
    case 0x34 => ('.', '>') case 0x35 => ('/', '?') case 0x36 => ('\0', '\0') case 0x37 => ('*', '*')
    case 0x38 => ('\0', '\0') case 0x39 => (' ', ' ') case 0x3a => ('\0', '\0')
    case _ => ('\0', '\0')
  }

  datatype Flags = Flags(ctrl: bool, shift: bool, alt: bool, caps: bool, ext: bool)

  const IDLE := Flags(false, false, false, false, false)

  // ---------- the handler ----------

  /** The scancodes the handler lists as ignoring caps lock. */
  predicate ShiftAlone(sc: nat) {
    sc < 0x0e || sc == 0x29 || sc == 0x1a || sc == 0x1b || sc == 0x2b || sc == 0x27 || sc == 0x28
    || sc == 0x33 || sc == 0x34 || sc == 0x35
  }

  function OnBreak(k: Flags, make: nat): Flags {
    if make == 0x1d || make == 0xe01d then k.(ctrl := false)
    else if make == 0x2a || make == 0x36 then k.(shift := false)
    else if make == 0x38 || make == 0xe038 then k.(alt := false)
    else k
  }

  function OnMake(k: Flags, index: nat): Flags {
    if index == 0x1d then k.(ctrl := true)
    else if index == 0x2a || index == 0x36 then k.(shift := true)
    else if index == 0x38 then k.(alt := true)
    else if index == 0x3a then k.(caps := !k.caps)
    else k
  }

  /** The scancodes the handler knows; the index into the key map is their low byte. */
  predicate Known(sc: nat) {
    0 < sc < 0x3b || sc == 0xe038 || sc == 0xe01d
  }

  function OnPress(k: Flags, sc: nat): (Flags, string)
    requires Known(sc)
  {
    var shift := if ShiftAlone(sc) then k.shift else k.shift != k.caps;
    var index := sc % 0x100;
    var c := if shift then KeyMap(index).1 else KeyMap(index).0;
    if c != '\0' then (k, [c]) else (OnMake(k, index), [])
  }

  /** One keyboard interrupt: the new flags and the characters (at most one) for the queue. */
  function Step(k: Flags, b: Byte): (Flags, string) {
    if b == 0xe0 then (k.(ext := true), [])
    else
      var sc := if k.ext then 0xe000 + b else b;
      var k' := k.(ext := false);
      if b >= 0x80 then (OnBreak(k', sc - 0x80), [])
      else if Known(sc) then
        OnPress(k', sc)
      else (k', [])
  }

  function Run(k: Flags, bytes: seq<Byte>): (Flags, string)
    decreases |bytes|
  {
    if bytes == [] then (k, [])
    else
      var before := Run(k, bytes[..|bytes| - 1]);
      var now := Step(before.0, bytes[|bytes| - 1]);
      (now.0, before.1 + now.1)
  }

  // ---------- the stream as key events ----------

  /** A key going down or up; `ext` when the byte before was 0xe0. */
  datatype Event = Event(ext: bool, code: nat, press: bool)

  datatype Modifier = Ctrl | Shift | Alt

  predicate Prefixed(bytes: seq<Byte>) {
    bytes != [] && bytes[|bytes| - 1] == 0xe0
  }

  function Events(bytes: seq<Byte>): seq<Event>
    decreases |bytes|
  {
    if bytes == [] then []
    else
      var before, b := bytes[..|bytes| - 1], bytes[|bytes| - 1];
      if b == 0xe0 then Events(before)
      else Events(before) + [Event(Prefixed(before), b % 0x80, b < 0x80)]
  }

  /** Control and alt have a left key and a 0xe0-prefixed right one; the two shift keys are unprefixed. */
  predicate Concerns(m: Modifier, e: Event) {
    match m
    case Ctrl => e.code == 0x1d
    case Shift => !e.ext && (e.code == 0x2a || e.code == 0x36)
    case Alt => e.code == 0x38
  }

  /** The last event of this modifier was a press. */
  ghost predicate Down(m: Modifier, es: seq<Event>) {
    exists i :: 0 <= i < |es| && Concerns(m, es[i]) && es[i].press && forall j :: i < j < |es| ==> !Concerns(m, es[j])
  }

  function CapsPresses(es: seq<Event>): nat {
    if es == [] then 0
    else
      var e := es[|es| - 1];
      CapsPresses(es[..|es| - 1]) + if e.press && !e.ext && e.code == 0x3a then 1 else 0
  }

  ghost predicate CapsOn(es: seq<Event>) {
    CapsPresses(es) % 2 == 1
  }

  predicate Letter(c: char) {
    'a' <= c <= 'z'
  }

  /** What a key types: letters follow shift and caps lock, every other key follows shift alone. */
  function CharWith(shift: bool, caps: bool, e: Event): string {
    if !e.press || e.ext || e.code >= 0x3b || KeyMap(e.code).0 == '\0' then []
    else if (if Letter(KeyMap(e.code).0) then shift != caps else shift) then [KeyMap(e.code).1]
    else [KeyMap(e.code).0]
  }

  ghost function CharOf(prior: seq<Event>, e: Event): string {
    CharWith(Down(Shift, prior), CapsOn(prior), e)
  }

  ghost function Typed(es: seq<Event>): string {
    if es == [] then [] else Typed(es[..|es| - 1]) + CharOf(es[..|es| - 1], es[|es| - 1])
  }

  ghost function FlagsOf(bytes: seq<Byte>): Flags {
    var es := Events(bytes);
    Flags(Down(Ctrl, es), Down(Shift, es), Down(Alt, es), CapsOn(es), Prefixed(bytes))
  }

  // ---------- the two agree ----------

  /**
    The handler's list of scancodes is right: it leaves out exactly the letters among the keys
    whose two characters differ, and the shifted letters are the capitals.
   */
  lemma KeyMapSplits(code: nat)
    requires code < 0x3b
    ensures Letter(KeyMap(code).0) ==> !ShiftAlone(code) && KeyMap(code).1 as int == KeyMap(code).0 as int - 32
    ensures !Letter(KeyMap(code).0) && KeyMap(code).0 != KeyMap(code).1 ==> ShiftAlone(code)
    ensures KeyMap(code).0 == '\0' <==> KeyMap(code).1 == '\0'
    ensures KeyMap(code).0 == '\0' <==> code in {0, 0x1d, 0x2a, 0x36, 0x38, 0x3a}
  {
    if code < 0x10 {
    } else if code < 0x20 {
    } else if code < 0x30 {
    } else {
    }
  }

  /**
    The rows of the keyboard: digits by their value, letters and the signs beside them as the keys lie, and what shift
    makes of each key that is no letter.
   */
  lemma KeyRows(i: nat)
    ensures 1 <= i <= 9 ==> KeyMap(i + 1).0 as int == '0' as int + i
    ensures KeyMap(0x0b).0 == '0' && (i < 10 ==> KeyMap(0x02 + i).1 == "!@#$%^&*()"[i])
    ensures i < 12 ==> KeyMap(0x10 + i).0 == "qwertyuiop[]"[i]
    ensures i < 12 ==> KeyMap(0x1e + i).0 == "asdfghjkl;'`"[i]
    ensures i < 10 ==> KeyMap(0x2c + i).0 == "zxcvbnm,./"[i]
    ensures i < 2 ==> KeyMap(0x0c + i) == ("-="[i], "_+"[i]) && KeyMap(0x1a + i).1 == "{}"[i]
    ensures i < 3 ==> KeyMap(0x27 + i).1 == ":\"~"[i] && KeyMap(0x33 + i).1 == "<>?"[i]
    ensures KeyMap(0x2b) == ('\\', '|') && KeyMap(0x37) == ('*', '*') && KeyMap(0x39) == (' ', ' ')
    ensures KeyMap(0x01).0 as int == KeyMap(0x01).1 as int == 27
    ensures KeyMap(0x0e).0 as int == KeyMap(0x0e).1 as int == 8
    ensures KeyMap(0x0f).0 as int == KeyMap(0x0f).1 as int == 9 && KeyMap(0x1c).0 as int == KeyMap(0x1c).1 as int == 13
  {
  }

  lemma DownStep(m: Modifier, es: seq<Event>, e: Event)
    ensures Down(m, es + [e]) == if Concerns(m, e) then e.press else Down(m, es)
  {
    var all := es + [e];
    if Concerns(m, e) {
      assert all[|es|] == e;
    } else {
      if Down(m, es) {
        var i :| 0 <= i < |es| && Concerns(m, es[i]) && es[i].press && forall j :: i < j < |es| ==> !Concerns(m, es[j]);
        assert all[i] == es[i];
      }
      if Down(m, all) {
        var i :| 0 <= i < |all| && Concerns(m, all[i]) && all[i].press
            && forall j :: i < j < |all| ==> !Concerns(m, all[j]);
        assert es[i] == all[i];
        assert forall j :: i < j < |es| ==> es[j] == all[j];
      }
    }
  }

  lemma CapsStep(es: seq<Event>, e: Event)
    ensures CapsOn(es + [e]) == if e.press && !e.ext && e.code == 0x3a then !CapsOn(es) else CapsOn(es)
  {
    assert (es + [e])[..|es + [e]| - 1] == es;
  }

  lemma TypedStep(es: seq<Event>, e: Event)
    ensures Typed(es + [e]) == Typed(es) + CharOf(es, e)
  {
    assert (es + [e])[..|es + [e]| - 1] == es;
  }

  /** The flags after one key event. */
  function FlagsAfter(k: Flags, e: Event): Flags {
    Flags(if Concerns(Ctrl, e) then e.press else k.ctrl,
          if Concerns(Shift, e) then e.press else k.shift,
          if Concerns(Alt, e) then e.press else k.alt,
          if e.press && !e.ext && e.code == 0x3a then !k.caps else k.caps,
          false)
  }

  lemma ReleaseMeans(k: Flags, b: Byte)
    requires b >= 0x80 && b != 0xe0
    ensures Step(k, b) == (FlagsAfter(k, Event(k.ext, b - 0x80, false)), [])
  {
    hide KeyMap, ShiftAlone, OnMake;
  }

  lemma ExtendedPressMeans(k: Flags, b: Byte)
    requires b < 0x80 && k.ext
    ensures Step(k, b) == (FlagsAfter(k, Event(true, b, true)), [])
  {
    assert (0xe000 + b) % 0x100 == b;
    if b == 0x1d || b == 0x38 {
      KeyMapSplits(b);
    }
    hide KeyMap, ShiftAlone, OnBreak;
  }

  lemma PressMeans(k: Flags, b: Byte)
    requires b < 0x80 && !k.ext
    ensures Step(k, b) == (FlagsAfter(k, Event(false, b, true)), CharWith(k.shift, k.caps, Event(false, b, true)))
  {
    assert b % 0x100 == b;
    if b >= 0x3b {
      hide KeyMap, ShiftAlone, OnBreak, Letter;
    } else {
      KeyMapSplits(b);
      hide KeyMap, ShiftAlone, OnBreak, Letter;
      if KeyMap(b).0 != '\0' {
        hide OnMake;
      }
    }
  }

  /** One interrupt, read as one key event. */
  lemma StepMeans(k: Flags, b: Byte)
    requires b != 0xe0
    ensures var e := Event(k.ext, b % 0x80, b < 0x80);
            Step(k, b) == (FlagsAfter(k, e), CharWith(k.shift, k.caps, e))
  {
    hide Step, FlagsAfter;
    if b >= 0x80 {
      ReleaseMeans(k, b);
      assert b % 0x80 == b - 0x80;
    } else if k.ext {
      ExtendedPressMeans(k, b);
    } else {
      PressMeans(k, b);
    }
  }

  lemma StepDecodes(es: seq<Event>, ext: bool, b: Byte)
    requires b != 0xe0
    ensures var e := Event(ext, b % 0x80, b < 0x80);
            var es' := es + [e];
            Step(Flags(Down(Ctrl, es), Down(Shift, es), Down(Alt, es), CapsOn(es), ext), b) ==
            (Flags(Down(Ctrl, es'), Down(Shift, es'), Down(Alt, es'), CapsOn(es'), false), CharOf(es, e))
  {
    var e := Event(ext, b % 0x80, b < 0x80);
    DownStep(Ctrl, es, e);
    DownStep(Shift, es, e);
    DownStep(Alt, es, e);
    CapsStep(es, e);
    StepMeans(Flags(Down(Ctrl, es), Down(Shift, es), Down(Alt, es), CapsOn(es), ext), b);
    hide Down, CapsOn, KeyMap, Letter, Step, Concerns;
  }

  /**
    For every scancode stream: shift, control and alt say whether the last event of that modifier was a
    press, caps lock is the parity of its presses, and the characters put out are what the key events type.
   */
  lemma {:induction false} Decodes(bytes: seq<Byte>)
    ensures Run(IDLE, bytes) == (FlagsOf(bytes), Typed(Events(bytes)))
    decreases |bytes|
  {
    if bytes != [] {
      var before, b := bytes[..|bytes| - 1], bytes[|bytes| - 1];
      Decodes(before);
      if b != 0xe0 {
        StepDecodes(Events(before), Prefixed(before), b);
        TypedStep(Events(before), Event(Prefixed(before), b % 0x80, b < 0x80));
      } else {
        assert Run(IDLE, bytes).1 == Run(IDLE, before).1;
      }
    }
  }

  // ---------- the keyboard and its reader together ----------

  datatype System = System(flags: Flags, h: IoQueue.History, typed: string)

  datatype Op = Key(b: Byte) | Read

  predicate Wf(s: System) {
    IoQueue.Wf(s.h.q)
  }

  function PutAll(h: IoQueue.History, cs: string): (r: IoQueue.History)
    requires IoQueue.Wf(h.q)
    ensures IoQueue.Wf(r.q)
    decreases |cs|
  {
    if cs == [] then h else PutAll(IoQueue.Step(h, IoQueue.Put(cs[0])), cs[1..])
  }

  /** The interrupt drops the character when the queue is full; the reader polls before it takes one. */
  function SystemStep(s: System, op: Op): (r: System)
    requires Wf(s)
    ensures Wf(r)
  {
    match op
    case Key(b) =>
      var (k, cs) := Step(s.flags, b);
      System(k, PutAll(s.h, cs), s.typed + cs)
    case Read => s.(h := IoQueue.Step(s.h, IoQueue.Get))
  }

  function SystemRun(s: System, ops: seq<Op>): (r: System)
    requires Wf(s)
    ensures Wf(r)
    decreases |ops|
  {
    if ops == [] then s else SystemStep(SystemRun(s, ops[..|ops| - 1]), ops[|ops| - 1])
  }

  predicate Consistent(s: System) {
    IoQueue.Consistent(s.h) && |s.h.put| <= |s.typed|
  }

  /** The typed characters never run more than a full queue ahead of the reader. */
  predicate Keeps(s: System) {
    |s.typed| - |s.h.got| <= IoQueue.BUF_SIZE - 1
  }

  lemma CancelRight(a: string, b: string, c: string)
    ensures a + c == b + c <==> a == b
  {
    if a + c == b + c {
      assert a == (a + c)[..|a|] && b == (b + c)[..|b|];
    }
  }

  lemma SystemStepConsistent(s: System, op: Op)
    requires Consistent(s)
    ensures Consistent(SystemStep(s, op)) && SystemStep(s, op).h.got <= SystemStep(s, op).h.put
    ensures var s' := SystemStep(s, op);
            s'.h.put == s'.typed <==> s.h.put == s.typed && Keeps(s')
  {
    var s' := SystemStep(s, op);
    match op {
      case Key(b) =>
        var cs := Step(s.flags, b).1;
        if cs != [] {
          assert cs == [cs[0]];
          IoQueue.StepConsistent(s.h, IoQueue.Put(cs[0]));
          IoQueue.FullEmptyExact(s.h.q.buf, s.h.q.head, s.h.q.tail);
          CancelRight(s.h.put, s.typed, cs);
          assert PutAll(s.h, cs) == IoQueue.Step(s.h, IoQueue.Put(cs[0]));
        }
      case Read =>
        IoQueue.StepConsistent(s.h, IoQueue.Get);
    }
  }

  function Start(buf: string): System {
    System(IDLE, IoQueue.History(IoQueue.Queue(buf, 0, 0), [], []), [])
  }

  /**
    Over every interleaving of key interrupts and reads, what is read is a prefix of what was queued, and no
    character is lost exactly when the typing never ran more than 1023 characters ahead of the reader.
   */
  lemma {:induction false} NothingLostExactly(buf: string, ops: seq<Op>)
    requires |buf| == IoQueue.BUF_SIZE
    ensures Consistent(SystemRun(Start(buf), ops))
    ensures SystemRun(Start(buf), ops).h.got <= SystemRun(Start(buf), ops).h.put
    ensures SystemRun(Start(buf), ops).h.put == SystemRun(Start(buf), ops).typed
            <==> forall k :: 0 <= k <= |ops| ==> Keeps(SystemRun(Start(buf), ops[..k]))
    decreases |ops|
  {
    if ops == [] {
      assert ops[..0] == ops;
      assert IoQueue.Contents(buf, 0, 0) == [];
    } else {
      var before := ops[..|ops| - 1];
      NothingLostExactly(buf, before);
      SystemStepConsistent(SystemRun(Start(buf), before), ops[|ops| - 1]);
      assert SystemRun(Start(buf), ops) == SystemStep(SystemRun(Start(buf), before), ops[|ops| - 1]);
      hide SystemRun, SystemStep, Start, Consistent, Keeps, Wf;
      assert ops[..|ops|] == ops;
      forall k | 0 <= k <= |before|
        ensures Keeps(SystemRun(Start(buf), before[..k])) == Keeps(SystemRun(Start(buf), ops[..k]))
      {
        assert before[..k] == ops[..k];
      }
      forall k | 0 <= k <= |ops|
        ensures k == |ops| || Keeps(SystemRun(Start(buf), ops[..k])) == Keeps(SystemRun(Start(buf), before[..k]))
      {
      }
    }
  }
}
