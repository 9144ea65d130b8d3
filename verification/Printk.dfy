/** The formatter's loops over the static 1024-byte buffer and its 32-byte scratch array. */
module Printk {
  import opened PrintkModel

  // ---------- string routines ----------

  /** The length of the C string in some memory. */
  method Strlen(mem: string) returns (n: nat)
    requires '\0' in mem
    ensures n == FirstNul(mem)
  {
    n := 0;
    while mem[n] != '\0'
      invariant n <= FirstNul(mem)
      decreases |mem| - n
    {
      assert n < FirstNul(mem);
      n := n + 1;
    }
    assert forall k :: 0 <= k < FirstNul(mem) ==> mem[k] == mem[..FirstNul(mem)][k];
  }

  method Memset(dst: array<char>, val: char)
    modifies dst
    ensures forall k :: 0 <= k < dst.Length ==> dst[k] == val
  {
    var i := 0;
    while i < dst.Length
      invariant 0 <= i <= dst.Length
      invariant forall k :: 0 <= k < i ==> dst[k] == val
    {
      dst[i] := val;
      i := i + 1;
    }
  }

  /** The memory after `text` and its NUL are written at `e`. */
  function Written(mem: string, e: nat, text: string): string
    requires e + |text| < |mem|
  {
    mem[..e] + text + "\0" + mem[e + |text| + 1..]
  }

  lemma WrittenAt(mem: string, e: nat, text: string, after: string)
    requires e + |text| < |mem| == |after|
    requires forall k :: 0 <= k < e ==> after[k] == mem[k]
    requires forall k :: 0 <= k < |text| ==> after[e + k] == text[k]
    requires after[e + |text|] == '\0'
    requires forall k :: e + |text| < k < |mem| ==> after[k] == mem[k]
    ensures after == Written(mem, e, text)
  {
    assert forall k :: e <= k < e + |text| ==> after[k] == after[e + (k - e)];
  }

  method CopyString(dst: array<char>, e: nat, text: string)
    requires e + |text| < dst.Length
    modifies dst
    ensures dst[..] == Written(old(dst[..]), e, text)
  {
    ghost var was := dst[..];
    hide Written;
    var i := 0;
    while i < |text|
      invariant 0 <= i <= |text|
      invariant forall k :: 0 <= k < dst.Length && !(e <= k < e + i) ==> dst[k] == was[k]
      invariant forall k :: 0 <= k < i ==> dst[e + k] == text[k]
    {
      dst[e + i] := text[i];
      i := i + 1;
    }
    dst[e + |text|] := '\0';
    WrittenAt(was, e, text, dst[..]);
  }

  /** Appends the C string `src` to the C string that starts at `dst + at`. */
  method Strcat(dst: array<char>, at: nat, src: string)
    requires '\0' in src && at <= dst.Length && '\0' in dst[at..]
    requires at + FirstNul(dst[at..]) + FirstNul(src) < dst.Length
    modifies dst
    ensures dst[..] == Written(old(dst[..]), at + FirstNul(old(dst[at..])), src[..FirstNul(src)])
  {
    var srcLen := Strlen(src);
    var dstLen := Strlen(dst[at..]);
    CopyString(dst, at + dstLen, src[..srcLen]);
  }

  // ---------- digits ----------

  function Reversed(s: string): (r: string)
    ensures |r| == |s|
  {
    if s == [] then [] else Reversed(s[1..]) + [s[0]]
  }

  lemma {:induction false} ReversedAt(s: string, k: nat)
    requires k < |s|
    ensures Reversed(s)[k] == s[|s| - 1 - k]
  {
    if k < |s| - 1 {
      ReversedAt(s[1..], k);
    }
  }

  lemma {:induction false} ReversedSnoc(s: string, c: char)
    ensures Reversed(s + [c]) == [c] + Reversed(s)
  {
    if s != [] {
      ReversedSnoc(s[1..], c);
      assert (s + [c])[1..] == s[1..] + [c];
    }
  }

  /** The swap loop at the end of each digit routine. */
  method ReverseDigits(buf: array<char>, cnt: nat)
    requires cnt <= buf.Length
    modifies buf
    ensures buf[..] == Reversed(old(buf[..cnt])) + old(buf[cnt..])
  {
    ghost var was := buf[..];
    var i := 0;
    while i < cnt / 2
      invariant 0 <= i <= cnt / 2
      invariant forall k :: 0 <= k < i ==> buf[k] == was[cnt - 1 - k] && buf[cnt - 1 - k] == was[k]
      invariant forall k :: i <= k < cnt - i ==> buf[k] == was[k]
      invariant forall k :: cnt <= k < buf.Length ==> buf[k] == was[k]
    {
      var tmp := buf[i];
      buf[i] := buf[cnt - i - 1];
      buf[cnt - i - 1] := tmp;
      i := i + 1;
    }
    forall k | 0 <= k < cnt
      ensures buf[k] == Reversed(was[..cnt])[k]
    {
      ReversedAt(was[..cnt], k);
    }
    assert was[..cnt] == old(buf[..cnt]) && was[cnt..] == old(buf[cnt..]);
  }

  /** A C string holding `text`. */
  predicate Holds(mem: string, text: string) {
    |text| < |mem| && mem[..|text|] == text && mem[|text|] == '\0'
  }

  method Finish(buf: array<char>, cnt: nat)
    requires cnt < buf.Length
    modifies buf
    ensures Holds(buf[..], Reversed(old(buf[..cnt])))
  {
    buf[cnt] := '\0';
    ReverseDigits(buf, cnt);
  }

  method Store(buf: array<char>, cnt: nat, c: char)
    requires cnt < buf.Length
    modifies buf
    ensures Reversed(buf[..cnt + 1]) == [c] + Reversed(old(buf[..cnt]))
  {
    ReversedSnoc(buf[..cnt], c);
    ghost var done := buf[..cnt];
    buf[cnt] := c;
    assert buf[..cnt + 1] == done + [c];
  }

  lemma DigitMoves(rest: string, c: char, done: string)
    ensures rest + [c] + done == rest + ([c] + done)
  {
  }

  /** What is left to print, then what the array already holds, read backwards. */
  method Itoa(x: int, buf: array<char>)
    requires |IntText(x)| < buf.Length
    modifies buf
    ensures Holds(buf[..], IntText(x))
  {
    hide Reversed, Holds;
    var cnt, v, more := 0, x, true;
    while more
      invariant cnt <= buf.Length
      invariant IntText(x) == (if more then IntText(v) else []) + Reversed(buf[..cnt])
      invariant !more ==> v == 0
      decreases more, if v >= 0 then v else -v
    {
      var c := DigitChar(Rem(v));
      DigitMoves(if Quot(v) == 0 then [] else IntText(Quot(v)), c, Reversed(buf[..cnt]));
      Store(buf, cnt, c);
      cnt := cnt + 1;
      v := Quot(v);
      more := v != 0;
    }
    assert Reversed(buf[..cnt]) == IntText(x);
    Finish(buf, cnt);
  }

  method Utoa(x: Word, buf: array<char>)
    requires buf.Length > 10
    modifies buf
    ensures Holds(buf[..], Text(x, 10))
  {
    WordTextFits(x);
    hide Reversed, Holds;
    var cnt, v: nat, more := 0, x, true;
    while more
      invariant cnt <= buf.Length
      invariant Text(x, 10) == (if more then Text(v, 10) else []) + Reversed(buf[..cnt])
      invariant !more ==> v == 0
      decreases more, v
    {
      var c := (v % 10 + 0x30) as char;
      DigitMoves(if v / 10 == 0 then [] else Text(v / 10, 10), c, Reversed(buf[..cnt]));
      Store(buf, cnt, c);
      cnt := cnt + 1;
      v := v / 10;
      more := v != 0;
    }
    assert Reversed(buf[..cnt]) == Text(x, 10);
    Finish(buf, cnt);
  }

  method ToHex(x: Word, buf: array<char>)
    requires buf.Length > 8
    modifies buf
    ensures Holds(buf[..], Text(x, 16))
  {
    WordTextFits(x);
    hide Reversed, Holds;
    var cnt, v: nat, more := 0, x, true;
    while more
      invariant cnt <= buf.Length
      invariant Text(x, 16) == (if more then Text(v, 16) else []) + Reversed(buf[..cnt])
      invariant !more ==> v == 0
      decreases more, v
    {
      var c := '0';
      if v % 16 < 10 {
        c := (v % 16 + 0x30) as char;
      } else {
        c := (v % 16 - 10 + 'A' as int) as char;
      }
      DigitMoves(if v / 16 == 0 then [] else Text(v / 16, 16), c, Reversed(buf[..cnt]));
      Store(buf, cnt, c);
      cnt := cnt + 1;
      v := v / 16;
      more := v != 0;
    }
    assert Reversed(buf[..cnt]) == Text(x, 16);
    Finish(buf, cnt);
  }

  // ---------- sprintk ----------

  lemma FilledStrcat(buf: string, done: string, mem: string, text: string)
    requires Filled(buf, done) && Holds(mem, text) && '\0' !in text && |done| + |text| < BUF_SIZE
    ensures '\0' in mem && FirstNul(mem) == |text|
    ensures '\0' in buf[|done|..] && FirstNul(buf[|done|..]) == 0
    ensures Filled(Written(buf, |done|, text), done + text)
  {
    FirstNulUnique(mem, |text|);
    FirstNulUnique(buf[|done|..], 0);
  }

  lemma PieceMoves(done: string, piece: string, rest: string)
    ensures done + (piece + rest) == done + piece + rest && done + [] == done
  {
  }

  lemma NothingLeft(args: seq<Arg>)
    ensures Matches([], args) && Render([], args) == [] && Uncounted([], args) == 0
  {
  }

  lemma StringHolds(s: string)
    ensures Holds(s + "\0", s)
  {
  }

  class Formatter {
    const buf: array<char>

    constructor ()
      ensures fresh(buf) && buf.Length == BUF_SIZE
    {
      buf := new char[BUF_SIZE];
    }

    /** The common tail of the string-valued conversions. */
    method Append(loc: nat, mem: string, ghost done: string, ghost text: string) returns (n: nat)
      requires Filled(buf[..], done) && |done| == loc
      requires Holds(mem, text) && '\0' !in text && loc + |text| < BUF_SIZE
      modifies buf
      ensures n == |text| && Filled(buf[..], done + text)
    {
      FilledStrcat(buf[..], done, mem, text);
      hide Filled, Holds, Written, FirstNul;
      Strcat(buf, loc, mem);
      n := Strlen(mem);
    }

    method PutOne(loc: nat, c: char, ghost done: string)
      requires Filled(buf[..], done) && |done| == loc && loc + 1 < BUF_SIZE
      modifies buf
      ensures Filled(buf[..], done + [c])
    {
      buf[loc] := c;
    }

    method PutSigned(v: Int32, loc: nat, ghost done: string) returns (loc': nat, n: nat)
      requires Filled(buf[..], done) && |done| == loc && loc + |SignedText(v)| < BUF_SIZE
      modifies buf
      ensures Filled(buf[..], done + SignedText(v)) && loc' == loc + |SignedText(v)|
      ensures n == |SignedText(v)| - if v < 0 then 1 else 0
    {
      hide Filled, IntText, Holds, Written, FirstNul;
      SignedFits(v);
      var tmp := new char[32];
      if v < 0 {
        PutOne(loc, '-', done);
        var val := Negate(v);
        Itoa(val, tmp);
        n := Append(loc + 1, tmp[..], done + "-", IntText(val));
        DigitMoves(done, '-', IntText(val));
        loc' := loc + 1 + n;
      } else {
        Itoa(v, tmp);
        n := Append(loc, tmp[..], done, IntText(v));
        loc' := loc + n;
      }
    }

    /** One conversion; the count leaves out a minus sign. */
    method Convert(c: char, arg: Arg, loc: nat, ghost done: string) returns (loc': nat, n: nat)
      requires c in "udclxs"
      requires if c == 's' then arg.Str? && '\0' !in arg.s else arg.Word?
      requires Filled(buf[..], done) && |done| == loc && loc + |Piece(c, arg)| < BUF_SIZE
      modifies buf
      ensures Filled(buf[..], done + Piece(c, arg)) && loc' == loc + |Piece(c, arg)|
      ensures n == |Piece(c, arg)| - if c in "dl" && AsSigned(arg.w) < 0 then 1 else 0
    {
      var tmp := new char[32];
      PieceNul(c, arg);
      hide Filled, Text, SignedText, Holds;
      match c {
        case 'u' =>
          Utoa(arg.w, tmp);
          n := Append(loc, tmp[..], done, Text(arg.w, 10));
          loc' := loc + n;
        case 'x' =>
          ToHex(arg.w, tmp);
          n := Append(loc, tmp[..], done, Text(arg.w, 16));
          loc' := loc + n;
        case 's' =>
          StringHolds(arg.s);
          n := Append(loc, arg.s + "\0", done, arg.s);
          loc' := loc + n;
        case 'c' =>
          PutOne(loc, (arg.w % 0x100) as char, done);
          loc', n := loc + 1, 1;
        case _ =>
          loc', n := PutSigned(AsSigned(arg.w), loc, done);
      }
    }

    /** One turn of the loop: plain character, conversion, or a character escaped by '%'. */
    method Next(fmt: string, args: seq<Arg>, p: nat, a: nat, loc: nat, ghost done: string)
      returns (p': nat, a': nat, loc': nat, n: nat, ghost piece: string)
      requires p < |fmt| && a <= |args| && Matches(fmt[p..], args[a..])
      requires Filled(buf[..], done) && |done| == loc && loc + |Render(fmt[p..], args[a..])| < BUF_SIZE
      modifies buf
      ensures p < p' <= |fmt| && a' <= |args| && Matches(fmt[p'..], args[a'..])
      ensures Filled(buf[..], done + piece) && loc' == loc + |piece|
      ensures Render(fmt[p..], args[a..]) == piece + Render(fmt[p'..], args[a'..])
      ensures n + Uncounted(fmt[p..], args[a..]) == |piece| + Uncounted(fmt[p'..], args[a'..])
    {
      hide Filled, Piece;
      ghost var rest, more := fmt[p..], args[a..];
      if fmt[p] != '%' {
        piece := [fmt[p]];
        PutOne(loc, fmt[p], done);
        p', a', loc', n := p + 1, a, loc + 1, 0;
        assert fmt[p'..] == rest[1..];
      } else if fmt[p + 1] in "udclxs" {
        piece := Piece(fmt[p + 1], args[a]);
        loc', n := Convert(fmt[p + 1], args[a], loc, done);
        p', a' := p + 2, a + 1;
        assert fmt[p'..] == rest[2..] && args[a'..] == more[1..];
      } else {
        piece := [fmt[p + 1]];
        PutOne(loc, fmt[p + 1], done);
        p', a', loc', n := p + 2, a, loc + 1, 1;
        assert fmt[p'..] == rest[2..];
      }
    }

    /**
      The buffer ends up holding the render of format and arguments and zeros behind it; the count
      is its length less the plain characters and minus signs.
     */
    method Sprintk(fmt: string, args: seq<Arg>) returns (cnt: nat)
      requires buf.Length == BUF_SIZE
      requires Matches(fmt, args) && |Render(fmt, args)| < BUF_SIZE
      modifies buf
      ensures Filled(buf[..], Render(fmt, args))
      ensures cnt == |Render(fmt, args)| - Uncounted(fmt, args)
    {
      Memset(buf, '\0');
      cnt := 0;
      var loc, p, a := 0, 0, 0;
      ghost var done: string := "";
      assert fmt[0..] == fmt && args[0..] == args;
      assert Filled(buf[..], done);
      hide Filled, Matches, Render, Uncounted;
      while p < |fmt|
        invariant p <= |fmt| && a <= |args| && Matches(fmt[p..], args[a..])
        invariant Filled(buf[..], done) && |done| == loc
        invariant done + Render(fmt[p..], args[a..]) == Render(fmt, args)
        invariant cnt + Uncounted(fmt, args) == loc + Uncounted(fmt[p..], args[a..])
      {
        var n;
        ghost var piece;
        p, a, loc, n, piece := Next(fmt, args, p, a, loc, done);
        PieceMoves(done, piece, Render(fmt[p..], args[a..]));
        done := done + piece;
        cnt := cnt + n;
      }
      assert fmt[p..] == [];
      NothingLeft(args[a..]);
      PieceMoves(done, [], []);
    }
  }
}
