/** What the kernel's formatted printing puts into its buffer, as a function of format and arguments. */
module PrintkModel {
  import opened Common

  const TWO31: int := 0x8000_0000
  const TWO32: int := 0x1_0000_0000
  const INT_MIN: int := -TWO31
  const BUF_SIZE: nat := 1024

  type Word = w: int | 0 <= w < TWO32
  type Int32 = v: int | INT_MIN <= v < TWO31

  /** A variadic argument: a 32-bit word, or a pointer to a string. */
  datatype Arg = Word(w: Word) | Str(s: string)

  function AsSigned(w: Word): Int32 {
    if w < TWO31 then w else w - TWO32
  }

  /** Negation of a 32-bit int wraps at the minimum. */
  function Negate(v: Int32): Int32 {
    if v == INT_MIN then INT_MIN else -v
  }

  // Division and remainder round toward zero.
  function Quot(v: int): int {
    if v >= 0 then v / 10 else -((-v) / 10)
  }

  function Rem(v: int): (r: int)
    ensures -9 <= r <= 9
  {
    v - 10 * Quot(v)
  }

  function DigitChar(d: int): char
    requires -9 <= d < 16
  {
    if d < 10 then (d + 0x30) as char else (d - 10 + 'A' as int) as char
  }

  /** The characters of a number, most significant first: one digit, preceded by those of the quotient. */
  function Text(v: nat, base: nat): string
    requires base == 10 || base == 16
  {
    (if v / base == 0 then [] else Text(v / base, base)) + [DigitChar(v % base)]
  }

  /** The signed routine, also on the one negative number that reaches it. */
  function IntText(v: int): string
    decreases if v >= 0 then v else -v
  {
    (if Quot(v) == 0 then [] else IntText(Quot(v))) + [DigitChar(Rem(v))]
  }

  function SignedText(v: Int32): string {
    if v < 0 then "-" + IntText(Negate(v)) else IntText(v)
  }

  // ---------- reading numbers back ----------

  predicate IsDigit(c: char) {
    '0' <= c <= '9' || 'A' <= c <= 'F'
  }

  function DigitValue(c: char): (d: int)
    requires IsDigit(c)
    ensures 0 <= d < 16
  {
    if c <= '9' then c as int - 0x30 else c as int - 'A' as int + 10
  }

  predicate IsNumeral(s: string, base: nat) {
    s != [] && forall i :: 0 <= i < |s| ==> IsDigit(s[i]) && DigitValue(s[i]) < base
  }

  function Value(s: string, base: nat): nat
    requires forall i :: 0 <= i < |s| ==> IsDigit(s[i])
  {
    if s == [] then 0 else Value(s[..|s| - 1], base) * base + DigitValue(s[|s| - 1])
  }

  function ParseInt(s: string): Option<int> {
    if IsNumeral(s, 10) then Some(Value(s, 10))
    else if s != [] && s[0] == '-' && IsNumeral(s[1..], 10) then Some(-(Value(s[1..], 10) as int))
    else None
  }

  lemma ValueSnoc(t: string, c: char, base: nat)
    requires IsNumeral(t, base) && IsDigit(c) && DigitValue(c) < base
    ensures IsNumeral(t + [c], base) && Value(t + [c], base) == Value(t, base) * base + DigitValue(c)
  {
    var s := t + [c];
    assert s[..|s| - 1] == t;
  }

  /** Digits evaluate back to the number, and only zero starts with a zero. */
  lemma {:induction false} TextEvaluates(v: nat, base: nat)
    requires base == 10 || base == 16
    ensures IsNumeral(Text(v, base), base) && Value(Text(v, base), base) == v
    ensures Text(v, base)[0] == '0' ==> v == 0 && |Text(v, base)| == 1
  {
    var s, c := Text(v, base), DigitChar(v % base);
    assert IsDigit(c) && DigitValue(c) == v % base;
    if v / base == 0 {
      assert s == [c] && s[..0] == [];
      assert v % base == v;
    } else {
      var t := Text(v / base, base);
      TextEvaluates(v / base, base);
      assert s == t + [c] && s[0] == t[0];
      ValueSnoc(t, c, base);
      hide Value, IsNumeral, Text;
      assert v == (v / base) * base + v % base;
    }
  }

  /** With `digits` places the number fits, so the digits fit the scratch array. */
  lemma {:induction false} TextLength(v: nat, base: nat, digits: nat)
    requires base == 10 || base == 16
    requires digits > 0 && v < Power(base, digits)
    ensures 0 < |Text(v, base)| <= digits
    decreases digits
  {
    if v / base != 0 {
      assert digits == 1 ==> Power(base, digits) == base;
      assert Power(base, digits) == base * Power(base, digits - 1);
      TextLength(v / base, base, digits - 1);
    }
  }

  function Power(base: nat, n: nat): nat {
    if n == 0 then 1 else base * Power(base, n - 1)
  }

  lemma {:induction false} IntTextAgrees(v: nat)
    ensures IntText(v) == Text(v, 10)
  {
    assert Quot(v) == v / 10 && Rem(v) == v % 10;
    if v / 10 != 0 {
      IntTextAgrees(v / 10);
    }
  }

  lemma WordTextFits(w: Word)
    ensures 0 < |Text(w, 10)| <= 10 && 0 < |Text(w, 16)| <= 8
  {
    assert Power(10, 5) == 100000;
    assert Power(10, 10) == 10 * (10 * (10 * (10 * (10 * Power(10, 5)))));
    assert Power(16, 4) == 0x1_0000;
    assert Power(16, 8) == 16 * (16 * (16 * (16 * Power(16, 4))));
    TextLength(w, 10, 10);
    TextLength(w, 16, 8);
  }

  /** The digits of minus n are those of n, each as far below '0' as it should be above. */
  lemma {:induction false} NegativeTextMirrors(n: int)
    requires n >= 0
    ensures |IntText(-n)| == |Text(n, 10)|
    ensures forall i :: 0 <= i < |IntText(-n)| ==> IntText(-n)[i] as int == 0x60 - Text(n, 10)[i] as int
  {
    assert n > 0 ==> Quot(-n) == -(n / 10) && Rem(-n) == -(n % 10);
    if n / 10 != 0 {
      NegativeTextMirrors(n / 10);
    }
  }

  lemma MinusReadsBack(n: nat, v: Int32)
    requires v + n == 0 && 0 < n < TWO31
    ensures ParseInt("-" + Text(n, 10)) == Some(v)
  {
    TextEvaluates(n, 10);
    var s := "-" + Text(n, 10);
    assert s[1..] == Text(n, 10);
    assert !IsDigit(s[0]);
    assert !IsNumeral(s, 10);
    hide Text, Value, IsNumeral;
  }

  lemma MinimumGarbled()
    ensures ParseInt(SignedText(INT_MIN)) == None
  {
    NegativeTextMirrors(TWO31);
    TextEvaluates(TWO31, 10);
    var s, t := SignedText(INT_MIN), IntText(INT_MIN);
    assert s[1..] == t;
    assert IsDigit(Text(TWO31, 10)[0]) && Text(TWO31, 10)[0] > '0';
    assert t[0] < '0';
    assert !IsDigit(s[0]) && !IsDigit(t[0]);
    assert !IsNumeral(t, 10) && !IsNumeral(s, 10);
  }

  /** A signed number is printed as a numeral that reads back as itself, except the minimum integer. */
  lemma SignedReadsBackExactly(v: Int32)
    ensures ParseInt(SignedText(v)) == Some(v) <==> v != INT_MIN
  {
    hide IntText, Text, Value;
    if v >= 0 {
      IntTextAgrees(v);
      TextEvaluates(v, 10);
    } else if v != INT_MIN {
      IntTextAgrees(-v);
      MinusReadsBack(-v, v);
    } else {
      MinimumGarbled();
    }
  }

  /** Also the signed digits, without the minus sign, fit the scratch array and hold no NUL. */
  lemma SignedFits(v: Int32)
    ensures var t := IntText(if v < 0 then Negate(v) else v); 0 < |t| <= 10 && '\0' !in t
  {
    var n: int := if v < 0 then -(v as int) else v;
    WordTextFits(n);
    SignedHasNoNul(v);
    if v == INT_MIN {
      NegativeTextMirrors(TWO31);
      MinimumHasNoNul();
    } else {
      IntTextAgrees(n);
      TextHasNoNul(n, 10);
    }
    hide Text, IntText;
  }

  // ---------- the format ----------

  /** How a conversion letter reads its argument. */
  function Piece(c: char, a: Arg): string
    requires c in "udclx" ==> a.Word?
    requires c == 's' ==> a.Str?
  {
    match c
    case 'u' => Text(a.w, 10)
    case 'd' => SignedText(AsSigned(a.w))
    case 'l' => SignedText(AsSigned(a.w))
    case 'x' => Text(a.w, 16)
    case 'c' => [(a.w % 0x100) as char]
    case 's' => a.s
    case _ => []
  }

  /**
    A call the source defines: no NUL inside, no lone '%' at the end, and an argument of the right
    kind for each conversion. Extra arguments are ignored.
   */
  predicate Matches(fmt: string, args: seq<Arg>) {
    if fmt == [] then true
    else if fmt[0] != '%' then fmt[0] != '\0' && Matches(fmt[1..], args)
    else
      |fmt| >= 2 && fmt[1] != '\0' &&
      if fmt[1] in "udclx" then args != [] && args[0].Word? && Matches(fmt[2..], args[1..])
      else if fmt[1] == 's' then args != [] && args[0].Str? && '\0' !in args[0].s && Matches(fmt[2..], args[1..])
      else Matches(fmt[2..], args)
  }

  function Render(fmt: string, args: seq<Arg>): string
    requires Matches(fmt, args)
  {
    if fmt == [] then []
    else if fmt[0] != '%' then [fmt[0]] + Render(fmt[1..], args)
    else if fmt[1] in "udclxs" then Piece(fmt[1], args[0]) + Render(fmt[2..], args[1..])
    else [fmt[1]] + Render(fmt[2..], args)
  }

  /** Characters the returned count leaves out: plain text and minus signs. */
  function Uncounted(fmt: string, args: seq<Arg>): nat
    requires Matches(fmt, args)
  {
    if fmt == [] then 0
    else if fmt[0] != '%' then 1 + Uncounted(fmt[1..], args)
    else if fmt[1] in "udclxs" then
      (if fmt[1] in "dl" && AsSigned(args[0].w) < 0 then 1 else 0) + Uncounted(fmt[2..], args[1..])
    else Uncounted(fmt[2..], args)
  }

  /** No '%c' is given a word whose low byte is zero. */
  predicate NulFree(fmt: string, args: seq<Arg>)
    requires Matches(fmt, args)
  {
    if fmt == [] then true
    else if fmt[0] != '%' then NulFree(fmt[1..], args)
    else if fmt[1] in "udclxs" then (fmt[1] == 'c' ==> args[0].w % 0x100 != 0) && NulFree(fmt[2..], args[1..])
    else NulFree(fmt[2..], args)
  }

  lemma {:induction false} TextHasNoNul(v: nat, base: nat)
    requires base == 10 || base == 16
    ensures '\0' !in Text(v, base)
  {
    if v / base != 0 {
      TextHasNoNul(v / base, base);
    }
  }

  lemma MinimumHasNoNul()
    ensures '\0' !in IntText(INT_MIN)
  {
    NegativeTextMirrors(TWO31);
    TextEvaluates(TWO31, 10);
    var t, s := IntText(INT_MIN), Text(TWO31, 10);
    hide Text, IntText, Value;
    forall i | 0 <= i < |t|
      ensures t[i] != '\0'
    {
      assert IsDigit(s[i]) && DigitValue(s[i]) < 10;
    }
  }

  lemma SignedHasNoNul(v: Int32)
    ensures '\0' !in SignedText(v)
  {
    if v == INT_MIN {
      MinimumHasNoNul();
    } else {
      var n := if v < 0 then -v else v;
      IntTextAgrees(n);
      TextHasNoNul(n, 10);
    }
    hide Text, IntText;
  }

  lemma PieceNul(c: char, a: Arg)
    requires c in "udclxs"
    requires if c == 's' then a.Str? && '\0' !in a.s else a.Word?
    ensures '\0' in Piece(c, a) <==> c == 'c' && a.w % 0x100 == 0
  {
    if c == 'u' {
      TextHasNoNul(a.w, 10);
    } else if c == 'x' {
      TextHasNoNul(a.w, 16);
    } else if c in "dl" {
      SignedHasNoNul(AsSigned(a.w));
    }
  }

  lemma {:induction false} RenderNul(fmt: string, args: seq<Arg>)
    requires Matches(fmt, args)
    ensures '\0' !in Render(fmt, args) <==> NulFree(fmt, args)
  {
    if fmt == [] {
    } else if fmt[0] != '%' {
      RenderNul(fmt[1..], args);
    } else if fmt[1] in "udclxs" {
      PieceNul(fmt[1], args[0]);
      RenderNul(fmt[2..], args[1..]);
      hide Piece;
    } else {
      RenderNul(fmt[2..], args);
    }
  }

  // ---------- C strings ----------

  /** The length of the C string at the start of some memory. */
  function FirstNul(mem: string): (n: nat)
    requires '\0' in mem
    ensures n < |mem| && mem[n] == '\0' && '\0' !in mem[..n]
  {
    if mem[0] == '\0' then 0 else
      var n := FirstNul(mem[1..]);
      assert mem[..n + 1] == [mem[0]] + mem[1..][..n];
      n + 1
  }

  lemma FirstNulUnique(mem: string, n: nat)
    requires n < |mem| && mem[n] == '\0' && '\0' !in mem[..n]
    ensures '\0' in mem && FirstNul(mem) == n
  {
    var m := FirstNul(mem);
    assert forall k :: 0 <= k < n ==> mem[k] == mem[..n][k];
    assert forall k :: 0 <= k < m ==> mem[k] == mem[..m][k];
  }

  /** The buffer holds `done` and zeros after it. */
  predicate Filled(buf: string, done: string) {
    && |buf| == BUF_SIZE && |done| < BUF_SIZE
    && buf[..|done|] == done
    && forall k :: |done| <= k < BUF_SIZE ==> buf[k] == '\0'
  }

  /** The console, which stops at the first NUL, prints the whole render exactly when no '%c' printed a NUL. */
  lemma PrintedExactly(fmt: string, args: seq<Arg>, buf: string)
    requires Matches(fmt, args) && Filled(buf, Render(fmt, args))
    ensures buf[|Render(fmt, args)|] == '\0'
    ensures buf[..FirstNul(buf)] == Render(fmt, args) <==> NulFree(fmt, args)
  {
    var r := Render(fmt, args);
    RenderNul(fmt, args);
    if '\0' !in r {
      FirstNulUnique(buf, |r|);
    } else {
      assert '\0' !in buf[..FirstNul(buf)];
    }
  }
}
