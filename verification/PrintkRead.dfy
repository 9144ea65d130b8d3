/**
  An independent reading of formatted output: a reader walks format and text side by side, and says what each
  conversion must show.  What the kernel renders is the one text the reader accepts.
 */
module PrintkRead {
  import opened Common
  import opened PrintkModel

  /** A numeral without a needless leading zero, and its number. */
  predicate Reads(t: string, base: nat, v: nat) {
    IsNumeral(t, base) && Value(t, base) == v && (t[0] == '0' ==> |t| == 1)
  }

  /** What the minimum integer shows as: a minus sign, then each digit as far below '0' as it should be above. */
  const MINIMUM: string := "-./,),(-*,("

  /** The text `t` is what conversion `c` of this argument has to show. */
  predicate Shows(c: char, a: Arg, t: string)
    requires c in "udclx" ==> a.Word?
    requires c == 's' ==> a.Str?
  {
    if c == 'u' then Reads(t, 10, a.w)
    else if c == 'x' then Reads(t, 16, a.w)
    else if c == 'd' || c == 'l' then
      if a.w < 0x8000_0000 then Reads(t, 10, a.w)
      else if a.w == 0x8000_0000 then t == MINIMUM
      else t != [] && t[0] == '-' && Reads(t[1..], 10, 0x1_0000_0000 - a.w)
    else if c == 'c' then |t| == 1 && t[0] as int == a.w % 0x100
    else c == 's' && t == a.s
  }

  /**
    The reader: plain characters stand for themselves, a conversion for a stretch of text that shows its argument, any
    other character behind a '%' for itself.
   */
  ghost predicate Accepts(fmt: string, args: seq<Arg>, out: string)
    requires Matches(fmt, args)
  {
    if fmt == [] then out == []
    else if fmt[0] != '%' then out != [] && out[0] == fmt[0] && Accepts(fmt[1..], args, out[1..])
    else if fmt[1] in "udclxs" then
      exists n :: 0 <= n <= |out| && Shows(fmt[1], args[0], out[..n]) && Accepts(fmt[2..], args[1..], out[n..])
    else out != [] && out[0] == fmt[1] && Accepts(fmt[2..], args, out[1..])
  }

  // ---------- what is rendered is accepted ----------

  /** One more digit of a negative number. */
  lemma NextDigit(v: int, q: int, d: int, t: string, u: string)
    requires q > 0 && 0 <= d < 10 && v == -(10 * q + d) && IntText(-q) == t && u == t + [(0x30 - d) as char]
    ensures IntText(v) == u
  {
    assert Quot(v) == -q && Rem(v) == -d;
  }

  lemma MinimumDigits()
    ensures IntText(-21474) == "./,),"
  {
    assert IntText(-2) == ".";
    hide IntText;
    NextDigit(-21, 2, 1, ".", "./");
    NextDigit(-214, 21, 4, "./", "./,");
    NextDigit(-2147, 214, 7, "./,", "./,)");
    NextDigit(-21474, 2147, 4, "./,)", "./,),");
  }

  lemma MinimumText()
    ensures SignedText(INT_MIN) == MINIMUM
  {
    MinimumDigits();
    hide IntText;
    NextDigit(-214748, 21474, 8, "./,),", "./,),(");
    NextDigit(-2147483, 214748, 3, "./,),(", "./,),(-");
    NextDigit(-21474836, 2147483, 6, "./,),(-", "./,),(-*");
    NextDigit(-214748364, 21474836, 4, "./,),(-*", "./,),(-*,");
    NextDigit(-2147483648, 214748364, 8, "./,),(-*,", "./,),(-*,(");
    assert "-" + "./,),(-*,(" == MINIMUM;
  }

  lemma SignedIs(w: Word)
    ensures SignedText(AsSigned(w)) == if w < 0x8000_0000 then Text(w, 10)
                                       else if w == 0x8000_0000 then MINIMUM
                                       else "-" + Text(0x1_0000_0000 - w, 10)
  {
    hide IntText, Text;
    if w < 0x8000_0000 {
      IntTextAgrees(w);
    } else if w == 0x8000_0000 {
      MinimumText();
    } else {
      IntTextAgrees(0x1_0000_0000 - w);
    }
  }

  lemma SignedShows(c: char, a: Arg)
    requires c in "dl" && a.Word?
    ensures Shows(c, a, SignedText(AsSigned(a.w)))
  {
    SignedIs(a.w);
    hide SignedText, Text, Reads;
    if a.w < 0x8000_0000 {
      TextReads(a.w, 10);
    } else if a.w > 0x8000_0000 {
      var n := 0x1_0000_0000 - a.w;
      TextReads(n, 10);
      assert ("-" + Text(n, 10))[1..] == Text(n, 10);
    }
  }

  lemma PieceShows(c: char, a: Arg)
    requires c in "udclxs" && if c == 's' then a.Str? else a.Word?
    ensures Shows(c, a, Piece(c, a))
  {
    hide Text, SignedText, Reads;
    if c == 'u' { TextReads(a.w, 10); }
    if c == 'x' { TextReads(a.w, 16); }
    if c in "dl" { SignedShows(c, a); }
  }

  lemma TextReads(v: nat, base: nat)
    requires base == 10 || base == 16
    ensures Reads(Text(v, base), base, v)
  {
    TextEvaluates(v, base);
    hide Text, Value;
  }

  lemma {:induction false} RenderAccepted(fmt: string, args: seq<Arg>)
    requires Matches(fmt, args)
    ensures Accepts(fmt, args, Render(fmt, args))
  {
    var out := Render(fmt, args);
    hide Piece, Shows;
    if fmt == [] {
    } else if fmt[0] != '%' {
      RenderAccepted(fmt[1..], args);
      assert out[1..] == Render(fmt[1..], args);
    } else if fmt[1] in "udclxs" {
      var t := Piece(fmt[1], args[0]);
      PieceShows(fmt[1], args[0]);
      RenderAccepted(fmt[2..], args[1..]);
      assert out[..|t|] == t && out[|t|..] == Render(fmt[2..], args[1..]);
    } else {
      RenderAccepted(fmt[2..], args);
      assert out[1..] == Render(fmt[2..], args);
    }
  }

  // ---------- and nothing else is ----------

  lemma DigitBack(c: char)
    requires IsDigit(c)
    ensures DigitChar(DigitValue(c)) == c
  {
  }

  /** A numeral is determined by its number. */
  lemma {:induction false} OneNumeral(t: string, base: nat, v: nat)
    requires (base == 10 || base == 16) && Reads(t, base, v)
    ensures t == Text(v, base)
    decreases |t|
  {
    var n := |t| - 1;
    var s, c := t[..n], t[n];
    DigitBack(c);
    assert t == s + [c] && IsDigit(c) && DigitValue(c) < base;
    if n == 0 {
      assert v == DigitValue(c);
    } else {
      assert IsNumeral(s, base) by { assert forall i :: 0 <= i < n ==> s[i] == t[i]; }
      var q := Value(s, base);
      assert v == q * base + DigitValue(c);
      OneNumeral(s, base, q);
      TextEvaluates(q, base);
      NotZero(s, base);
      QuotientOf(v, base, q, DigitValue(c));
    }
  }

  lemma QuotientOf(v: nat, base: nat, q: nat, d: nat)
    requires (base == 10 || base == 16) && v == q * base + d && d < base
    ensures v / base == q && v % base == d
  {
    if base == 10 { assert v == 10 * q + d; } else { assert v == 16 * q + d; }
  }

  /** A numeral that does not start with a zero is not zero. */
  lemma {:induction false} NotZero(t: string, base: nat)
    requires IsNumeral(t, base) && t[0] != '0' && base >= 10
    ensures Value(t, base) > 0
    decreases |t|
  {
    var n := |t| - 1;
    var s, q := t[..n], Value(t[..n], base);
    assert Value(t, base) == q * base + DigitValue(t[n]);
    if n > 0 {
      assert IsNumeral(s, base) && s[0] == t[0];
      NotZero(s, base);
      hide Value, IsNumeral;
      Grows(q, base);
    }
  }

  lemma Grows(q: nat, base: nat)
    requires q > 0
    ensures q * base >= base
  {
  }

  lemma ShownIsPiece(c: char, a: Arg, t: string)
    requires c in "udclxs" && (if c == 's' then a.Str? else a.Word?) && Shows(c, a, t)
    ensures t == Piece(c, a)
  {
    hide Text, SignedText, Reads;
    if c == 'u' { OneNumeral(t, 10, a.w); }
    if c == 'x' { OneNumeral(t, 16, a.w); }
    if c in "dl" { SignedShownOnce(c, a, t); }
  }

  lemma SignedShownOnce(c: char, a: Arg, t: string)
    requires c in "dl" && a.Word? && Shows(c, a, t)
    ensures t == SignedText(AsSigned(a.w))
  {
    hide SignedText, Text, Reads;
    SignedIs(a.w);
    if a.w < 0x8000_0000 {
      OneNumeral(t, 10, a.w);
    } else if a.w > 0x8000_0000 {
      NegativeOnce(t, 0x1_0000_0000 - a.w);
    }
  }

  lemma NegativeOnce(t: string, n: nat)
    requires t != [] && t[0] == '-' && Reads(t[1..], 10, n)
    ensures t == "-" + Text(n, 10)
  {
    hide Text, Reads;
    OneNumeral(t[1..], 10, n);
    assert t == [t[0]] + t[1..];
  }

  lemma {:induction false} OnlyRender(fmt: string, args: seq<Arg>, out: string)
    requires Matches(fmt, args) && Accepts(fmt, args, out)
    ensures out == Render(fmt, args)
    decreases |fmt|
  {
    hide Piece, Shows;
    if fmt == [] {
    } else if fmt[0] != '%' {
      OnlyRender(fmt[1..], args, out[1..]);
      assert out == [out[0]] + out[1..];
    } else if fmt[1] in "udclxs" {
      var n :| 0 <= n <= |out| && Shows(fmt[1], args[0], out[..n]) && Accepts(fmt[2..], args[1..], out[n..]);
      ShownIsPiece(fmt[1], args[0], out[..n]);
      OnlyRender(fmt[2..], args[1..], out[n..]);
      assert out == out[..n] + out[n..];
    } else {
      OnlyRender(fmt[2..], args, out[1..]);
      assert out == [out[0]] + out[1..];
    }
  }

  /**
    For every defined format and its arguments: the kernel renders a text exactly when the reader accepts it.  So
    unsigned and hexadecimal numbers read back in their bases, signed ones as themselves but for the minimum, and
    strings and characters are what they are.
   */
  lemma RenderExactly(fmt: string, args: seq<Arg>, out: string)
    requires Matches(fmt, args)
    ensures Accepts(fmt, args, out) <==> out == Render(fmt, args)
  {
    RenderAccepted(fmt, args);
    if Accepts(fmt, args, out) { OnlyRender(fmt, args, out); }
  }

  // ---------- the count ----------

  /** How many arguments a format takes. */
  function Takes(fmt: string): nat {
    if fmt == [] then 0
    else if fmt[0] != '%' || |fmt| == 1 then Takes(fmt[1..])
    else (if fmt[1] in "udclxs" then 1 else 0) + Takes(fmt[2..])
  }

  /** A format and another behind it print one after the other, and their counts add up. */
  lemma {:induction false} Append(f: string, a: seq<Arg>, g: string, b: seq<Arg>)
    requires Matches(f, a) && Matches(g, b) && |a| == Takes(f)
    ensures Matches(f + g, a + b)
    ensures Render(f + g, a + b) == Render(f, a) + Render(g, b)
    ensures Uncounted(f + g, a + b) == Uncounted(f, a) + Uncounted(g, b)
    decreases |f|
  {
    if f == [] {
      assert f + g == g && a + b == b;
    } else if f[0] != '%' {
      assert (f + g)[0] == f[0] && (f + g)[1..] == f[1..] + g;
      hide Piece;
      Append(f[1..], a, g, b);
    } else {
      AppendBehind(f, a, g, b);
      if f[1] in "udclxs" { Append(f[2..], a[1..], g, b); } else { Append(f[2..], a, g, b); }
      hide Piece, Takes;
    }
  }

  lemma AppendBehind(f: string, a: seq<Arg>, g: string, b: seq<Arg>)
    requires Matches(f, a) && f != [] && f[0] == '%' && |a| == Takes(f)
    ensures (f + g)[0] == '%' && (f + g)[1] == f[1] && (f + g)[2..] == f[2..] + g
    ensures f[1] in "udclxs" ==>
              a != [] && (a + b)[0] == a[0] && (a + b)[1..] == a[1..] + b && |a| - 1 == Takes(f[2..])
    ensures f[1] !in "udclxs" ==> |a| == Takes(f[2..])
  {
  }

  /** What a single plain character, escaped character or conversion leaves out of the count. */
  lemma CountsOfOne(c: char, a: Arg)
    requires c != '\0'
    ensures c != '%' ==> Matches([c], []) && Uncounted([c], []) == 1
    ensures c !in "udclxs" ==> Matches(['%', c], []) && Uncounted(['%', c], []) == 0
    ensures c in "udclxs" && (if c == 's' then a.Str? && '\0' !in a.s else a.Word?) ==>
              && Matches(['%', c], [a])
              && Uncounted(['%', c], [a]) == if (c == 'd' || c == 'l') && a.w >= 0x8000_0000 then 1 else 0
  {
    assert ['%', c][2..] == [] && [c][1..] == [] && [a][1..] == [];
    if c in "udclxs" && (if c == 's' then a.Str? && '\0' !in a.s else a.Word?) {
      assert Matches([], []) && Matches(['%', c], [a]);
    }
  }
}
