/** The formatter of lib/minilibc/printf.c. */
module Printf {

  const TWO8: nat := 0x100
  const TWO31: nat := 0x8000_0000
  const TWO32: nat := 0x1_0000_0000
  const TWO63: nat := 0x8000_0000_0000_0000
  const TWO64: nat := 0x1_0000_0000_0000_0000

  /** A machine word. */
  type Word = n: nat | n < TWO64

  /** The variable arguments: the words a va_arg fetches, in order, and the text at a pointer. */
  datatype Args = Args(word: nat -> Word, text: Word -> string)

  // ---------------------------------------------------------------- numbers as text

  function DigitChar(d: nat, upper: bool): char
    requires d < 16
  {
    if upper then "0123456789ABCDEF"[d] else "0123456789abcdef"[d]
  }

  /** The digits of v, most significant first; none for zero. */
  function Digits(v: nat, base: nat, upper: bool): string
    requires base == 10 || base == 16
  {
    if v == 0 then "" else Digits(v / base, base, upper) + [DigitChar(v % base, upper)]
  }

  function UintText(v: nat, base: nat, upper: bool): string
    requires base == 10 || base == 16
  {
    if v == 0 then "0" else Digits(v, base, upper)
  }

  function IntText(v: int): string
  {
    if v < 0 then "-" + UintText(-v, 10, false) else UintText(v, 10, false)
  }

  // ---------------------------------------------------------------- and back

  function DigitValue(c: char): nat
  {
    if '0' <= c <= '9' then (c as int) - ('0' as int)
    else if 'a' <= c <= 'f' then (c as int) - ('a' as int) + 10
    else if 'A' <= c <= 'F' then (c as int) - ('A' as int) + 10
    else 0
  }

  function ReadUint(s: string, base: nat): nat
  {
    if s == "" then 0 else base * ReadUint(s[..|s| - 1], base) + DigitValue(s[|s| - 1])
  }

  function ReadInt(s: string): int
  {
    if s != "" && s[0] == '-' then -(ReadUint(s[1..], 10) as int) else ReadUint(s, 10)
  }

  lemma DigitBack(d: nat, upper: bool)
    requires d < 16
    ensures DigitValue(DigitChar(d, upper)) == d
    ensures DigitChar(d, upper) == '0' ==> d == 0
    ensures DigitChar(d, upper) != '-'
  {
  }

  lemma Parts(v: nat, base: nat)
    requires v > 0 && (base == 10 || base == 16)
    ensures v / base < v && v % base < base && v == base * (v / base) + v % base
  {
    if base == 10 { assert v / 10 < v; } else { assert v / 16 < v; }
  }

  lemma {:induction false} DigitsBack(v: nat, base: nat, upper: bool)
    requires base == 10 || base == 16
    ensures ReadUint(Digits(v, base, upper), base) == v
    decreases v
  {
    if v > 0 {
      var q, d := v / base, v % base;
      Parts(v, base);
      DigitsBack(q, base, upper);
      DigitBack(d, upper);
      ReadLast(Digits(q, base, upper), DigitChar(d, upper), base);
    }
  }

  lemma {:induction false} DigitsStart(v: nat, base: nat, upper: bool)
    requires (base == 10 || base == 16) && v > 0
    ensures var s := Digits(v, base, upper); s != "" && s[0] != '0' && s[0] != '-'
    decreases v
  {
    Parts(v, base);
    DigitBack(v % base, upper);
    if v / base > 0 { DigitsStart(v / base, base, upper); }
  }

  lemma ReadLast(s: string, c: char, base: nat)
    ensures ReadUint(s + [c], base) == base * ReadUint(s, base) + DigitValue(c)
  {
    assert (s + [c])[..|s + [c]| - 1] == s;
  }

  /** Reading the text of a number back gives the number, and the text has no leading zero. */
  lemma UintRoundTrip(v: nat, base: nat, upper: bool)
    requires base == 10 || base == 16
    ensures ReadUint(UintText(v, base, upper), base) == v
    ensures UintText(v, base, upper) != "" && (UintText(v, base, upper)[0] == '0' ==> v == 0)
  {
    DigitsBack(v, base, upper);
    if v == 0 { assert "0"[..0] == ""; } else { DigitsStart(v, base, upper); }
  }

  /** The same for signed numbers: a minus sign exactly for negative ones, and no leading zero. */
  lemma IntRoundTrip(v: int)
    ensures ReadInt(IntText(v)) == v
    ensures var t := IntText(v);
      if v < 0 then |t| > 1 && t[0] == '-' && t[1] != '0' else t != "" && t[0] != '-' && (t[0] == '0' ==> t == "0")
  {
    UintRoundTrip(if v < 0 then -v else v, 10, false);
    DigitsBack(if v < 0 then -v else v, 10, false);
    if v != 0 { DigitsStart(if v < 0 then -v else v, 10, false); }
    if v < 0 { assert IntText(v)[1..] == UintText(-v, 10, false); }
  }

  function Pow10(k: nat): (r: nat)
    ensures r > 0
  {
    if k == 0 then 1 else 10 * Pow10(k - 1)
  }

  lemma {:induction false} DigitsLength(v: nat, base: nat, upper: bool, k: nat)
    requires (base == 10 || base == 16) && v < Pow10(k)
    ensures |Digits(v, base, upper)| <= k
  {
    if v > 0 {
      assert v / base <= v / 10;
      DigitsLength(v / base, base, upper, k - 1);
    }
  }

  /** A machine word has at most 20 digits: the scratch buffer of 32 is never overrun. */
  lemma WordLength(v: Word, base: nat, upper: bool)
    requires base == 10 || base == 16
    ensures |Digits(v, base, upper)| <= 20
  {
    assert Pow10(4) == 10000;
    assert Pow10(8) == 1_0000_0000;
    assert Pow10(12) == 1_0000_0000_0000;
    assert Pow10(16) == 1_0000_0000_0000_0000;
    assert Pow10(20) == 1_0000_0000_0000_0000_0000;
    DigitsLength(v, base, upper, 20);
  }

  // ---------------------------------------------------------------- writing with truncation

  /** The buffer shows as much of the output as fits before the terminator, and is otherwise as
      it was. */
  ghost predicate Shows(buf: seq<char>, orig: seq<char>, size: nat, out: string, pos: nat, remaining: nat)
  {
    && |buf| == |orig| && size <= |buf|
    && pos == (if size == 0 then 0 else if |out| < size then |out| else size - 1)
    && remaining == size - pos
    && pos <= |out| && buf[..pos] == out[..pos] && buf[pos..] == orig[pos..]
  }

  method EmitChar(buf: array<char>, pos: nat, remaining: nat, c: char,
                  ghost orig: seq<char>, ghost size: nat, ghost out: string)
    returns (pos': nat, remaining': nat, done: int)
    requires Shows(buf[..], orig, size, out, pos, remaining)
    modifies buf
    ensures Shows(buf[..], orig, size, out + [c], pos', remaining')
    ensures done == if |out| + 1 < size then 1 else 0
  {
    pos', remaining', done := pos, remaining, 0;
    if remaining > 1 {
      ghost var before := buf[..];
      buf[pos] := c;
      pos', remaining', done := pos + 1, remaining - 1, 1;
      assert buf[..][..pos] == before[..pos];
      assert buf[..][pos'..] == before[pos..][1..] == orig[pos'..];
      assert buf[..][..pos'] == before[..pos] + [c];
    } else {
      assert (out + [c])[..pos] == out[..pos];
    }
  }

  lemma Grow(out: string, s: string, k: nat)
    requires k < |s|
    ensures out + s[..k] + [s[k]] == out + s[..k + 1]
  {
    assert s[..k + 1] == s[..k] + [s[k]];
  }

  method EmitString(buf: array<char>, pos: nat, remaining: nat, s: string,
                    ghost orig: seq<char>, ghost size: nat, ghost out: string)
    returns (pos': nat, remaining': nat, written: nat)
    requires Shows(buf[..], orig, size, out, pos, remaining)
    modifies buf
    ensures Shows(buf[..], orig, size, out + s, pos', remaining') && written == |s|
  {
    pos', remaining', written := pos, remaining, 0;
    assert out + s[..0] == out;
    while written < |s|
      invariant written <= |s| && Shows(buf[..], orig, size, out + s[..written], pos', remaining')
    {
      var done;
      pos', remaining', done := EmitChar(buf, pos', remaining', s[written], orig, size, out + s[..written]);
      Grow(out, s, written);
      written := written + 1;
    }
    assert s[..|s|] == s;
  }

  /** The digits of a positive word, least significant first, in a scratch buffer. */
  method BuildDigits(tmp: array<char>, v: Word, base: nat, upper: bool) returns (n: nat)
    requires tmp.Length == 32 && (base == 10 || base == 16)
    modifies tmp
    ensures n == |Digits(v, base, upper)| <= 20
    ensures forall j: nat :: j < n ==> tmp[j] == Digits(v, base, upper)[n - 1 - j]
  {
    WordLength(v, base, upper);
    ghost var all := Digits(v, base, upper);
    var val: nat := v;
    n := 0;
    assert all[..|all|] == all;
    while val > 0
      invariant n + |Digits(val, base, upper)| == |all| && Digits(val, base, upper) == all[..|all| - n]
      invariant forall j: nat :: j < n ==> tmp[j] == all[|all| - 1 - j]
    {
      ghost var rest := Digits(val, base, upper);
      assert rest == Digits(val / base, base, upper) + [DigitChar(val % base, upper)];
      assert all[..|all| - n - 1] == rest[..|rest| - 1] && all[|all| - n - 1] == rest[|rest| - 1];
      tmp[n] := DigitChar(val % base, upper);
      val := val / base;
      n := n + 1;
    }
  }

  method EmitUint(buf: array<char>, pos: nat, remaining: nat, v: Word, base: nat, upper: bool,
                  ghost orig: seq<char>, ghost size: nat, ghost out: string)
    returns (pos': nat, remaining': nat, written: nat)
    requires Shows(buf[..], orig, size, out, pos, remaining) && (base == 10 || base == 16)
    modifies buf
    ensures Shows(buf[..], orig, size, out + UintText(v, base, upper), pos', remaining')
    ensures written == |UintText(v, base, upper)|
  {
    if v == 0 {
      var done;
      pos', remaining', done := EmitChar(buf, pos, remaining, '0', orig, size, out);
      return pos', remaining', 1;
    }
    var tmp := new char[32];
    var i := BuildDigits(tmp, v, base, upper);
    ghost var all := Digits(v, base, upper);
    pos', remaining', written := pos, remaining, i;
    assert out + all[..0] == out;
    while i > 0
      invariant 0 <= i <= written == |all| && Shows(buf[..], orig, size, out + all[..written - i], pos', remaining')
      invariant forall j: nat :: j < written ==> tmp[j] == all[written - 1 - j]
    {
      var done;
      i := i - 1;
      pos', remaining', done := EmitChar(buf, pos', remaining', tmp[i], orig, size, out + all[..written - i - 1]);
      Grow(out, all, written - i - 1);
    }
    assert all[..written] == all;
  }

  lemma MinusText(out: string, v: int)
    requires v < 0
    ensures out + "-" + UintText(-v, 10, false) == out + IntText(v) && |IntText(v)| == 1 + |UintText(-v, 10, false)|
  {
    assert IntText(v) == "-" + UintText(-v, 10, false);
  }

  /** The two's complement reading of a long. */
  method EmitInt(buf: array<char>, pos: nat, remaining: nat, v: int,
                 ghost orig: seq<char>, ghost size: nat, ghost out: string)
    returns (pos': nat, remaining': nat, written: nat)
    requires Shows(buf[..], orig, size, out, pos, remaining) && -0x8000_0000_0000_0000 <= v < 0x8000_0000_0000_0000
    modifies buf
    ensures Shows(buf[..], orig, size, out + IntText(v), pos', remaining') && written == |IntText(v)|
  {
    if v >= 0 {
      pos', remaining', written := EmitUint(buf, pos, remaining, v, 10, false, orig, size, out);
      return;
    }
    var done, n;
    pos', remaining', done := EmitChar(buf, pos, remaining, '-', orig, size, out);
    var u := Negate(v);
    pos', remaining', n := EmitUint(buf, pos', remaining', u, 10, false, orig, size, out + "-");
    MinusText(out, v);
    written := 1 + n;
  }

  /** The conversion of a negative long to an unsigned word, negated as such. */
  function Negate(v: int): (u: Word)
    requires -0x8000_0000_0000_0000 <= v < 0
    ensures u == -v
  {
    (TWO64 - (v + TWO64)) % TWO64
  }

  // ---------------------------------------------------------------- the format language

  /** A va_arg of type int, unsigned int, char, long. */
  function AsInt(w: Word): int { if w % TWO32 < TWO31 then w % TWO32 else w % TWO32 - TWO32 }
  function AsUint(w: Word): Word { w % TWO32 }
  function AsChar(w: Word): char { (w % TWO8) as char }
  function AsLong(w: Word): int { if w < TWO63 then w else w - TWO64 }

  function StringText(w: Word, args: Args): string
  {
    if w == 0 then "(null)" else args.text(w)
  }

  /** What one piece of the format stands for: its text, where the format goes on, and with
      which argument. */
  datatype Piece = Piece(text: string, p: nat, a: nat)

  function LongPiece(f: string, p: nat, a: nat, args: Args): (piece: Piece)
    requires p <= |f|
    ensures p <= piece.p <= |f|
  {
    if p == |f| then Piece("%l", p, a)
    else if f[p] == 'd' || f[p] == 'i' then Piece(IntText(AsLong(args.word(a))), p + 1, a + 1)
    else if f[p] == 'u' then Piece(UintText(args.word(a), 10, false), p + 1, a + 1)
    else if f[p] == 'x' then Piece(UintText(args.word(a), 16, false), p + 1, a + 1)
    else if f[p] == 'X' then Piece(UintText(args.word(a), 16, true), p + 1, a + 1)
    else Piece("%l" + [f[p]], p + 1, a)
  }

  function Conversion(f: string, p: nat, a: nat, args: Args): (piece: Piece)
    requires p <= |f|
    ensures p <= piece.p <= |f|
  {
    if p == |f| then Piece("", p, a)
    else if f[p] == '%' then Piece("%", p + 1, a)
    else if f[p] == 'c' then Piece([AsChar(args.word(a))], p + 1, a + 1)
    else if f[p] == 's' then Piece(StringText(args.word(a), args), p + 1, a + 1)
    else if f[p] == 'd' || f[p] == 'i' then Piece(IntText(AsInt(args.word(a))), p + 1, a + 1)
    else if f[p] == 'u' then Piece(UintText(AsUint(args.word(a)), 10, false), p + 1, a + 1)
    else if f[p] == 'x' then Piece(UintText(AsUint(args.word(a)), 16, false), p + 1, a + 1)
    else if f[p] == 'X' then Piece(UintText(AsUint(args.word(a)), 16, true), p + 1, a + 1)
    else if f[p] == 'p' then Piece("0x" + UintText(args.word(a), 16, false), p + 1, a + 1)
    else if f[p] == 'l' then LongPiece(f, p + 1, a, args)
    else Piece("%" + [f[p]], p + 1, a)
  }

  function Next(f: string, p: nat, a: nat, args: Args): (piece: Piece)
    requires p < |f|
    ensures p < piece.p <= |f|
  {
    if f[p] == '%' then Conversion(f, p + 1, a, args) else Piece([f[p]], p + 1, a)
  }

  /** The whole output for a format, from position p and argument a on. */
  function Render(f: string, p: nat, a: nat, args: Args): string
    requires p <= |f|
    decreases |f| - p
  {
    if p == |f| then ""
    else var piece := Next(f, p, a, args); piece.text + Render(f, piece.p, piece.a, args)
  }

  // ---------------------------------------------------------------- vsnprintf

  method ConvertLong(buf: array<char>, pos: nat, remaining: nat, f: string, p: nat, a: nat, args: Args,
                     ghost orig: seq<char>, ghost size: nat, ghost out: string)
    returns (pos': nat, remaining': nat, written: nat, p': nat, a': nat)
    requires Shows(buf[..], orig, size, out, pos, remaining) && p <= |f|
    modifies buf
    ensures Shows(buf[..], orig, size, out + LongPiece(f, p, a, args).text, pos', remaining')
    ensures p' == LongPiece(f, p, a, args).p && a' == LongPiece(f, p, a, args).a
    ensures written == |LongPiece(f, p, a, args).text|
  {
    p', a' := if p < |f| then p + 1 else p, a + 1;
    if p < |f| && (f[p] == 'd' || f[p] == 'i') {
      pos', remaining', written := EmitInt(buf, pos, remaining, AsLong(args.word(a)), orig, size, out);
    } else if p < |f| && f[p] == 'u' {
      pos', remaining', written := EmitUint(buf, pos, remaining, args.word(a), 10, false, orig, size, out);
    } else if p < |f| && f[p] == 'x' {
      pos', remaining', written := EmitUint(buf, pos, remaining, args.word(a), 16, false, orig, size, out);
    } else if p < |f| && f[p] == 'X' {
      pos', remaining', written := EmitUint(buf, pos, remaining, args.word(a), 16, true, orig, size, out);
    } else {
      a' := a;
      pos', remaining', written := EmitString(buf, pos, remaining, "%l" + f[p..p'], orig, size, out);
    }
  }

  method Convert(buf: array<char>, pos: nat, remaining: nat, f: string, p: nat, a: nat, args: Args,
                 ghost orig: seq<char>, ghost size: nat, ghost out: string)
    returns (pos': nat, remaining': nat, written: nat, p': nat, a': nat)
    requires Shows(buf[..], orig, size, out, pos, remaining) && p <= |f|
    modifies buf
    ensures Shows(buf[..], orig, size, out + Conversion(f, p, a, args).text, pos', remaining')
    ensures p' == Conversion(f, p, a, args).p && a' == Conversion(f, p, a, args).a
    ensures written == |Conversion(f, p, a, args).text|
  {
    if p == |f| {
      assert out + "" == out;
      return pos, remaining, 0, p, a;
    }
    p', a' := p + 1, a + 1;
    if f[p] == '%' {
      a' := a;
      pos', remaining', written := EmitString(buf, pos, remaining, "%", orig, size, out);
    } else if f[p] == 'c' {
      pos', remaining', written := EmitString(buf, pos, remaining, [AsChar(args.word(a))], orig, size, out);
    } else if f[p] == 's' {
      pos', remaining', written := EmitString(buf, pos, remaining, StringText(args.word(a), args), orig, size, out);
    } else if f[p] == 'd' || f[p] == 'i' {
      pos', remaining', written := EmitInt(buf, pos, remaining, AsInt(args.word(a)), orig, size, out);
    } else if f[p] == 'u' {
      pos', remaining', written := EmitUint(buf, pos, remaining, AsUint(args.word(a)), 10, false, orig, size, out);
    } else if f[p] == 'x' {
      pos', remaining', written := EmitUint(buf, pos, remaining, AsUint(args.word(a)), 16, false, orig, size, out);
    } else if f[p] == 'X' {
      pos', remaining', written := EmitUint(buf, pos, remaining, AsUint(args.word(a)), 16, true, orig, size, out);
    } else if f[p] == 'p' {
      pos', remaining', written := EmitPointer(buf, pos, remaining, args.word(a), orig, size, out);
    } else if f[p] == 'l' {
      pos', remaining', written, p', a' := ConvertLong(buf, pos, remaining, f, p + 1, a, args, orig, size, out);
    } else {
      a' := a;
      pos', remaining', written := EmitString(buf, pos, remaining, "%" + [f[p]], orig, size, out);
    }
  }

  method EmitPointer(buf: array<char>, pos: nat, remaining: nat, v: Word,
                     ghost orig: seq<char>, ghost size: nat, ghost out: string)
    returns (pos': nat, remaining': nat, written: nat)
    requires Shows(buf[..], orig, size, out, pos, remaining)
    modifies buf
    ensures Shows(buf[..], orig, size, out + ("0x" + UintText(v, 16, false)), pos', remaining')
    ensures written == |"0x" + UintText(v, 16, false)|
  {
    pos', remaining', written := EmitString(buf, pos, remaining, "0x", orig, size, out);
    var n;
    pos', remaining', n := EmitUint(buf, pos', remaining', v, 16, false, orig, size, out + "0x");
    assert out + "0x" + UintText(v, 16, false) == out + ("0x" + UintText(v, 16, false));
    written := written + n;
  }

  /** The conversion of a count to int. */
  function ToInt(n: nat): int
  {
    if n % TWO32 < TWO31 then n % TWO32 else n % TWO32 - TWO32
  }

  /** The buffer after a call: the first characters of the whole output, as many as fit before
      the terminator, then the terminator, then what was there; untouched if the size is 0. */
  ghost predicate Formatted(buf: seq<char>, orig: seq<char>, size: nat, whole: string)
  {
    && |buf| == |orig|
    && if size == 0 then buf == orig
       else var n := if |whole| < size then |whole| else size - 1;
         n < |buf| && buf[..n] == whole[..n] && buf[n] == '\0' && buf[n + 1..] == orig[n + 1..]
  }

  /** What is out already and what remains make up the whole output. */
  ghost predicate Remains(f: string, p: nat, a: nat, args: Args, out: string)
  {
    p <= |f| && out + Render(f, p, a, args) == Render(f, 0, 0, args)
  }

  lemma RemainsNext(f: string, p: nat, a: nat, args: Args, out: string, piece: Piece)
    requires p < |f| && piece == Next(f, p, a, args) && Remains(f, p, a, args, out)
    ensures Remains(f, piece.p, piece.a, args, out + piece.text)
  {
    var rest := Render(f, piece.p, piece.a, args);
    assert out + (piece.text + rest) == out + piece.text + rest;
  }

  /** For every format, argument list and size, the buffer is a truncation of the one whole
      output, and the length returned is that of the whole output, whatever the size. */
  method Vsnprintf(buf: array<char>, size: nat, f: string, args: Args) returns (r: int)
    requires size <= buf.Length
    modifies buf
    ensures Formatted(buf[..], old(buf[..]), size, Render(f, 0, 0, args))
    ensures r == ToInt(|Render(f, 0, 0, args)|)
  {
    ghost var orig, out := buf[..], "";
    assert "" + Render(f, 0, 0, args) == Render(f, 0, 0, args);
    var pos: nat, remaining: nat, written: nat := 0, size, 0;
    var p: nat, a: nat := 0, 0;
    while p < |f|
      invariant p <= |f| && Shows(buf[..], orig, size, out, pos, remaining) && written == |out|
      invariant Remains(f, p, a, args, out)
      decreases |f| - p
    {
      ghost var piece := Next(f, p, a, args);
      RemainsNext(f, p, a, args, out, piece);
      var n;
      pos, remaining, n, p, a := FormatNext(buf, pos, remaining, f, p, a, args, orig, size, out);
      out := out + piece.text;
      written := written + n;
    }
    assert out == Render(f, 0, 0, args);
    if size > 0 {
      Terminate(buf, pos, remaining, orig, size, out);
    }
    r := ToInt(written);
  }

  method FormatNext(buf: array<char>, pos: nat, remaining: nat, f: string, p: nat, a: nat, args: Args,
                    ghost orig: seq<char>, ghost size: nat, ghost out: string)
    returns (pos': nat, remaining': nat, written: nat, p': nat, a': nat)
    requires Shows(buf[..], orig, size, out, pos, remaining) && p < |f|
    modifies buf
    ensures Shows(buf[..], orig, size, out + Next(f, p, a, args).text, pos', remaining')
    ensures p' == Next(f, p, a, args).p && a' == Next(f, p, a, args).a
    ensures written == |Next(f, p, a, args).text|
  {
    if f[p] != '%' {
      var done;
      pos', remaining', done := EmitChar(buf, pos, remaining, f[p], orig, size, out);
      written, p', a' := 1, p + 1, a;
    } else {
      pos', remaining', written, p', a' := Convert(buf, pos, remaining, f, p + 1, a, args, orig, size, out);
    }
  }

  method Terminate(buf: array<char>, pos: nat, ghost remaining: nat,
                   ghost orig: seq<char>, ghost size: nat, ghost out: string)
    requires Shows(buf[..], orig, size, out, pos, remaining) && size > 0
    modifies buf
    ensures Formatted(buf[..], orig, size, out)
  {
    ghost var before := buf[..];
    buf[pos] := '\0';
    assert buf[..][..pos] == before[..pos];
    assert buf[..][pos + 1..] == before[pos..][1..] == orig[pos..][1..] == orig[pos + 1..];
  }

  /** What snprintf promises: called with size 0 it only counts, and called again with a buffer
      one larger than the count it delivers the whole output. */
  method Measured(buf: array<char>, f: string, args: Args) returns (n: int, r: int)
    requires |Render(f, 0, 0, args)| < buf.Length && |Render(f, 0, 0, args)| < TWO31
    modifies buf
    ensures n == r == |Render(f, 0, 0, args)|
    ensures buf[..n] == Render(f, 0, 0, args) && buf[n] == '\0'
  {
    n := Vsnprintf(buf, 0, f, args);
    r := Vsnprintf(buf, n + 1, f, args);
  }
}
