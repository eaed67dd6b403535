/** What a format means, read back from the text that it gives: laws of Render that do not follow the
    cases of its definition. */
module FormatLaws {
  import opened Printf

  // ---------------------------------------------------------------- how a format is cut into pieces


  /** The format does not stop inside a specifier. */
  predicate Closed(f: string)
    decreases |f|
  {
    if f == "" then true
    else if f[0] != '%' then Closed(f[1..])
    else if |f| == 1 then false
    else if f[1] != 'l' then Closed(f[2..])
    else |f| > 2 && Closed(f[3..])
  }

  /** How many arguments a format consumes: one for each known specifier but %%. */
  function Uses(f: string): nat
    decreases |f|
  {
    if f == "" then 0
    else if f[0] != '%' then Uses(f[1..])
    else if |f| == 1 then 0
    else if f[1] != 'l' then (if f[1] in {'c', 's', 'd', 'i', 'u', 'x', 'X', 'p'} then 1 else 0) + Uses(f[2..])
    else if |f| == 2 then 0
    else (if f[2] in {'d', 'i', 'u', 'x', 'X'} then 1 else 0) + Uses(f[3..])
  }

  /** The text of a format does not depend on what stands before it. */
  lemma {:induction false} RenderFrom(f: string, g: string, p: nat, a: nat, args: Args)
    requires p <= |g|
    ensures Render(f + g, |f| + p, a, args) == Render(g, p, a, args)
    decreases |g| - p
  {
    if p < |g| {
      NextFrom(f, g, p, a, args);
      var piece := Next(g, p, a, args);
      RenderFrom(f, g, piece.p, piece.a, args);
    }
  }

  lemma NextFrom(f: string, g: string, p: nat, a: nat, args: Args)
    requires p < |g|
    ensures Next(f + g, |f| + p, a, args) == Next(g, p, a, args).(p := |f| + Next(g, p, a, args).p)
  {
    var h := f + g;
    assert forall j: nat :: j < |g| ==> h[|f| + j] == g[j];
  }

  /** How long the first piece of a closed format is. */
  function FirstLength(f: string): (n: nat)
    requires Closed(f) && f != ""
    ensures 0 < n <= |f| && Closed(f[n..])
  {
    if f[0] != '%' then 1 else if f[1] != 'l' then 2 else 3
  }

  /** The first piece of a closed format is the same whatever follows it. */
  lemma FirstPiece(f: string, g: string, a: nat, args: Args)
    requires Closed(f) && f != ""
    ensures var n := FirstLength(f);
      && Next(f + g, 0, a, args) == Next(f, 0, a, args) && Next(f, 0, a, args).p == n
      && Next(f, 0, a, args).a + Uses(f[n..]) == a + Uses(f)
  {
    SameStart(f, f + g, FirstLength(f), a, args);
    FirstUses(f, a, args);
  }

  /** A piece depends on its own characters only. */
  lemma SameStart(f: string, h: string, n: nat, a: nat, args: Args)
    requires 0 < n <= |f| && n <= |h| && h[0] == f[0] && (n > 1 ==> h[1] == f[1]) && (n > 2 ==> h[2] == f[2])
    requires n == if f[0] != '%' then 1 else if n == 1 || f[1] != 'l' then 2 else 3
    ensures Next(h, 0, a, args) == Next(f, 0, a, args) && Next(f, 0, a, args).p == n
  {
  }

  lemma FirstUses(f: string, a: nat, args: Args)
    requires Closed(f) && f != ""
    ensures Next(f, 0, a, args).a + Uses(f[FirstLength(f)..]) == a + Uses(f)
  {
  }

  lemma RenderRest(f: string, n: nat, a: nat, args: Args)
    requires n <= |f|
    ensures Render(f, n, a, args) == Render(f[n..], 0, a, args)
  {
    assert f == f[..n] + f[n..];
    RenderFrom(f[..n], f[n..], 0, a, args);
  }

  /** A closed format and what follows it are written one after the other; what follows goes on with
      the arguments that are left. */
  lemma {:induction false} RenderSplit(f: string, g: string, a: nat, args: Args)
    requires Closed(f)
    ensures Render(f + g, 0, a, args) == Render(f, 0, a, args) + Render(g, 0, a + Uses(f), args)
    decreases |f|
  {
    if f == "" {
      assert f + g == g;
    } else {
      var n, piece := FirstLength(f), Next(f, 0, a, args);
      var rest := f[n..];
      RenderSplit(rest, g, piece.a, args);
      RenderFirst(f, "", a, args, rest, piece);
      RenderFirst(f, g, a, args, rest, piece);
      assert f + "" == f && rest + "" == rest;
      FirstPiece(f, g, a, args);
      Joined(piece.text, Render(rest, 0, piece.a, args), Render(g, 0, a + Uses(f), args));
    }
  }

  /** The first piece, and then the rest. */
  lemma RenderFirst(f: string, g: string, a: nat, args: Args, rest: string, piece: Piece)
    requires Closed(f) && f != "" && rest == f[FirstLength(f)..] && piece == Next(f, 0, a, args)
    ensures Render(f + g, 0, a, args) == piece.text + Render(rest + g, 0, piece.a, args)
  {
    FirstPiece(f, g, a, args);
    RenderOpen(f + g, a, args, piece);
    assert (f + g)[FirstLength(f)..] == rest + g;
  }

  lemma RenderOpen(h: string, a: nat, args: Args, piece: Piece)
    requires h != "" && piece == Next(h, 0, a, args)
    ensures Render(h, 0, a, args) == piece.text + Render(h[piece.p..], 0, piece.a, args)
  {
    RenderRest(h, piece.p, piece.a, args);
  }

  lemma Joined(x: string, y: string, z: string)
    ensures x + (y + z) == (x + y) + z
  {
  }

  // ---------------------------------------------------------------- texts of numbers

  predicate IsDigit(c: char, base: nat, upper: bool)
  {
    '0' <= c <= '9' || (base == 16 && if upper then 'A' <= c <= 'F' else 'a' <= c <= 'f')
  }

  /** Digits of the base, in the letter case asked for, without a leading zero. */
  predicate IsNumber(t: string, base: nat, upper: bool)
  {
    && t != "" && (t[0] == '0' ==> t == "0")
    && forall i: nat :: i < |t| ==> IsDigit(t[i], base, upper)
  }

  lemma {:induction false} DigitsAreDigits(v: nat, base: nat, upper: bool, i: nat)
    requires (base == 10 || base == 16) && i < |Digits(v, base, upper)|
    ensures IsDigit(Digits(v, base, upper)[i], base, upper)
  {
    var s := Digits(v, base, upper);
    if i < |s| - 1 { DigitsAreDigits(v / base, base, upper, i); }
  }

  /** The text is that of the number v. */
  predicate Prints(t: string, base: nat, upper: bool, v: nat)
  {
    IsNumber(t, base, upper) && ReadUint(t, base) == v
  }

  lemma NumberText(v: nat, base: nat, upper: bool)
    requires base == 10 || base == 16
    ensures Prints(UintText(v, base, upper), base, upper, v)
  {
    UintRoundTrip(v, base, upper);
    if v > 0 {
      DigitsBack(v, base, upper);
      forall i: nat | i < |Digits(v, base, upper)| ensures IsDigit(Digits(v, base, upper)[i], base, upper) {
        DigitsAreDigits(v, base, upper, i);
      }
    }
  }

  lemma DigitUnique(c: char, d: char, base: nat, upper: bool)
    requires (base == 10 || base == 16) && IsDigit(c, base, upper) && IsDigit(d, base, upper)
    ensures DigitValue(c) < base && (DigitValue(c) == DigitValue(d) ==> c == d)
  {
  }

  lemma {:induction false} ReadPositive(t: string, base: nat, upper: bool)
    requires (base == 10 || base == 16) && t != "" && t[0] != '0'
    requires forall i: nat :: i < |t| ==> IsDigit(t[i], base, upper)
    ensures ReadUint(t, base) > 0
  {
    if |t| == 1 {
      assert t[..0] == "";
      DigitUnique(t[0], '0', base, upper);
    } else {
      ReadPositive(t[..|t| - 1], base, upper);
    }
  }

  /** The value and the form leave only one text. */
  lemma {:induction false} NumberUnique(s: string, t: string, base: nat, upper: bool, v: nat)
    requires (base == 10 || base == 16) && Prints(s, base, upper, v) && Prints(t, base, upper, v)
    ensures s == t
    decreases |s|
  {
    var s', t' := s[..|s| - 1], t[..|t| - 1];
    var c, d := s[|s| - 1], t[|t| - 1];
    DigitUnique(c, d, base, upper);
    DigitUnique(d, c, base, upper);
    SameQuotient(base, ReadUint(s', base), DigitValue(c), ReadUint(t', base), DigitValue(d));
    if |s| > 1 { ReadPositive(s', base, upper); }
    if |t| > 1 { ReadPositive(t', base, upper); }
    if |s| > 1 && |t| > 1 { NumberUnique(s', t', base, upper, ReadUint(s', base)); }
    assert s == s' + [c] && t == t' + [d];
  }

  lemma SameQuotient(base: nat, x: nat, c: nat, y: nat, d: nat)
    requires (base == 10 || base == 16) && c < base && d < base && base * x + c == base * y + d
    ensures x == y && c == d
  {
  }

  // ---------------------------------------------------------------- the specifiers

  /** The text of one specifier, by itself, for argument a. */
  function Shown(f: string, a: nat, args: Args): string
  {
    Render(f, 0, a, args)
  }

  lemma ShownOne(f: string, a: nat, args: Args)
    requires Closed(f) && f != "" && FirstLength(f) == |f|
    ensures Shown(f, a, args) == Next(f, 0, a, args).text
  {
    var piece := Next(f, 0, a, args);
    RenderFirst(f, "", a, args, "", piece);
    assert f + "" == f;
    assert Render("" + "", 0, piece.a, args) == "";
    assert piece.text + "" == piece.text;
  }

  lemma ShownUint(f: string, a: nat, args: Args, v: nat, base: nat, upper: bool)
    requires Closed(f) && f != "" && FirstLength(f) == |f| && (base == 10 || base == 16)
    requires Next(f, 0, a, args).text == UintText(v, base, upper)
    ensures Prints(Shown(f, a, args), base, upper, v)
  {
    ShownOne(f, a, args);
    NumberText(v, base, upper);
  }

  /** %u, %x and %X print the low 32 bits of their argument, in the base and the letter case of the
      specifier. */
  lemma UnsignedLaw(a: nat, args: Args)
    ensures Prints(Shown("%u", a, args), 10, false, args.word(a) % 0x1_0000_0000)
    ensures Prints(Shown("%x", a, args), 16, false, args.word(a) % 0x1_0000_0000)
    ensures Prints(Shown("%X", a, args), 16, true, args.word(a) % 0x1_0000_0000)
  {
    ShownUint("%u", a, args, args.word(a) % 0x1_0000_0000, 10, false);
    ShownUint("%x", a, args, args.word(a) % 0x1_0000_0000, 16, false);
    ShownUint("%X", a, args, args.word(a) % 0x1_0000_0000, 16, true);
  }

  /** %lu, %lx and %lX print all 64. */
  lemma LongLaw(a: nat, args: Args)
    ensures Prints(Shown("%lu", a, args), 10, false, args.word(a))
    ensures Prints(Shown("%lx", a, args), 16, false, args.word(a))
    ensures Prints(Shown("%lX", a, args), 16, true, args.word(a))
  {
    ShownUint("%lu", a, args, args.word(a), 10, false);
    ShownUint("%lx", a, args, args.word(a), 16, false);
    ShownUint("%lX", a, args, args.word(a), 16, true);
  }

  /** %p prints 0x and all 64 bits. */
  lemma PointerLaw(a: nat, args: Args)
    ensures var t := Shown("%p", a, args); |t| > 2 && t[..2] == "0x" && Prints(t[2..], 16, false, args.word(a))
  {
    ShownOne("%p", a, args);
    HexText("0x", args.word(a));
  }

  lemma HexText(head: string, v: nat)
    requires |head| == 2
    ensures var t := head + UintText(v, 16, false); |t| > 2 && t[..2] == head && Prints(t[2..], 16, false, v)
  {
    NumberText(v, 16, false);
    assert (head + UintText(v, 16, false))[2..] == UintText(v, 16, false);
  }

  /** The text is that of the number v: a minus sign exactly if it is negative. */
  predicate PrintsSigned(t: string, v: int)
  {
    if v < 0 then t != "" && t[0] == '-' && Prints(t[1..], 10, false, -v) else Prints(t, 10, false, v)
  }

  lemma SignedText(v: int)
    ensures PrintsSigned(IntText(v), v)
  {
    if v < 0 {
      NumberText(-v, 10, false);
      var t := UintText(-v, 10, false);
      assert ("-" + t)[1..] == t;
    } else {
      NumberText(v, 10, false);
    }
  }

  lemma ShownInt(f: string, a: nat, args: Args, v: int)
    requires Closed(f) && f != "" && FirstLength(f) == |f| && Next(f, 0, a, args).text == IntText(v)
    ensures PrintsSigned(Shown(f, a, args), v)
  {
    ShownOne(f, a, args);
    SignedText(v);
  }

  /** %d and %i print the low 32 bits of their argument in two's complement. */
  lemma SignedLaw(a: nat, args: Args)
    ensures var low := args.word(a) % 0x1_0000_0000;
      var v := if low < 0x8000_0000 then low else low - 0x1_0000_0000;
      PrintsSigned(Shown("%d", a, args), v) && PrintsSigned(Shown("%i", a, args), v)
  {
    ShownInt("%d", a, args, AsInt(args.word(a)));
    ShownInt("%i", a, args, AsInt(args.word(a)));
  }

  /** %ld and %li print all 64. */
  lemma SignedLongLaw(a: nat, args: Args)
    ensures var w := args.word(a);
      var v := if w < 0x8000_0000_0000_0000 then w else w - 0x1_0000_0000_0000_0000;
      PrintsSigned(Shown("%ld", a, args), v) && PrintsSigned(Shown("%li", a, args), v)
  {
    ShownInt("%ld", a, args, AsLong(args.word(a)));
    ShownInt("%li", a, args, AsLong(args.word(a)));
  }

  /** %s prints the string, or "(null)"; %c the low byte; %% a percent sign. */
  lemma TextLaw(a: nat, args: Args)
    ensures Shown("%s", a, args) == if args.word(a) == 0 then "(null)" else args.text(args.word(a))
    ensures Shown("%c", a, args) == [(args.word(a) % 0x100) as char]
    ensures Shown("%%", a, args) == "%"
  {
    ShownOne("%s", a, args);
    ShownOne("%c", a, args);
    ShownOne("%%", a, args);
  }

  /** Unknown specifiers print literally; so does a %l at the end, while a single % there is dropped. */
  lemma UnknownLaw(c: char, a: nat, args: Args)
    ensures c !in {'%', 'c', 's', 'd', 'i', 'u', 'x', 'X', 'p', 'l'} ==> Shown(['%', c], a, args) == ['%', c]
    ensures c !in {'d', 'i', 'u', 'x', 'X'} ==> Shown(['%', 'l', c], a, args) == ['%', 'l', c]
    ensures Shown("%", a, args) == "" && Shown("%l", a, args) == "%l"
  {
    if c !in {'%', 'c', 's', 'd', 'i', 'u', 'x', 'X', 'p', 'l'} {
      ShownOne(['%', c], a, args);
      assert "%" + [c] == ['%', c];
    }
    if c !in {'d', 'i', 'u', 'x', 'X'} {
      ShownOne(['%', 'l', c], a, args);
      assert "%l" + [c] == ['%', 'l', c];
    }
  }

  /** A format without specifiers is printed as it is. */
  lemma {:induction false} PlainLaw(f: string, a: nat, args: Args)
    requires '%' !in f
    ensures Closed(f) && Uses(f) == 0 && Shown(f, a, args) == f
    decreases |f|
  {
    if f != "" {
      assert forall c :: c in f[1..] ==> c in f;
      PlainLaw(f[1..], a, args);
      RenderRest(f, 1, a, args);
      assert f == [f[0]] + f[1..];
    }
  }
}
