/**
 * Token amounts: decimal text on the command line, base units of 10^-18 in
 * between, and canonical base-unit text at the wallet API.
 */
module Amounts {
  const DECIMALS: nat := 18
  const BITS: nat := 256

  datatype Result = Ok(amount: nat) | Required | NotPositive | NotDecimal | TooPrecise | Zero | TooLarge

  predicate IsDigit(c: char) { '0' <= c <= '9' }

  predicate AllDigits(s: string) { forall i :: 0 <= i < |s| ==> IsDigit(s[i]) }

  /** The white space characters of Unicode. */
  predicate IsSpace(c: char) {
    var n := c as int;
    || 0x09 <= n <= 0x0d || n == 0x20 || n == 0x85 || n == 0xa0 || n == 0x1680 || 0x2000 <= n <= 0x200a
    || n == 0x2028 || n == 0x2029 || n == 0x202f || n == 0x205f || n == 0x3000
  }

  function TrimSpace(s: string): string {
    if s != "" && IsSpace(s[0]) then TrimSpace(s[1..])
    else if s != "" && IsSpace(s[|s| - 1]) then TrimSpace(s[..|s| - 1])
    else s
  }

  const WHITE_SPACE: string :=
    "\t\n\U{0B}\U{0C}\r \U{85}\U{A0}\U{1680}\U{2000}\U{2001}\U{2002}\U{2003}\U{2004}\U{2005}\U{2006}\U{2007}"
    + "\U{2008}\U{2009}\U{200A}\U{2028}\U{2029}\U{202F}\U{205F}\U{3000}"

  lemma SpacesAreListed(c: char)
    ensures IsSpace(c) <==> c in WHITE_SPACE
  {
    var n := c as int;
    if IsSpace(c) {
      if 0x09 <= n <= 0x0d { assert WHITE_SPACE[n - 0x09] == c; }
      else if 0x2000 <= n <= 0x200a { assert WHITE_SPACE[n - 0x2000 + 9] == c; }
      else {
        var s := WHITE_SPACE;
        assert c == s[5] || c == s[6] || c == s[7] || c == s[8] || c == s[20] || c == s[21] || c == s[22]
            || c == s[23] || c == s[24];
      }
    }
  }

  predicate AllSpace(s: string) { forall i :: 0 <= i < |s| ==> IsSpace(s[i]) }

  predicate NoOuterSpace(s: string) { s != "" ==> !IsSpace(s[0]) && !IsSpace(s[|s| - 1]) }

  /** Trimming takes off white space and nothing else, and leaves none at either end. */
  lemma {:induction false} TrimSpaceExactly(s: string) returns (l: string, r: string)
    ensures s == l + TrimSpace(s) + r && AllSpace(l) && AllSpace(r) && NoOuterSpace(TrimSpace(s))
    decreases |s|
  {
    l, r := "", "";
    if s != "" && IsSpace(s[0]) {
      var l', r' := TrimSpaceExactly(s[1..]);
      l, r := [s[0]] + l', r';
      assert s == [s[0]] + s[1..];
    } else if s != "" && IsSpace(s[|s| - 1]) {
      var l', r' := TrimSpaceExactly(s[..|s| - 1]);
      l, r := l', r' + [s[|s| - 1]];
      assert s == s[..|s| - 1] + [s[|s| - 1]];
    }
  }

  function Pow(b: nat, n: nat): nat { if n == 0 then 1 else b * Pow(b, n - 1) }

  /** The number a string of digits denotes. */
  function Num(s: string): nat
    requires AllDigits(s)
  { if s == "" then 0 else Num(s[..|s| - 1]) * 10 + (s[|s| - 1] as int - '0' as int) }

  function BitLen(n: nat): nat { if n == 0 then 0 else 1 + BitLen(n / 2) }

  function Dots(s: string): nat { if s == "" then 0 else Dots(s[1..]) + if s[0] == '.' then 1 else 0 }

  /** What comes before the first dot. */
  function BeforeDot(s: string): (r: string)
    ensures |r| <= |s|
  { if s == "" || s[0] == '.' then "" else [s[0]] + BeforeDot(s[1..]) }

  function Zeros(n: nat): string { seq(n, _ => '0') }

  function TrimZeros(s: string): string { if s != "" && s[0] == '0' then TrimZeros(s[1..]) else s }

  function Parse(raw: string): Result {
    var v := TrimSpace(raw);
    if v == "" then Required
    else if v[0] == '-' then NotPositive
    else if Dots(v) > 1 then NotDecimal
    else
      var integer := BeforeDot(v);
      var hasFraction := |integer| < |v|;
      var fraction := if hasFraction then v[|integer| + 1..] else "";
      if integer == "" && !hasFraction then NotDecimal else
      var whole := if integer == "" then "0" else integer;
      if !AllDigits(whole) || (hasFraction && (fraction == "" || !AllDigits(fraction))) then NotDecimal
      else if |fraction| > DECIMALS then TooPrecise
      else FromBase(whole + fraction + Zeros(DECIMALS - |fraction|))
  }

  function FromBase(digits: string): Result
    requires AllDigits(digits)
  {
    TrimmedIsDigits(digits);
    var base := if TrimZeros(digits) == "" then "0" else TrimZeros(digits);
    var amount := Num(base);
    if amount <= 0 then Zero else if BitLen(amount) > BITS then TooLarge else Ok(amount)
  }

  predicate ValidBaseUnitAmount(amount: string) {
    amount != "" && amount[0] != '0' && AllDigits(amount) && BitLen(Num(amount)) <= BITS
  }

  // -------------------------------------------------------------- arithmetic

  lemma {:induction false} TrimmedIsDigits(s: string)
    requires AllDigits(s)
    ensures AllDigits(TrimZeros(s)) && Num(TrimZeros(s)) == Num(s)
  {
    if s != "" && s[0] == '0' {
      TrimmedIsDigits(s[1..]);
      assert s == "0" + s[1..];
      NumConcat("0", s[1..]);
    }
  }

  lemma Shift(a: int, p: int, b: int, d: int)
    ensures (a * p + b) * 10 + d == a * (10 * p) + (b * 10 + d)
  {
    assert a * (10 * p) == a * p * 10;
  }

  lemma {:induction false} NumConcat(a: string, b: string)
    requires AllDigits(a) && AllDigits(b)
    ensures AllDigits(a + b) && Num(a + b) == Num(a) * Pow(10, |b|) + Num(b)
  {
    if b == "" {
      assert a + b == a;
    } else {
      var n := |b| - 1;
      var p := Pow(10, n);
      assert (a + b)[..|a + b| - 1] == a + b[..n];
      NumConcat(a, b[..n]);
      Shift(Num(a), p, Num(b[..n]), b[n] as int - '0' as int);
    }
  }

  lemma {:induction false} NumZeros(n: nat)
    ensures AllDigits(Zeros(n)) && Num(Zeros(n)) == 0
  {
    if n > 0 {
      NumZeros(n - 1);
      assert Zeros(n)[..n - 1] == Zeros(n - 1);
    }
  }

  lemma {:induction false} BitLenIsBound(n: nat, k: nat)
    ensures BitLen(n) <= k <==> n < Pow(2, k)
  {
    if n > 0 && k > 0 {
      BitLenIsBound(n / 2, k - 1);
      assert Pow(2, k) == 2 * Pow(2, k - 1);
    } else if n == 0 {
      PowPositive(2, k);
    }
  }

  lemma {:induction false} PowPositive(b: nat, n: nat)
    requires b > 0
    ensures Pow(b, n) > 0
  {
    if n > 0 { PowPositive(b, n - 1); }
  }

  lemma {:induction false} PowSplits(n: nat, a: nat, b: nat)
    ensures Pow(n, a) * Pow(n, b) == Pow(n, a + b)
  {
    if a > 0 {
      PowSplits(n, a - 1, b);
      assert n * Pow(n, a - 1) * Pow(n, b) == n * (Pow(n, a - 1) * Pow(n, b));
    }
  }

  // ------------------------------------------------------------ decimal form

  /** The text is an integer part, perhaps none, with a fraction, or an integer alone. */
  predicate Denotes(v: string, i: string, f: string) {
    && AllDigits(i) && AllDigits(f)
    && ((v == i && i != "" && f == "") || (v == i + "." + f && f != ""))
  }

  function Mixed(a: nat, p: nat, b: nat, q: nat): nat { a * p + b * q }

  /** The value of i.f in units of 10^-d. */
  function Units(i: string, f: string, d: nat): nat
    requires AllDigits(i) && AllDigits(f) && |f| <= d
  { Mixed(Num(i), Pow(10, d), Num(f), Pow(10, d - |f|)) }

  lemma {:induction false} SplitAtDot(v: string)
    requires Dots(v) <= 1
    ensures '.' !in BeforeDot(v) && v[..|BeforeDot(v)|] == BeforeDot(v)
    ensures |BeforeDot(v)| < |v| ==> v == BeforeDot(v) + "." + v[|BeforeDot(v)| + 1..]
  {
    if v != "" && v[0] != '.' {
      SplitAtDot(v[1..]);
      assert v == [v[0]] + v[1..];
      assert v[1..][|BeforeDot(v[1..])|..] == v[|BeforeDot(v)|..];
    }
  }

  lemma {:induction false} NoDots(s: string)
    requires AllDigits(s)
    ensures Dots(s) == 0 && BeforeDot(s) == s
  {
    if s != "" {
      NoDots(s[1..]);
      assert s == [s[0]] + s[1..];
    }
  }

  lemma {:induction false} OneDot(i: string, f: string)
    requires AllDigits(i) && AllDigits(f)
    ensures Dots(i + "." + f) == 1 && BeforeDot(i + "." + f) == i
  {
    var v := i + "." + f;
    if i == "" {
      assert v[0] == '.' && v[1..] == f;
      NoDots(f);
    } else {
      assert v[0] == i[0] && v[1..] == i[1..] + "." + f;
      OneDot(i[1..], f);
      assert i == [i[0]] + i[1..];
    }
  }

  lemma PaddedIsValue(i: string, f: string, d: nat)
    requires AllDigits(i) && AllDigits(f) && |f| <= d
    ensures var z := Zeros(d - |f|); AllDigits(i + f + z) && Num(i + f + z) == Units(i, f, d)
  {
    var k := d - |f|;
    NumZeros(k);
    NumConcat(i, f);
    NumConcat(i + f, Zeros(k));
    PowSplits(10, |f|, k);
    Distribute(Num(i), Pow(10, |f|), Num(f), Pow(10, k));
  }

  lemma Distribute(a: nat, p: nat, b: nat, q: nat)
    ensures (a * p + b) * q == a * (p * q) + b * q
  {
    assert a * p * q == a * (p * q);
  }

  /** The verdict on a value in base units. */
  function Bounded(n: nat): Result { if n == 0 then Zero else if n >= Pow(2, BITS) then TooLarge else Ok(n) }

  lemma FromBaseExact(digits: string)
    requires AllDigits(digits)
    ensures FromBase(digits) == Bounded(Num(digits))
  {
    TrimmedIsDigits(digits);
    BitLenIsBound(Num(digits), BITS);
  }

  lemma ZeroWhole(f: string, d: nat)
    requires AllDigits(f) && |f| <= d
    ensures AllDigits("0") && Units("0", f, d) == Units("", f, d)
  {
    assert "0"[..0] == "" && Num("0") == 0 == Num("");
  }

  function Whole(i: string): string { if i == "" then "0" else i }

  lemma Shape(v: string, i: string, f: string)
    requires Denotes(v, i, f)
    ensures v != "" && v[0] != '-' && Dots(v) <= 1 && BeforeDot(v) == i && (|i| == |v| <==> f == "")
    ensures f != "" ==> |i| < |v| && v[|i| + 1..] == f
  {
    if v == i && f == "" { NoDots(i); } else { OneDot(i, f); }
  }

  lemma ParseShape(raw: string, i: string, f: string)
    requires Denotes(TrimSpace(raw), i, f) && |f| <= DECIMALS && AllDigits(Whole(i) + f + Zeros(DECIMALS - |f|))
    ensures Parse(raw) == FromBase(Whole(i) + f + Zeros(DECIMALS - |f|))
  {
    Shape(TrimSpace(raw), i, f);
  }

  lemma WholeIsValue(i: string, f: string, d: nat)
    requires AllDigits(i) && AllDigits(f) && |f| <= d
    ensures var s := Whole(i) + f + Zeros(d - |f|); AllDigits(s) && Num(s) == Units(i, f, d)
  {
    ZeroWhole(f, d);
    PaddedIsValue(Whole(i), f, d);
  }

  /** An accepted amount is its decimal value in base units, exactly. */
  lemma ParseDenotes(raw: string, i: string, f: string)
    requires Denotes(TrimSpace(raw), i, f) && |f| <= DECIMALS
    ensures Parse(raw) == Bounded(Units(i, f, DECIMALS))
  {
    WholeIsValue(i, f, DECIMALS);
    ParseShape(raw, i, f);
    FromBaseExact(Whole(i) + f + Zeros(DECIMALS - |f|));
  }

  /** Only decimal numbers of at most eighteen places are accepted. */
  lemma AcceptedDenotes(raw: string) returns (i: string, f: string)
    requires Parse(raw).Ok?
    ensures Denotes(TrimSpace(raw), i, f) && |f| <= DECIMALS
  {
    var v := TrimSpace(raw);
    i := BeforeDot(v);
    SplitAtDot(v);
    f := if |i| < |v| then v[|i| + 1..] else "";
  }

  /** The text denotes n base units in at most eighteen places. */
  predicate IsAmount(v: string, i: string, f: string, n: nat) {
    Denotes(v, i, f) && |f| <= DECIMALS && n == Units(i, f, DECIMALS)
  }

  /** So a text is accepted as n exactly when it denotes n base units within 1..2^256-1. */
  lemma ParseExact(raw: string, n: nat)
    ensures Parse(raw) == Ok(n)
       <==> 1 <= n < Pow(2, BITS) && exists i, f :: IsAmount(TrimSpace(raw), i, f, n)
  {
    hide Parse, Denotes, Units, TrimSpace;
    if Parse(raw) == Ok(n) {
      var i, f := AcceptedDenotes(raw);
      ParseDenotes(raw, i, f);
      assert IsAmount(TrimSpace(raw), i, f, n);
    }
    if 1 <= n < Pow(2, BITS) {
      if i, f :| IsAmount(TrimSpace(raw), i, f, n) { ParseDenotes(raw, i, f); }
    }
  }

  // ------------------------------------------------------------ decimal value

  /** The number a + b/p. */
  function Fraction(a: nat, b: nat, p: nat): real
    requires p > 0
  { a as real + b as real / p as real }

  /** The real number that an integer part and a fraction denote. */
  function DecimalValue(i: string, f: string): real
    requires AllDigits(i) && AllDigits(f)
  {
    PowPositive(10, |f|);
    Fraction(Num(i), Num(f), Pow(10, |f|))
  }

  lemma Scale(a: nat, b: nat, p: nat, q: nat, r: nat)
    requires p > 0 && r == p * q
    ensures Fraction(a, b, p) * r as real == Mixed(a, r, b, q) as real
  {
    var x := b as real / p as real;
    assert x * p as real == b as real;
    assert r as real == p as real * q as real;
    assert x * (p as real * q as real) == (x * p as real) * q as real;
    assert (b * q) as real == b as real * q as real;
    assert (a * r) as real == a as real * r as real;
  }

  lemma SameFraction(a: nat, b: nat, p: nat, q: nat, a': nat, b': nat, p': nat, q': nat, r: nat)
    requires p > 0 && p' > 0 && r > 0 && r == p * q == p' * q'
    ensures Mixed(a, r, b, q) == Mixed(a', r, b', q') <==> Fraction(a, b, p) == Fraction(a', b', p')
  {
    Scale(a, b, p, q, r);
    Scale(a', b', p', q', r);
    Cancel(Fraction(a, b, p), Fraction(a', b', p'), r as real);
  }

  lemma SameUnitsSameValue(i: string, f: string, i': string, f': string, d: nat)
    requires AllDigits(i) && AllDigits(f) && AllDigits(i') && AllDigits(f') && |f| <= d && |f'| <= d
    ensures Units(i, f, d) == Units(i', f', d) <==> DecimalValue(i, f) == DecimalValue(i', f')
  {
    PowPositive(10, |f|);
    PowPositive(10, |f'|);
    PowPositive(10, d);
    PowSplits(10, |f|, d - |f|);
    PowSplits(10, |f'|, d - |f'|);
    SameFraction(Num(i), Num(f), Pow(10, |f|), Pow(10, d - |f|), Num(i'), Num(f'), Pow(10, |f'|), Pow(10, d - |f'|),
                 Pow(10, d));
  }

  /** Two accepted texts give the same amount exactly when they denote the same number. */
  lemma SameAmountSameValue(raw: string, raw': string, i: string, f: string, i': string, f': string)
    requires Parse(raw).Ok? && Parse(raw').Ok?
    requires Denotes(TrimSpace(raw), i, f) && Denotes(TrimSpace(raw'), i', f') && |f| <= DECIMALS && |f'| <= DECIMALS
    ensures Parse(raw) == Parse(raw') <==> DecimalValue(i, f) == DecimalValue(i', f')
  {
    ParseDenotes(raw, i, f);
    ParseDenotes(raw', i', f');
    SameUnitsSameValue(i, f, i', f', DECIMALS);
  }

  lemma Cancel(x: real, y: real, z: real)
    requires z > 0.0
    ensures x * z == y * z <==> x == y
  {
    assert x * z / z == x && y * z / z == y;
  }

  const TWO_TO_256: nat := 0x1_0000000000000000_0000000000000000_0000000000000000_0000000000000000

  lemma TwoToThe128()
    ensures Pow(2, 128) == 0x1_0000000000000000_0000000000000000
  {
    assert Pow(2, 8) == 0x100;
    hide Pow;
    PowSplits(2, 8, 8);
    PowSplits(2, 16, 16);
    PowSplits(2, 32, 32);
    PowSplits(2, 64, 64);
  }

  lemma BoundsWrittenOut()
    ensures Pow(10, DECIMALS) == 1_000_000_000_000_000_000
    ensures Pow(2, BITS) == TWO_TO_256
  {
    assert Pow(10, 9) == 1_000_000_000;
    PowSplits(10, 9, 9);
    TwoToThe128();
    hide Pow;
    PowSplits(2, 128, 128);
  }

  /** The text denotes n units of 10^-18 in at most eighteen places. */
  predicate IsTokens(v: string, i: string, f: string, n: nat) {
    && Denotes(v, i, f) && |f| <= 18
    && n as real == DecimalValue(i, f) * 1_000_000_000_000_000_000.0
  }

  lemma UnitsAreTokens(v: string, i: string, f: string, n: nat)
    ensures IsAmount(v, i, f, n) <==> IsTokens(v, i, f, n)
  {
    if Denotes(v, i, f) && |f| <= 18 {
      BoundsWrittenOut();
      PowPositive(10, |f|);
      PowSplits(10, |f|, 18 - |f|);
      Scale(Num(i), Num(f), Pow(10, |f|), Pow(10, 18 - |f|), Pow(10, 18));
    }
  }

  /** With the numbers written out: a text is accepted as n exactly when it is a
      decimal of at most eighteen places, n is 10^18 times it, and n is a positive
      number of 256 bits. */
  lemma ParseIsTokens(raw: string, n: nat)
    ensures Parse(raw) == Ok(n)
       <==> && 1 <= n < TWO_TO_256
            && exists i, f :: IsTokens(TrimSpace(raw), i, f, n)
  {
    hide Parse, IsAmount, IsTokens;
    BoundsWrittenOut();
    ParseExact(raw, n);
    forall i, f ensures IsAmount(TrimSpace(raw), i, f, n) <==> IsTokens(TrimSpace(raw), i, f, n) {
      UnitsAreTokens(TrimSpace(raw), i, f, n);
    }
    if i, f :| IsTokens(TrimSpace(raw), i, f, n) { assert IsAmount(TrimSpace(raw), i, f, n); }
    if i, f :| IsAmount(TrimSpace(raw), i, f, n) { assert IsTokens(TrimSpace(raw), i, f, n); }
  }

  // ----------------------------------------------------------------- refusals

  /** Texts that are not refused for their form are decimal numbers. */
  lemma ReadDenotes(raw: string) returns (i: string, f: string)
    requires !Parse(raw).Required? && !Parse(raw).NotPositive? && !Parse(raw).NotDecimal?
    ensures Denotes(TrimSpace(raw), i, f)
  {
    var v := TrimSpace(raw);
    i := BeforeDot(v);
    SplitAtDot(v);
    f := if |i| < |v| then v[|i| + 1..] else "";
  }

  lemma LongFraction(raw: string, i: string, f: string)
    requires Denotes(TrimSpace(raw), i, f) && |f| > 18
    ensures Parse(raw) == TooPrecise
  {
    Shape(TrimSpace(raw), i, f);
  }

  /** A text is refused as missing when it is blank, as not positive when it starts
      with a minus sign, and as no decimal when it is none. */
  lemma FormRefusedExactly(raw: string)
    ensures Parse(raw) == Required <==> AllSpace(raw)
    ensures Parse(raw) == NotPositive <==> TrimSpace(raw) != "" && TrimSpace(raw)[0] == '-'
    ensures Parse(raw) == NotDecimal
       <==> && TrimSpace(raw) != "" && TrimSpace(raw)[0] != '-'
            && !exists i, f :: Denotes(TrimSpace(raw), i, f)
  {
    var v := TrimSpace(raw);
    var l, r := TrimSpaceExactly(raw);
    if v != "" { assert raw[|l|] == v[0] && !AllSpace(raw); }
    hide Denotes, TrimSpace;
    if i, f :| Denotes(v, i, f) {
      Shape(v, i, f);
      if |f| > 18 { LongFraction(raw, i, f); } else { ParseDenotes(raw, i, f); }
    } else if !Parse(raw).Required? && !Parse(raw).NotPositive? && !Parse(raw).NotDecimal? {
      var i, f := ReadDenotes(raw);
      assert false;
    }
  }

  lemma SameVerdict(x: real, n: nat)
    requires n as real == x * 1_000_000_000_000_000_000.0
    ensures n == 0 <==> x == 0.0
    ensures n >= TWO_TO_256 <==> x * 1_000_000_000_000_000_000.0 >= TWO_TO_256 as real
  {
  }

  /** A decimal is refused when it has more than eighteen places, is zero, or needs
      more than 256 bits. */
  lemma ValueRefusedExactly(raw: string, i: string, f: string)
    requires Denotes(TrimSpace(raw), i, f)
    ensures Parse(raw) == TooPrecise <==> |f| > 18
    ensures Parse(raw) == Zero <==> |f| <= 18 && DecimalValue(i, f) == 0.0
    ensures Parse(raw) == TooLarge
       <==> && |f| <= 18
            && DecimalValue(i, f) * 1_000_000_000_000_000_000.0 >= TWO_TO_256 as real
  {
    hide Pow, Parse, Num, Mixed, TrimSpace, DecimalValue;
    if |f| > 18 {
      LongFraction(raw, i, f);
    } else {
      BoundsWrittenOut();
      ParseDenotes(raw, i, f);
      var n := Units(i, f, DECIMALS);
      UnitsAreTokens(TrimSpace(raw), i, f, n);
      SameVerdict(DecimalValue(i, f), n);
    }
  }

  // -------------------------------------------------------- canonical decimals

  function Digit(n: nat): char
    requires n < 10
  { ('0' as int + n) as char }

  function Canonical(n: nat): string {
    if n < 10 then [Digit(n)] else Canonical(n / 10) + [Digit(n % 10)]
  }

  /** The canonical decimal reads back as its number and has no leading zero. */
  lemma {:induction false} CanonicalReads(n: nat)
    ensures AllDigits(Canonical(n)) && Canonical(n) != "" && Num(Canonical(n)) == n
    ensures n > 0 ==> Canonical(n)[0] != '0'
  {
    var s := Canonical(n);
    if n < 10 {
      assert s[..0] == "";
    } else {
      CanonicalReads(n / 10);
      assert s[..|s| - 1] == Canonical(n / 10);
    }
  }

  lemma {:induction false} CanonicalIsUnique(s: string)
    requires AllDigits(s) && s != "" && (s[0] != '0' || |s| == 1)
    ensures s == Canonical(Num(s))
  {
    var n := |s| - 1;
    if n == 0 {
      assert s[..0] == "" && Num(s) == s[0] as int - '0' as int;
    } else {
      CanonicalIsUnique(s[..n]);
      LeadingDigit(s[..n]);
      assert Num(s) / 10 == Num(s[..n]);
      assert s == s[..n] + [s[n]];
    }
  }

  lemma {:induction false} LeadingDigit(s: string)
    requires AllDigits(s) && s != "" && s[0] != '0'
    ensures Num(s) > 0
  {
    if |s| == 1 { assert s[..0] == ""; } else { LeadingDigit(s[..|s| - 1]); }
  }

  /** The API accepts exactly the canonical decimals of 1..2^256-1. */
  lemma ValidExactly(s: string)
    ensures ValidBaseUnitAmount(s) <==> exists n: nat :: 1 <= n < Pow(2, BITS) && s == Canonical(n)
  {
    if s != "" && s[0] != '0' && AllDigits(s) {
      CanonicalIsUnique(s);
      LeadingDigit(s);
      BitLenIsBound(Num(s), BITS);
    }
    if n: nat :| 1 <= n < Pow(2, BITS) && s == Canonical(n) { CanonicalReads(n); BitLenIsBound(n, BITS); }
  }

  /** What the command line accepts, written out canonically, the API accepts as the same amount. */
  lemma ParsedIsValid(raw: string)
    requires Parse(raw).Ok?
    ensures ValidBaseUnitAmount(Canonical(Parse(raw).amount)) && Num(Canonical(Parse(raw).amount)) == Parse(raw).amount
  {
    var n := Parse(raw).amount;
    ParseExact(raw, n);
    CanonicalReads(n);
    ValidExactly(Canonical(n));
  }
}
