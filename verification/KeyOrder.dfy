/**
 * Object keys as sequences of Unicode scalar values, ordered by code point,
 * which is the byte order of their UTF-8 form.
 */
module KeyOrder {
  import opened Options

  predicate Less(a: string, b: string) {
    if |b| == 0 then false
    else if |a| == 0 then true
    else if a[0] != b[0] then a[0] < b[0]
    else Less(a[1..], b[1..])
  }

  predicate AtMost(a: string, b: string) { a == b || Less(a, b) }

  lemma {:induction false} LessTransitive(a: string, b: string, c: string)
    requires Less(a, b) && Less(b, c)
    ensures Less(a, c)
  {
    if |a| > 0 && a[0] == b[0] && b[0] == c[0] { LessTransitive(a[1..], b[1..], c[1..]); }
  }

  lemma {:induction false} LessIrreflexive(a: string)
    ensures !Less(a, a)
  {
    if |a| > 0 { LessIrreflexive(a[1..]); }
  }

  lemma {:induction false} LessTotal(a: string, b: string)
    ensures Less(a, b) || a == b || Less(b, a)
  {
    if |a| > 0 && |b| > 0 && a[0] == b[0] {
      LessTotal(a[1..], b[1..]);
      if a[1..] == b[1..] { assert a == [a[0]] + a[1..] && b == [b[0]] + b[1..]; }
    }
  }

  lemma AtMostTransitive(a: string, b: string, c: string)
    requires AtMost(a, b) && AtMost(b, c)
    ensures AtMost(a, c)
    ensures Less(a, b) || Less(b, c) ==> Less(a, c)
  {
    if Less(a, b) && Less(b, c) { LessTransitive(a, b, c); }
  }

  /** The strings agree up to position k, where a has the smaller code point. */
  predicate SmallerAt(a: string, b: string, k: int) { 0 <= k < |a| && k < |b| && a[..k] == b[..k] && a[k] < b[k] }

  /** One key is below another when it is a proper prefix, or smaller where they first differ. */
  lemma {:induction false} LessExactly(a: string, b: string)
    ensures Less(a, b) <==> (a <= b && |a| < |b|) || exists k :: SmallerAt(a, b, k)
  {
    if |a| > 0 && |b| > 0 && a[0] == b[0] {
      LessExactly(a[1..], b[1..]);
      assert a == [a[0]] + a[1..] && b == [b[0]] + b[1..];
      if k :| SmallerAt(a[1..], b[1..], k) {
        assert a[..k + 1] == [a[0]] + a[1..][..k] && b[..k + 1] == [b[0]] + b[1..][..k];
        assert SmallerAt(a, b, k + 1);
      }
      if k :| SmallerAt(a, b, k) {
        assert k > 0;
        assert a[1..][..k - 1] == a[..k][1..] && b[1..][..k - 1] == b[..k][1..];
        assert SmallerAt(a[1..], b[1..], k - 1);
      }
    } else if |a| > 0 && |b| > 0 && a[0] < b[0] {
      assert SmallerAt(a, b, 0);
    }
  }

  /** The order is total: not less is at most the other way round. */
  lemma NotLess(a: string, b: string)
    ensures !Less(a, b) <==> AtMost(b, a)
  {
    LessTotal(a, b);
    LessIrreflexive(a);
    if Less(a, b) && Less(b, a) { LessTransitive(a, b, a); }
  }

  /** A prefix comes before what it begins. */
  lemma {:induction false} PrefixAtMost(p: string, s: string)
    requires p <= s
    ensures AtMost(p, s)
  {
    if |p| > 0 {
      PrefixAtMost(p[1..], s[1..]);
      if p[1..] == s[1..] { assert p == [p[0]] + p[1..] && s == [s[0]] + s[1..]; }
    }
  }

  const MAX_RUNE: char := '\U{10FFFF}'

  /** The next Unicode scalar value; the surrogate range holds none. */
  function NextRune(c: char): (d: char)
    requires c != MAX_RUNE
    ensures c < d
  {
    if c == '\U{D7FF}' then '\U{E000}' else (c as int + 1) as char
  }

  lemma NoRuneBetween(c: char, e: char)
    requires c != MAX_RUNE
    ensures c < e <==> NextRune(c) <= e
  {
  }

  /** The least string above every string with the prefix, if there is one. */
  function PrefixUpperBound(p: string): Option<string> {
    if |p| == 0 then None
    else if p[|p| - 1] == MAX_RUNE then PrefixUpperBound(p[..|p| - 1])
    else Some(p[..|p| - 1] + [NextRune(p[|p| - 1])])
  }

  lemma {:induction false} SharedStart(q: string, a: string, b: string)
    ensures Less(q + a, q + b) <==> Less(a, b)
  {
    if |q| == 0 {
      assert q + a == a && q + b == b;
    } else {
      assert (q + a)[1..] == q[1..] + a && (q + b)[1..] == q[1..] + b;
      SharedStart(q[1..], a, b);
    }
  }

  /** Between q + [c] and q + [next c] lie exactly the strings that begin with q + [c]. */
  lemma {:induction false} OneRuneRange(q: string, c: char, s: string)
    requires c != MAX_RUNE
    ensures q + [c] <= s <==> AtMost(q + [c], s) && Less(s, q + [NextRune(c)])
  {
    if |q| == 0 {
      assert q + [c] == [c] && q + [NextRune(c)] == [NextRune(c)];
      if |s| > 0 { NoRuneBetween(c, s[0]); }
      assert Less(s, [NextRune(c)]) <==> |s| == 0 || s[0] < NextRune(c);
      assert Less([c], s) <==> |s| > 0 && (c < s[0] || (c == s[0] && |s| > 1));
    } else {
      assert (q + [c])[1..] == q[1..] + [c] && (q + [NextRune(c)])[1..] == q[1..] + [NextRune(c)];
      if |s| > 0 {
        OneRuneRange(q[1..], c, s[1..]);
        assert s == [s[0]] + s[1..];
        assert q + [c] == [q[0]] + (q[1..] + [c]);
      }
    }
  }

  /** Above a prefix that ends in the last rune only its own extensions remain. */
  lemma MaxRuneRange(q: string, s: string)
    requires q <= s && AtMost(q + [MAX_RUNE], s)
    ensures q + [MAX_RUNE] <= s
  {
    var t := s[|q|..];
    assert s == q + t;
    SharedStart(q, [MAX_RUNE], t);
    if Less([MAX_RUNE], t) { assert t[0] == MAX_RUNE; }
  }

  /** The contract of the upper bound, both ways: a string has the prefix exactly
      when it lies from the prefix up to the bound. */
  lemma {:induction false} UpperBoundContract(p: string, s: string)
    ensures p <= s <==> AtMost(p, s) && (PrefixUpperBound(p).Some? ==> Less(s, PrefixUpperBound(p).value))
  {
    if |p| == 0 {
      PrefixAtMost(p, s);
    } else {
      var q, c := p[..|p| - 1], p[|p| - 1];
      assert p == q + [c];
      if c != MAX_RUNE {
        OneRuneRange(q, c, s);
      } else {
        UpperBoundContract(q, s);
        PrefixAtMost(q, p);
        if p <= s { PrefixAtMost(p, s); assert q <= s; }
        if AtMost(p, s) {
          AtMostTransitive(q, p, s);
          if q <= s { MaxRuneRange(q, s); }
        }
      }
    }
  }

  /** And it is the least such bound. */
  lemma UpperBoundIsLeast(p: string, b: string)
    requires PrefixUpperBound(p).Some? && forall s :: p <= s ==> Less(s, b)
    ensures AtMost(PrefixUpperBound(p).value, b)
  {
    var u := PrefixUpperBound(p).value;
    NotLess(b, u);
    if Less(b, u) {
      UpperBoundContract(p, b);
      LessIrreflexive(b);
    }
  }
}
