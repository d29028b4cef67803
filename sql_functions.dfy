/** The pieces of SQLite's semantics the queries rely on: ROUND(x, 2), the
    BINARY collation of text, and the place of NULL in an ascending ORDER BY. */
module SqlFunctions {
  import opened KnowledgeBase

  /** ROUND(x, 2): to two decimal places, halves away from zero.
      Computed on exact reals (see README for the floating-point caveat). */
  function Round2(x: real): real {
    if x >= 0.0 then ((x * 100.0 + 0.5).Floor as real) / 100.0
    else -((((-x) * 100.0 + 0.5).Floor as real) / 100.0)
  }

  /** The rounded value is within half a hundredth of the exact one. */
  lemma Round2Close(x: real)
    ensures x - 0.005 <= Round2(x) <= x + 0.005
    ensures x >= 0.0 ==> x - 0.005 < Round2(x)
  {
    if x >= 0.0 {
      var f := (x * 100.0 + 0.5).Floor;
      assert f as real <= x * 100.0 + 0.5 < f as real + 1.0;
    } else {
      var f := ((-x) * 100.0 + 0.5).Floor;
      assert f as real <= (-x) * 100.0 + 0.5 < f as real + 1.0;
    }
  }

  lemma Round2Monotone(x: real, y: real)
    requires x <= y
    ensures Round2(x) <= Round2(y)
  {
    if x >= 0.0 {
      assert (x * 100.0 + 0.5).Floor <= (y * 100.0 + 0.5).Floor;
    } else if y < 0.0 {
      assert ((-y) * 100.0 + 0.5).Floor <= ((-x) * 100.0 + 0.5).Floor;
    } else {
      assert ((-x) * 100.0 + 0.5).Floor >= 0;
      assert (y * 100.0 + 0.5).Floor >= 0;
    }
  }

  /** A value already on the grid of hundredths is left unchanged. */
  lemma Round2OfHundredths(n: int)
    ensures Round2(n as real / 100.0) == n as real / 100.0
  {
    var x := n as real / 100.0;
    if n >= 0 {
      assert x * 100.0 + 0.5 == n as real + 0.5;
      assert (x * 100.0 + 0.5).Floor == n;
    } else {
      assert (-x) * 100.0 + 0.5 == (-n) as real + 0.5;
      assert ((-x) * 100.0 + 0.5).Floor == -n;
    }
  }

  /** Rounding keeps a value of [lo, hi] in [lo, hi] when both ends are hundredths. */
  lemma Round2Within(x: real, lo: int, hi: int)
    requires lo as real / 100.0 <= x <= hi as real / 100.0
    ensures lo as real / 100.0 <= Round2(x) <= hi as real / 100.0
  {
    Round2Monotone(lo as real / 100.0, x);
    Round2Monotone(x, hi as real / 100.0);
    Round2OfHundredths(lo);
    Round2OfHundredths(hi);
  }

  /** A percentage stays a percentage once rounded. */
  lemma Round2Percent(x: real)
    requires 0.0 <= x <= 100.0
    ensures 0.0 <= Round2(x) <= 100.0
  {
    Round2Within(x, 0, 10000);
  }

  /** BINARY collation: texts compared character by character (code point
      order, which is the byte order of their UTF-8 encoding); a proper prefix
      comes first. */
  predicate TextLe(a: string, b: string)
    decreases |a|
  {
    if a == [] then true
    else if b == [] then false
    else if a[0] != b[0] then a[0] < b[0]
    else TextLe(a[1..], b[1..])
  }

  predicate TextLt(a: string, b: string) {
    TextLe(a, b) && a != b
  }

  /** The usual reading of lexicographic order: `a` is a prefix of `b`, or the
      two first differ at some position where `a` has the smaller character. */
  ghost predicate LexicographicallyBefore(a: string, b: string) {
    || (|a| <= |b| && a == b[..|a|])
    || exists k :: 0 <= k < |a| && k < |b| && a[..k] == b[..k] && a[k] < b[k]
  }

  lemma {:induction false} TextLeIsLexicographic(a: string, b: string)
    ensures TextLe(a, b) <==> LexicographicallyBefore(a, b)
    decreases |a|
  {
    if a == [] {
    } else if b == [] {
    } else if a[0] != b[0] {
      assert a[..0] == b[..0];
      assert a[..1] == [a[0]] && b[..1] == [b[0]];
    } else {
      TextLeIsLexicographic(a[1..], b[1..]);
      if LexicographicallyBefore(a[1..], b[1..]) {
        LexicographicFromTail(a, b);
      }
      if LexicographicallyBefore(a, b) {
        LexicographicToTail(a, b);
      }
    }
  }

  /** A common first character can be put in front of an ordered pair. */
  lemma LexicographicFromTail(a: string, b: string)
    requires a != [] && b != [] && a[0] == b[0]
    requires LexicographicallyBefore(a[1..], b[1..])
    ensures LexicographicallyBefore(a, b)
  {
    var a', b' := a[1..], b[1..];
    if |a'| <= |b'| && a' == b'[..|a'|] {
      assert a == [a[0]] + a' && b[..|a|] == [b[0]] + b'[..|a'|];
    } else {
      var k :| 0 <= k < |a'| && k < |b'| && a'[..k] == b'[..k] && a'[k] < b'[k];
      assert a[..k + 1] == [a[0]] + a'[..k] && b[..k + 1] == [b[0]] + b'[..k];
    }
  }

  /** A common first character can be dropped from an ordered pair. */
  lemma LexicographicToTail(a: string, b: string)
    requires a != [] && b != [] && a[0] == b[0]
    requires LexicographicallyBefore(a, b)
    ensures LexicographicallyBefore(a[1..], b[1..])
  {
    var a', b' := a[1..], b[1..];
    if |a| <= |b| && a == b[..|a|] {
      assert a' == a[1..] && b[..|a|][1..] == b'[..|a'|];
    } else {
      var k :| 0 <= k < |a| && k < |b| && a[..k] == b[..k] && a[k] < b[k];
      assert k > 0;
      assert a'[..k - 1] == a[1..k] && b'[..k - 1] == b[1..k];
      assert a[1..k] == a[..k][1..] && b[1..k] == b[..k][1..];
    }
  }

  lemma {:induction false} TextLeReflexive(a: string)
    ensures TextLe(a, a)
    decreases |a|
  {
    if a != [] {
      TextLeReflexive(a[1..]);
    }
  }

  lemma {:induction false} TextLeTotal(a: string, b: string)
    ensures TextLe(a, b) || TextLe(b, a)
    decreases |a|
  {
    if a != [] && b != [] && a[0] == b[0] {
      TextLeTotal(a[1..], b[1..]);
    }
  }

  lemma {:induction false} TextLeTransitive(a: string, b: string, c: string)
    requires TextLe(a, b) && TextLe(b, c)
    ensures TextLe(a, c)
    decreases |a|
  {
    if a != [] && b != [] && c != [] && a[0] == b[0] && b[0] == c[0] {
      TextLeTransitive(a[1..], b[1..], c[1..]);
    }
  }

  lemma {:induction false} TextLeAntisymmetric(a: string, b: string)
    requires TextLe(a, b) && TextLe(b, a)
    ensures a == b
    decreases |a|
  {
    if a != [] && b != [] {
      TextLeAntisymmetric(a[1..], b[1..]);
      assert a == [a[0]] + a[1..] && b == [b[0]] + b[1..];
    }
  }

  /** `x <= y` in an ascending ORDER BY, where NULL (None) sorts before every value. */
  predicate NullsFirstLe(x: Option<int>, y: Option<int>) {
    x.None? || (y.Some? && x.value <= y.value)
  }
}
