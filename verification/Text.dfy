/** Byte-string order and the decimal formatting that sled keys rely on.

    Strings are sequences of characters compared by code point. For UTF-8 text
    this is the same order as comparing the encoded bytes. */
module Text {

  /** Strict lexicographic order: how sled orders keys and how Rust orders `str`. */
  predicate StrLt(a: string, b: string) {
    b != [] && (a == [] || a[0] < b[0] || (a[0] == b[0] && StrLt(a[1..], b[1..])))
  }

  lemma {:induction false} StrLtIrreflexive(a: string)
    ensures !StrLt(a, a)
  {
    if a != [] {
      StrLtIrreflexive(a[1..]);
    }
  }

  lemma {:induction false} StrLtTransitive(a: string, b: string, c: string)
    requires StrLt(a, b) && StrLt(b, c)
    ensures StrLt(a, c)
  {
    if a != [] && a[0] == b[0] && b[0] == c[0] {
      StrLtTransitive(a[1..], b[1..], c[1..]);
    }
  }

  lemma {:induction false} StrLtTotal(a: string, b: string)
    ensures StrLt(a, b) || a == b || StrLt(b, a)
  {
    if a != [] && b != [] && a[0] == b[0] {
      StrLtTotal(a[1..], b[1..]);
      assert a == [a[0]] + a[1..] && b == [b[0]] + b[1..];
    }
  }

  lemma {:induction false} StrLtAsymmetric(a: string, b: string)
    requires StrLt(a, b)
    ensures !StrLt(b, a)
  {
    if StrLt(b, a) {
      StrLtTransitive(a, b, a);
      StrLtIrreflexive(a);
    }
  }

  /** A common prefix does not influence the order. */
  lemma {:induction false} StrLtSamePrefix(p: string, a: string, b: string)
    ensures StrLt(p + a, p + b) <==> StrLt(a, b)
  {
    if p == [] {
      assert p + a == a && p + b == b;
    } else {
      StrLtSamePrefix(p[1..], a, b);
      assert (p + a)[1..] == p[1..] + a && (p + b)[1..] == p[1..] + b;
    }
  }

  function Digit(d: nat): (c: char)
    requires d < 10
    ensures '0' <= c <= '9'
  {
    '0' + d as char
  }

  /** The last `width` decimal digits of n, zero padded: `{:0width}` when n fits. */
  function Pad(n: nat, width: nat): (s: string)
    ensures |s| == width
    ensures forall i :: 0 <= i < |s| ==> '0' <= s[i] <= '9'
  {
    if width == 0 then "" else Pad(n / 10, width - 1) + [Digit(n % 10)]
  }

  function Pow10(width: nat): (p: nat)
    ensures p > 0
  {
    if width == 0 then 1 else 10 * Pow10(width - 1)
  }

  /** Zero-padded decimal order is numeric order, whatever follows the digits. */
  lemma {:induction false} PadOrder(m: nat, n: nat, width: nat, x: string, y: string)
    requires m < n < Pow10(width)
    ensures StrLt(Pad(m, width) + x, Pad(n, width) + y)
  {
    var p, q := Pad(m / 10, width - 1), Pad(n / 10, width - 1);
    var x', y' := [Digit(m % 10)] + x, [Digit(n % 10)] + y;
    assert Pad(m, width) + x == p + x' && Pad(n, width) + y == q + y';
    if m / 10 < n / 10 {
      PadOrder(m / 10, n / 10, width - 1, x', y');
    } else {
      assert p == q && StrLt(x', y');
      StrLtSamePrefix(p, x', y');
    }
  }

  /** `part` occurs somewhere in s. */
  predicate Contains(s: string, part: string) {
    part <= s || (s != [] && Contains(s[1..], part))
  }

  predicate OccursAt(s: string, part: string, i: nat) {
    i + |part| <= |s| && s[i..i + |part|] == part
  }

  lemma {:induction false} OccursInFront(s: string, part: string)
    ensures part <= s <==> OccursAt(s, part, 0)
  {
    assert part <= s ==> s[..|part|] == part;
  }

  lemma {:induction false} OccursLater(s: string, part: string, i: nat)
    requires s != []
    ensures OccursAt(s, part, i + 1) <==> OccursAt(s[1..], part, i)
  {
    if i + 1 + |part| <= |s| {
      assert s[1..][i..i + |part|] == s[i + 1..i + 1 + |part|];
    }
  }

  /** A text contains another exactly when that occurs at some place, the front or any other. */
  lemma {:induction false} ContainsExactly(s: string, part: string)
    ensures Contains(s, part) <==> exists i: nat :: OccursAt(s, part, i)
  {
    OccursInFront(s, part);
    if s != [] {
      ContainsExactly(s[1..], part);
      forall i: nat ensures OccursAt(s, part, i + 1) <==> OccursAt(s[1..], part, i) {
        OccursLater(s, part, i);
      }
      if i: nat :| OccursAt(s, part, i) {
        assert i == 0 || OccursAt(s[1..], part, i - 1);
      }
    } else if i: nat :| OccursAt(s, part, i) {
      assert i == 0;
    }
  }
}
