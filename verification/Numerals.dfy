/** Numbers written with a fixed number of digits in some base, most significant digit first. */
module Numerals {
  import opened ChainTypes

  type Byte = b: nat | b < 256

  function Pow(base: nat, n: nat): (p: nat)
    ensures base >= 1 ==> p >= 1
  {
    if n == 0 then 1 else Pow(base, n - 1) * base
  }

  function Value(ds: seq<nat>, base: nat): nat {
    if ds == [] then 0 else Value(ds[..|ds| - 1], base) * base + ds[|ds| - 1]
  }

  predicate AllBelow(ds: seq<nat>, base: nat) {
    forall i | 0 <= i < |ds| :: ds[i] < base
  }

  function Digits(v: nat, base: nat, size: nat): (ds: seq<nat>)
    requires base >= 1
    ensures |ds| == size && AllBelow(ds, base)
  {
    if size == 0 then [] else Digits(v / base, base, size - 1) + [v % base]
  }

  lemma {:induction false} ValueBound(ds: seq<nat>, base: nat)
    requires AllBelow(ds, base)
    ensures Value(ds, base) < Pow(base, |ds|)
  {
    if ds != [] {
      var n := |ds| - 1;
      ValueBound(ds[..n], base);
      OneMoreDigit(Value(ds[..n], base), Pow(base, n), base, ds[n]);
    }
  }

  lemma {:induction false} OneMoreDigit(v: nat, p: nat, base: nat, d: nat)
    requires v < p && d < base
    ensures v * base + d < p * base
  {
    ProductNotLess(p, v + 1, base);
    assert (v + 1) * base == v * base + base;
  }

  /** A number is the value of its digits if they are enough. */
  lemma {:induction false} ValueOfDigits(v: nat, base: nat, size: nat)
    requires base >= 1 && v < Pow(base, size)
    ensures Value(Digits(v, base, size), base) == v
    decreases size, 1
  {
    if size > 0 {
      var q, r, p := v / base, v % base, Pow(base, size - 1);
      DigitsStep(v, base, size);
      LastDigit(v, q, r, p, base, size);
    }
  }

  lemma {:induction false} LastDigit(v: nat, q: nat, r: nat, p: nat, base: nat, size: nat)
    requires size > 0 && base >= 1 && p == Pow(base, size - 1) && v < p * base && q == v / base && r == v % base
    ensures Value(Digits(q, base, size - 1) + [r], base) == v
    decreases size, 0
  {
    hide Pow, Value, Digits;
    QuotientBelow(v, p, base);
    ValueOfDigits(q, base, size - 1);
    ValueBack(Digits(q, base, size - 1), r, base);
  }

  lemma {:induction false} DigitsStep(v: nat, base: nat, size: nat)
    requires base >= 1 && size > 0
    ensures Digits(v, base, size) == Digits(v / base, base, size - 1) + [v % base]
    ensures Pow(base, size) == Pow(base, size - 1) * base
  {
  }

  lemma {:induction false} ValueBack(ds: seq<nat>, d: nat, base: nat)
    ensures Value(ds + [d], base) == Value(ds, base) * base + d
  {
    assert (ds + [d])[..|ds|] == ds;
  }

  lemma {:induction false} QuotientBelow(v: nat, p: nat, base: nat)
    requires base >= 1 && v < p * base
    ensures v / base < p && v / base * base + v % base == v
  {
    if v / base >= p {
      ProductNotLess(v / base, p, base);
    }
  }

  lemma {:induction false} ProductNotLess(a: nat, b: nat, c: nat)
    requires a >= b
    ensures a * c >= b * c
  {
  }

  /** Digits are determined by their value. */
  lemma {:induction false} DigitsOfValue(ds: seq<nat>, base: nat)
    requires base >= 1 && AllBelow(ds, base)
    ensures Digits(Value(ds, base), base, |ds|) == ds
  {
    if ds != [] {
      var n := |ds| - 1;
      DivideBack(Value(ds[..n], base), base, ds[n]);
      DigitsOfValue(ds[..n], base);
    }
  }

  lemma {:induction false} DivideBack(q: nat, base: nat, r: nat)
    requires r < base
    ensures (q * base + r) / base == q && (q * base + r) % base == r
  {
    var v := q * base + r;
    var e := v / base - q;
    assert e * base == r - v % base;
    if e != 0 {
      MultipleIsLarge(e, base);
    }
  }

  lemma {:induction false} MultipleIsLarge(e: int, base: nat)
    requires e != 0
    ensures e * base >= base || e * base <= 0 - base
  {
    if e > 0 {
      assert (e - 1) * base >= 0;
    } else {
      assert (-1 - e) * base >= 0;
    }
  }

  /** A digit in front counts for as much as there are digits behind it. */
  lemma {:induction false} ValueFront(d: nat, ds: seq<nat>, base: nat)
    ensures Value([d] + ds, base) == d * Pow(base, |ds|) + Value(ds, base)
  {
    if ds == [] {
      ValueBack([], d, base);
      assert [d] + ds == [] + [d];
    } else {
      var n := |ds| - 1;
      var rest, last := ds[..n], ds[n];
      assert ds == rest + [last] && [d] + ds == ([d] + rest) + [last];
      assert Pow(base, n + 1) == Pow(base, n) * base;
      hide Pow, Value;
      ValueFront(d, rest, base);
      ValueBack([d] + rest, last, base);
      ValueBack(rest, last, base);
      Regroup(d, Pow(base, n), base, Value(rest, base));
    }
  }

  lemma {:induction false} Regroup(d: nat, p: nat, base: nat, v: nat)
    ensures (d * p + v) * base == d * (p * base) + v * base
  {
  }

  lemma {:induction false} PowersOf256()
    ensures Pow(256, 0) == 1 && Pow(256, 1) == 0x100 && Pow(256, 2) == 0x1_0000 && Pow(256, 3) == 0x100_0000
    ensures Pow(256, 4) == 0x1_0000_0000 && Pow(256, 5) == 0x100_0000_0000 && Pow(256, 6) == 0x1_0000_0000_0000
    ensures Pow(256, 7) == 0x100_0000_0000_0000 && Pow(256, 8) == UINT64_RANGE
  {
    assert Pow(256, 1) == Pow(256, 0) * 256;
    assert Pow(256, 2) == Pow(256, 1) * 256;
    assert Pow(256, 3) == Pow(256, 2) * 256;
    assert Pow(256, 4) == Pow(256, 3) * 256;
    assert Pow(256, 5) == Pow(256, 4) * 256;
    assert Pow(256, 6) == Pow(256, 5) * 256;
    assert Pow(256, 7) == Pow(256, 6) * 256;
    assert Pow(256, 8) == Pow(256, 7) * 256;
  }

  ghost predicate DifferAt(a: seq<nat>, b: seq<nat>, i: nat) {
    i < |a| && i < |b| && a[i] < b[i] && forall k | 0 <= k < i :: a[k] == b[k]
  }

  /** The first place where two sequences differ decides. */
  ghost predicate LexLess(a: seq<nat>, b: seq<nat>) {
    exists i: nat :: DifferAt(a, b, i)
  }

  lemma {:induction false} LexLessIsLess(a: seq<nat>, b: seq<nat>, base: nat)
    requires |a| == |b| && AllBelow(a, base) && AllBelow(b, base) && LexLess(a, b)
    ensures Value(a, base) < Value(b, base)
  {
    var n := |a| - 1;
    var p, q := a[..n], b[..n];
    var i: nat :| DifferAt(a, b, i);
    if i < n {
      assert DifferAt(p, q, i);
      LexLessIsLess(p, q, base);
      OneMoreDigit(Value(p, base), Value(q, base), base, a[n]);
    } else {
      assert p == q;
    }
  }

  /** What follows does not matter once there is a difference. */
  lemma {:induction false} LexExtend(a: seq<nat>, b: seq<nat>, r: seq<nat>, s: seq<nat>)
    requires LexLess(a, b)
    ensures LexLess(a + r, b + s)
  {
    var i: nat :| DifferAt(a, b, i);
    assert DifferAt(a + r, b + s, i);
  }

  lemma {:induction false} LexTotal(a: seq<nat>, b: seq<nat>)
    requires |a| == |b| && a != b
    ensures LexLess(a, b) || LexLess(b, a)
  {
    var n := |a| - 1;
    var p, q := a[..n], b[..n];
    assert a == p + [a[n]] && b == q + [b[n]];
    if p != q {
      LexTotal(p, q);
      if LexLess(p, q) {
        LexExtend(p, q, [a[n]], [b[n]]);
      } else {
        LexExtend(q, p, [b[n]], [a[n]]);
      }
    } else {
      assert DifferAt(a, b, n) || DifferAt(b, a, n);
    }
  }

  /** Among numbers with the same number of digits, the order of the digits is the order of the numbers. */
  lemma {:induction false} LexIsNumeric(a: seq<nat>, b: seq<nat>, base: nat)
    requires |a| == |b| && AllBelow(a, base) && AllBelow(b, base)
    ensures LexLess(a, b) <==> Value(a, base) < Value(b, base)
  {
    if LexLess(a, b) {
      LexLessIsLess(a, b, base);
    } else if a != b {
      LexTotal(a, b);
      LexLessIsLess(b, a, base);
    }
  }
}
