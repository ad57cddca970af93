/** Numbers of variable length as parts of database keys (SQLite4 "Variable-Length Integers", Encode and Decode): keys
    that are put together of them sort like the tuples of their numbers. */
module SqliteVarints {
  import opened ChainTypes
  import opened Numerals

  function SizeOf(v: nat): nat {
    if v <= 240 then 1 else if v <= 2287 then 2 else if v <= 67823 then 3 else if v <= 16777215 then 4
    else if v <= 4294967295 then 5 else if v <= 1099511627775 then 6 else if v <= 281474976710655 then 7
    else if v <= 72057594037927935 then 8 else 9
  }

  function Bytes(v: nat, size: nat): (b: seq<Byte>)
    ensures b == Digits(v, 256, size)
  {
    var b: seq<Byte> := Digits(v, 256, size);
    b
  }

  function Written(v: nat): seq<Byte>
    requires v < UINT64_RANGE
  {
    if v <= 240 then [v]
    else if v <= 2287 then [(v - 240) / 256 + 241, (v - 240) % 256]
    else if v <= 67823 then [249] + [(v - 2288) / 256, (v - 2288) % 256]
    else [250 + SizeOf(v) - 4] + Bytes(v, SizeOf(v) - 1)
  }

  /** The low bytes of a number, the most significant first. */
  method ToBytes(v: nat, size: nat) returns (b: seq<Byte>)
    ensures b == Bytes(v, size)
  {
    b := [];
    var i, rest := size, v;
    while i > 0
      invariant 0 <= i <= size && rest >= 0 && Bytes(v, size) == Bytes(rest, i) + b
    {
      i := i - 1;
      assert Bytes(rest, i + 1) == Bytes(rest / 256, i) + [rest % 256];
      b := [rest % 256] + b;
      rest := rest / 256;
    }
  }

  method WriteVarint(v: nat) returns (b: seq<Byte>)
    requires v < UINT64_RANGE
    ensures b == Written(v)
  {
    if v <= 240 {
      return [v];
    }
    if v <= 2287 {
      return [((v - 240) / 256 + 241) % 256, (v - 240) % 256];
    }
    if v <= 67823 {
      return [249, (v - 2288) / 256 % 256, (v - 2288) % 256];
    }
    hide Bytes, Digits;
    var size: nat;
    if v <= 16777215 {
      size := 3;
    } else if v <= 4294967295 {
      size := 4;
    } else if v <= 1099511627775 {
      size := 5;
    } else if v <= 281474976710655 {
      size := 6;
    } else if v <= 72057594037927935 {
      size := 7;
    } else {
      size := 8;
    }
    var tail := ToBytes(v, size);
    return [247 + size] + tail;
  }

  /** The number at the front, and how many bytes it takes; None when the input is too short. */
  function Read(b: seq<Byte>): Option<(nat, nat)> {
    if b == [] then None
    else
      var a0: nat := b[0];
      if a0 <= 240 then Some((a0, 1))
      else if a0 <= 248 then
        if |b| < 2 then None else Some((240 + 256 * (a0 - 241) + Number(b[1]), 2))
      else if a0 == 249 then
        if |b| < 3 then None else Some((2288 + 256 * Number(b[1]) + Number(b[2]), 3))
      else
        var n := 3 + a0 - 250;
        if |b| < 1 + n then None else Some((Value(b[1..1 + n], 256), 1 + n))
  }

  function Number(b: Byte): nat {
    b
  }

  method ReadVarint(b: seq<Byte>) returns (r: Option<(nat, nat)>)
    ensures r == Read(b)
  {
    if |b| < 1 {
      return None;
    }
    var a0: nat := b[0];
    if a0 <= 240 {
      return Some((a0, 1));
    }
    if a0 <= 248 {
      if |b| < 2 {
        return None;
      }
      var v := 240 + 256 * (a0 - 241) + Number(b[1]);
      return Some((v, 2));
    }
    if a0 == 249 {
      if |b| < 3 {
        return None;
      }
      var v := 2288 + 256 * Number(b[1]) + Number(b[2]);
      return Some((v, 3));
    }
    var bytes: nat := 3 + a0 - 250;
    if |b| < 1 + bytes {
      return None;
    }
    ghost var tail := b[1..1 + bytes];
    assert tail[..0] == [] && tail[..bytes] == tail;
    var result: nat := 0;
    for i := 0 to bytes
      invariant result == Value(tail[..i], 256)
    {
      assert tail[..i + 1] == tail[..i] + [tail[i]] && tail[i] == b[1 + i];
      ValueBack(tail[..i], tail[i], 256);
      result := result * 256 + b[1 + i];
    }
    return Some((result, 1 + bytes));
  }

  // ---- round trip ----

  lemma {:induction false} SizeIsEnough(v: nat)
    requires 67823 < v < UINT64_RANGE
    ensures 3 <= SizeOf(v) - 1 <= 8 && v < Pow(256, SizeOf(v) - 1)
  {
    PowersOf256();
  }

  /** The declared size is the size, and reading undoes writing, whatever follows. */
  lemma {:induction false} ReadUndoesWrite(v: nat, rest: seq<Byte>)
    requires v < UINT64_RANGE
    ensures |Written(v)| == SizeOf(v) && Read(Written(v) + rest) == Some((v, SizeOf(v)))
  {
    hide Pow;
    if v > 67823 {
      SizeIsEnough(v);
      var n := SizeOf(v) - 1;
      ValueOfDigits(v, 256, n);
      assert (Written(v) + rest)[1..1 + n] == Bytes(v, n);
    }
  }

  /** No encoding is the beginning of another one. */
  lemma {:induction false} PrefixFree(u: nat, v: nat, r: seq<Byte>, s: seq<Byte>)
    requires u < UINT64_RANGE && v < UINT64_RANGE && Written(u) + r == Written(v) + s
    ensures u == v && r == s
  {
    ReadUndoesWrite(u, r);
    ReadUndoesWrite(v, s);
    hide Written, Read, SizeOf;
    assert r == (Written(u) + r)[|Written(u)|..];
    assert s == (Written(v) + s)[|Written(v)|..];
  }

  // ---- order ----

  lemma {:induction false} LexFirst(a: seq<nat>, b: seq<nat>)
    requires a != [] && b != [] && a[0] < b[0]
    ensures LexLess(a, b)
  {
    assert DifferAt(a, b, 0);
  }

  lemma {:induction false} LexBehind(p: seq<nat>, a: seq<nat>, b: seq<nat>)
    ensures LexLess(p + a, p + b) <==> LexLess(a, b)
  {
    var x, y := p + a, p + b;
    if LexLess(a, b) {
      var i: nat :| DifferAt(a, b, i);
      assert DifferAt(x, y, |p| + i);
    }
    if LexLess(x, y) {
      var j: nat :| DifferAt(x, y, j);
      assert j >= |p|;
      forall k | 0 <= k < j - |p|
        ensures a[k] == b[k]
      {
        assert x[|p| + k] == y[|p| + k];
      }
      assert DifferAt(a, b, j - |p|);
    }
  }

  /** A smaller number has the smaller encoding. */
  lemma {:induction false} WrittenInOrder(u: nat, v: nat)
    requires u < v < UINT64_RANGE
    ensures LexLess(Written(u), Written(v))
  {
    hide Pow, LexLess;
    if v <= 240 || SizeOf(u) != SizeOf(v) {
      FirstByteInOrder(u, v);
      LexFirst(Written(u), Written(v));
    } else if v <= 67823 {
      SmallInOrder(u, v);
    } else {
      LargeInOrder(u, v);
    }
  }

  lemma {:induction false} FirstByteInOrder(u: nat, v: nat)
    requires u < v < UINT64_RANGE && (v <= 240 || SizeOf(u) != SizeOf(v))
    ensures Written(u) != [] && Written(v) != [] && Written(u)[0] < Written(v)[0]
  {
  }

  lemma {:induction false} SmallInOrder(u: nat, v: nat)
    requires 240 < u < v <= 67823 && SizeOf(u) == SizeOf(v)
    ensures LexLess(Written(u), Written(v))
  {
    hide LexLess;
    if v <= 2287 {
      TwoDigits((u - 240) / 256 + 241, (u - 240) % 256, (v - 240) / 256 + 241, (v - 240) % 256);
    } else {
      TwoDigits((u - 2288) / 256, (u - 2288) % 256, (v - 2288) / 256, (v - 2288) % 256);
      LexBehind([249], [(u - 2288) / 256, (u - 2288) % 256], [(v - 2288) / 256, (v - 2288) % 256]);
    }
  }

  lemma {:induction false} LargeInOrder(u: nat, v: nat)
    requires 67823 < u < v < UINT64_RANGE && SizeOf(u) == SizeOf(v)
    ensures LexLess(Written(u), Written(v))
  {
    hide Pow, LexLess, Written, SizeOf, Digits, Value;
    var n := SizeOf(v) - 1;
    WrittenLarge(u);
    WrittenLarge(v);
    LexIsNumeric(Bytes(u, n), Bytes(v, n), 256);
    LexBehind([247 + n], Bytes(u, n), Bytes(v, n));
  }

  lemma {:induction false} WrittenLarge(v: nat)
    requires 67823 < v < UINT64_RANGE
    ensures var n := SizeOf(v) - 1; 3 <= n <= 8 && Written(v) == [247 + n] + Bytes(v, n) && Value(Bytes(v, n), 256) == v
  {
    hide Pow;
    SizeIsEnough(v);
    ValueOfDigits(v, 256, SizeOf(v) - 1);
  }

  lemma {:induction false} TwoDigits(a: nat, b: nat, c: nat, d: nat)
    requires a < c || (a == c && b < d)
    ensures LexLess([a, b], [c, d])
  {
    if a < c {
      LexFirst([a, b], [c, d]);
    } else {
      assert DifferAt([a, b], [c, d], 1);
    }
  }

  // ---- keys ----

  ghost predicate AllFit(ns: seq<nat>) {
    forall i | 0 <= i < |ns| :: ns[i] < UINT64_RANGE
  }

  function Key(ns: seq<nat>): seq<Byte>
    requires AllFit(ns)
  {
    if ns == [] then [] else Written(ns[0]) + Key(ns[1..])
  }

  /** The order of the database: byte by byte, and a key comes before every longer key that begins with it. */
  predicate Before(a: seq<nat>, b: seq<nat>) {
    b != [] && (a == [] || a[0] < b[0] || (a[0] == b[0] && Before(a[1..], b[1..])))
  }

  lemma {:induction false} LessIsBefore(a: seq<nat>, b: seq<nat>)
    requires LexLess(a, b)
    ensures Before(a, b)
  {
    var i: nat :| DifferAt(a, b, i);
    if i > 0 {
      assert a[0] == b[0];
      assert DifferAt(a[1..], b[1..], i - 1);
      LessIsBefore(a[1..], b[1..]);
    }
  }

  lemma {:induction false} BeforeAsymmetric(a: seq<nat>, b: seq<nat>)
    requires Before(a, b)
    ensures a != b && !Before(b, a)
  {
    if a != [] && a[0] == b[0] {
      BeforeAsymmetric(a[1..], b[1..]);
    }
  }

  lemma {:induction false} BeforeBehind(p: seq<nat>, a: seq<nat>, b: seq<nat>)
    ensures Before(p + a, p + b) <==> Before(a, b)
  {
    if p == [] {
      assert p + a == a && p + b == b;
    } else {
      assert (p + a)[1..] == p[1..] + a && (p + b)[1..] == p[1..] + b;
      BeforeBehind(p[1..], a, b);
    }
  }

  /** Keys of any lengths sort like the tuples they are made of. */
  lemma {:induction false} KeysSortLikeTuples(a: seq<nat>, b: seq<nat>)
    requires AllFit(a) && AllFit(b)
    ensures Before(Key(a), Key(b)) <==> Before(a, b)
    ensures Key(a) == Key(b) <==> a == b
  {
    hide Written;
    if a == [] || b == [] {
      KeyIsThere(a);
      KeyIsThere(b);
    } else {
      var x, y, p, q := a[0], b[0], a[1..], b[1..];
      assert x in a && y in b;
      KeysSortLikeTuples(p, q);
      assert a == [x] + p && b == [y] + q;
      if x == y {
        BeforeBehind(Written(x), Key(p), Key(q));
        if Key(a) == Key(b) {
          PrefixFree(x, y, Key(p), Key(q));
        }
      } else if x < y {
        DifferentHeads(x, y, Key(p), Key(q));
      } else {
        DifferentHeads(y, x, Key(q), Key(p));
        BeforeAsymmetric(Key(b), Key(a));
      }
    }
  }

  lemma {:induction false} KeyIsThere(a: seq<nat>)
    requires AllFit(a)
    ensures Key(a) == [] <==> a == []
  {
    if a != [] {
      assert a[0] in a;
      ReadUndoesWrite(a[0], []);
    }
  }

  lemma {:induction false} DifferentHeads(x: nat, y: nat, r: seq<Byte>, s: seq<Byte>)
    requires x < y < UINT64_RANGE
    ensures Before(Written(x) + r, Written(y) + s) && Written(x) + r != Written(y) + s
  {
    WrittenInOrder(x, y);
    LexExtend(Written(x), Written(y), r, s);
    LessIsBefore(Written(x) + r, Written(y) + s);
    BeforeAsymmetric(Written(x) + r, Written(y) + s);
  }
}
