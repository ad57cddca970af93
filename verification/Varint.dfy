/** Numbers of variable length: seven bits a byte, the lowest first, as used in addresses and transactions. */
module Varints {
  import opened ChainTypes
  import opened Numerals

  /** Seven bits a byte; all but the last are marked. */
  function Written(v: nat): (bytes: seq<Byte>)
    ensures |bytes| > 0 && bytes[|bytes| - 1] < 128
  {
    if v >= 128 then [v % 128 + 128] + Written(v / 128) else [v]
  }

  method WriteVarint(v: nat) returns (bytes: seq<Byte>)
    ensures bytes == Written(v)
  {
    hide Written;
    bytes := [];
    var i := v;
    while i >= 128
      invariant i >= 0 && bytes + Written(i) == Written(v)
    {
      OneByteWritten(i);
      assert (bytes + [i % 128 + 128]) + Written(i / 128) == bytes + Written(i);
      bytes := bytes + [i % 128 + 128];
      i := i / 128;
    }
    OneByteWritten(i);
    bytes := bytes + [i];
  }

  lemma {:induction false} OneByteWritten(v: nat)
    ensures Written(v) == if v >= 128 then [v % 128 + 128] + Written(v / 128) else [v]
  {
  }

  /** How many bytes were read, or why reading failed, and the number. */
  datatype Reading = Reading(count: int, value: nat)

  const OVERFLOW := -1
  const NOT_CANONICAL := -2

  /** Reading goes on at byte k, of at most ten. At the end of the input it stops without an error. */
  function ReadFrom(bytes: seq<Byte>, k: nat, value: nat): Reading
    requires k <= |bytes| && k < 10
    decreases |bytes| - k
  {
    if k == |bytes| then Reading(k, value)
    else if 7 * k + 7 >= 64 && bytes[k] >= Pow(2, 64 - 7 * k) then Reading(OVERFLOW, value)
    else if bytes[k] == 0 && k != 0 then Reading(NOT_CANONICAL, value)
    else
      var sum := value + bytes[k] % 128 * Pow(128, k);
      LastByteEnds(k);
      if bytes[k] < 128 then Reading(k + 1, sum) else ReadFrom(bytes, k + 1, sum)
  }

  lemma {:induction false} LastByteEnds(k: nat)
    requires k < 10
    ensures k == 9 ==> Pow(2, 64 - 7 * k) == 2
  {
    assert Pow(2, 1) == 2;
  }

  method ReadVarint(bytes: seq<Byte>) returns (r: Reading)
    ensures r == ReadFrom(bytes, 0, 0)
  {
    var k, value := 0, 0;
    while true
      invariant 0 <= k <= |bytes| && k < 10 && value >= 0
      invariant ReadFrom(bytes, k, value) == ReadFrom(bytes, 0, 0)
      decreases |bytes| - k
    {
      if k == |bytes| {
        return Reading(k, value);
      }
      var byte := bytes[k];
      LastByteEnds(k);
      if 7 * k + 7 >= 64 && byte >= Pow(2, 64 - 7 * k) {
        return Reading(OVERFLOW, value);
      }
      if byte == 0 && k != 0 {
        return Reading(NOT_CANONICAL, value);
      }
      value := value + byte % 128 * Pow(128, k);
      k := k + 1;
      if byte < 128 {
        return Reading(k, value);
      }
    }
  }

  lemma {:induction false} WrittenFits(v: nat, k: nat)
    requires k < 10 && v * Pow(128, k) < UINT64_RANGE
    ensures k == 9 ==> v < 2
  {
    if k == 9 {
      PowersOf128();
    }
  }

  lemma {:induction false} PowersOf128()
    ensures Pow(128, 0) == 1 && Pow(128, 9) == 0x8000_0000_0000_0000
  {
    assert Pow(128, 1) == Pow(128, 0) * 128;
    assert Pow(128, 2) == Pow(128, 1) * 128;
    assert Pow(128, 3) == Pow(128, 2) * 128;
    assert Pow(128, 4) == Pow(128, 3) * 128;
    assert Pow(128, 5) == Pow(128, 4) * 128;
    assert Pow(128, 6) == Pow(128, 5) * 128;
    assert Pow(128, 7) == Pow(128, 6) * 128;
    assert Pow(128, 8) == Pow(128, 7) * 128;
    assert Pow(128, 9) == Pow(128, 8) * 128;
  }

  /** After k bytes, the bytes of w are read and nothing behind them. */
  lemma {:induction false} ReadsWritten(front: seq<Byte>, w: nat, rest: seq<Byte>, value: nat)
    requires |front| < 10 && w * Pow(128, |front|) < UINT64_RANGE && (w != 0 || front == [])
    ensures var k := |front|;
            ReadFrom(front + Written(w) + rest, k, value) == Reading(k + |Written(w)|, value + w * Pow(128, k))
    decreases w
  {
    hide Pow, ReadFrom, Written;
    var k := |front|;
    WrittenFits(w, k);
    OneByteWritten(w);
    if w >= 128 {
      var b := w % 128 + 128;
      assert front + Written(w) + rest == front + [b] + (Written(w / 128) + rest);
      assert front + [b] + (Written(w / 128) + rest) == front + [b] + Written(w / 128) + rest;
      ReadsMarked(front, b, Written(w / 128) + rest, value);
      SplitSeven(w, Pow(128, k));
      ReadsWritten(front + [b], w / 128, rest, value + w % 128 * Pow(128, k));
    } else {
      ReadsLast(front, w, rest, value);
    }
  }

  /** A marked byte is added, and reading goes on behind it. */
  lemma {:induction false} ReadsMarked(front: seq<Byte>, b: Byte, rest: seq<Byte>, value: nat)
    requires |front| < 9 && b >= 128
    ensures Pow(128, |front| + 1) == Pow(128, |front|) * 128
    ensures ReadFrom(front + [b] + rest, |front|, value)
            == ReadFrom(front + [b] + rest, |front| + 1, value + b % 128 * Pow(128, |front|))
  {
    assert (front + [b] + rest)[|front|] == b;
  }

  /** Any other byte ends the number. */
  lemma {:induction false} ReadsLast(front: seq<Byte>, b: Byte, rest: seq<Byte>, value: nat)
    requires |front| < 10 && b < 128 && (b != 0 || front == []) && (|front| == 9 ==> b < 2)
    ensures ReadFrom(front + [b] + rest, |front|, value) == Reading(|front| + 1, value + b * Pow(128, |front|))
  {
    LastByteEnds(|front|);
    assert (front + [b] + rest)[|front|] == b;
  }

  lemma {:induction false} SplitSeven(w: nat, p: nat)
    ensures w % 128 * p + w / 128 * (p * 128) == w * p
    ensures w / 128 * (p * 128) <= w * p
  {
    assert w == w % 128 + w / 128 * 128;
  }

  /** Reading undoes writing, for every 64-bit number and whatever follows. */
  lemma {:induction false} ReadUndoesWrite(v: nat, rest: seq<Byte>)
    requires v < UINT64_RANGE
    ensures ReadFrom(Written(v) + rest, 0, 0) == Reading(|Written(v)|, v)
  {
    assert [] + Written(v) + rest == Written(v) + rest;
    ReadsWritten([], v, rest, 0);
  }

  /** A number takes at most ten bytes: the buffer is large enough. */
  lemma {:induction false} WrittenSize(v: nat)
    requires v < UINT64_RANGE
    ensures |Written(v)| <= 10
  {
    SizeWithin(v, 9);
    PowersOf128();
  }

  lemma {:induction false} SizeWithin(v: nat, n: nat)
    requires v < 128 * Pow(128, n)
    ensures |Written(v)| <= n + 1
  {
    if v >= 128 {
      SizeWithin(v / 128, n - 1);
    }
  }

  /** What was read without an error is what writing the number gives, unless the input ended within the number. */
  lemma {:induction false} WriteUndoesRead(bytes: seq<Byte>, k: nat, value: nat) returns (w: nat)
    requires k < |bytes| && k < 10 && ReadFrom(bytes, k, value).count > 0
    ensures var r := ReadFrom(bytes, k, value);
            && k < r.count <= |bytes|
            && if bytes[r.count - 1] < 128
               then (w != 0 || k == 0) && r.value == value + w * Pow(128, k) && Written(w) == bytes[k..r.count]
               else r.count == |bytes|
    decreases |bytes| - k
  {
    hide Pow, ReadFrom, Written;
    var b, p := bytes[k], Pow(128, k);
    var sum := value + b % 128 * p;
    ReadStep(bytes, k, value);
    if b < 128 {
      assert bytes[k..k + 1] == [b];
      w := b;
    } else if k + 1 < |bytes| {
      var x := WriteUndoesRead(bytes, k + 1, sum);
      w := b - 128 + 128 * x;
      var r := ReadFrom(bytes, k + 1, sum);
      if bytes[r.count - 1] < 128 {
        OneByteMore(b, x, p);
        assert bytes[k..r.count] == [b] + bytes[k + 1..r.count];
      }
    } else {
      w := 0;
    }
  }

  lemma {:induction false} ReadStep(bytes: seq<Byte>, k: nat, value: nat)
    requires k < |bytes| && k < 10 && ReadFrom(bytes, k, value).count > 0
    ensures Pow(128, k + 1) == Pow(128, k) * 128
    ensures var sum := value + bytes[k] % 128 * Pow(128, k);
            if bytes[k] < 128 then (bytes[k] != 0 || k == 0) && ReadFrom(bytes, k, value) == Reading(k + 1, sum)
                && Written(bytes[k]) == [bytes[k]]
            else k < 9 && ReadFrom(bytes, k, value) == ReadFrom(bytes, k + 1, sum)
                 && (k + 1 == |bytes| ==> ReadFrom(bytes, k, value) == Reading(k + 1, sum))
  {
    LastByteEnds(k);
  }

  lemma {:induction false} OneByteMore(b: Byte, w: nat, p: nat)
    requires b >= 128 && w != 0
    ensures var v := b - 128 + 128 * w; b % 128 * p + w * (p * 128) == v * p && Written(v) == [b] + Written(w)
  {
    var v, c := b - 128 + 128 * w, b - 128;
    assert v / 128 == w && v % 128 == c && b % 128 == c;
    assert Written(v) == [b] + Written(w);
    hide Written;
    Distribute(c, w, p);
  }

  lemma {:induction false} Distribute(c: nat, w: nat, p: nat)
    ensures c * p + w * (p * 128) == (c + 128 * w) * p
  {
  }

  /** All bytes read but the last say that another one follows. */
  lemma {:induction false} AllButLastMarked(bytes: seq<Byte>, k: nat, value: nat)
    requires k < |bytes| && k < 10 && ReadFrom(bytes, k, value).count > 0
    ensures ReadFrom(bytes, k, value).count <= |bytes|
    ensures forall i | k <= i < ReadFrom(bytes, k, value).count - 1 :: bytes[i] >= 128
    decreases |bytes| - k
  {
    hide Pow, ReadFrom, Written;
    ReadStep(bytes, k, value);
    if bytes[k] >= 128 && k + 1 < |bytes| {
      AllButLastMarked(bytes, k + 1, value + bytes[k] % 128 * Pow(128, k));
    }
  }

  /** Of what can be read, exactly the numbers that are not cut off are read from their own encoding. */
  lemma {:induction false} ReadIsCanonical(bytes: seq<Byte>)
    requires bytes != [] && ReadFrom(bytes, 0, 0).count > 0
    ensures var r := ReadFrom(bytes, 0, 0);
            r.count <= |bytes| && (Written(r.value) == bytes[..r.count] <==> bytes[r.count - 1] < 128)
  {
    hide ReadFrom, Written;
    var w := WriteUndoesRead(bytes, 0, 0);
    var r := ReadFrom(bytes, 0, 0);
    if bytes[r.count - 1] < 128 {
      assert Pow(128, 0) == 1 && w * 1 == w;
      hide Pow;
    } else {
      hide Pow;
      assert bytes[..r.count][r.count - 1] == bytes[r.count - 1];
    }
  }
}
