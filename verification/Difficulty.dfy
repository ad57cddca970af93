/** Whether a hash is good enough for a difficulty. */
module Difficulties {
  import opened ChainTypes
  import opened Numerals

  /** The number that bytes stand for when the least significant comes first. */
  function LittleEndian(bytes: seq<Byte>): nat {
    if bytes == [] then 0 else bytes[0] + 256 * LittleEndian(bytes[1..])
  }

  lemma {:induction false} LittleEndianBound(bytes: seq<Byte>)
    ensures LittleEndian(bytes) < Pow(256, |bytes|)
  {
    if bytes != [] {
      LittleEndianBound(bytes[1..]);
    }
  }

  lemma {:induction false} LittleEndianSplit(bytes: seq<Byte>, n: nat)
    requires n <= |bytes|
    ensures LittleEndian(bytes) == LittleEndian(bytes[..n]) + Pow(256, n) * LittleEndian(bytes[n..])
  {
    if n > 0 {
      LittleEndianSplit(bytes[1..], n - 1);
      assert bytes[1..][..n - 1] == bytes[..n][1..] && bytes[1..][n - 1..] == bytes[n..];
      MoveFactor(Pow(256, n - 1), LittleEndian(bytes[n..]));
    } else {
      assert bytes[..0] == [] && bytes[0..] == bytes;
    }
  }

  lemma {:induction false} MoveFactor(p: nat, v: nat)
    ensures 256 * (p * v) == p * 256 * v
  {
  }

  function Word(hash: seq<Byte>, i: nat): (w: nat)
    requires |hash| == 32 && i < 4
  {
    LittleEndian(hash[8 * i..8 * i + 8])
  }

  /** The product of two words: the low and the high word. */
  function Mul128(a: nat, b: nat): (nat, nat) {
    (a * b % UINT64_RANGE, a * b / UINT64_RANGE)
  }

  /** Whether a 64-bit sum carries. */
  predicate Cadd(a: nat, b: nat) {
    (a + b) % UINT64_RANGE < a
  }

  /** Whether a 64-bit sum with a carry carries. */
  predicate Cadc(a: nat, b: nat, c: bool) {
    (a + b) % UINT64_RANGE < a || (c && (a + b) % UINT64_RANGE == UINT64_RANGE - 1)
  }

  lemma {:induction false} CarryMeans(a: nat, b: nat, c: bool)
    requires a < UINT64_RANGE && b < UINT64_RANGE
    ensures Cadd(a, b) <==> a + b >= UINT64_RANGE
    ensures Cadc(a, b, c) <==> a + b + (if c then 1 else 0) >= UINT64_RANGE
  {
  }

  method CheckHash(hash: seq<Byte>, difficulty: nat) returns (ok: bool)
    requires |hash| == 32 && difficulty < UINT64_RANGE
    ensures ok <==> LittleEndian(hash) * difficulty < Pow(256, 32)
  {
    hide LittleEndian, Cadd, Cadc, Pow;
    var top, high := Mul128(Word(hash, 3), difficulty).0, Mul128(Word(hash, 3), difficulty).1;
    WordsMakeHash(hash);
    WordsFit(hash);
    ghost var w0, w1, w2, w3 := Word(hash, 0), Word(hash, 1), Word(hash, 2), Word(hash, 3);
    ProductIsSum(w0, w1, w2, w3, difficulty);
    hide Word;
    if high != 0 {
      return false;
    }
    var low, cur := Mul128(Word(hash, 0), difficulty).0, Mul128(Word(hash, 0), difficulty).1;
    low, high := Mul128(Word(hash, 1), difficulty).0, Mul128(Word(hash, 1), difficulty).1;
    CarryMeans(cur, low, false);
    var carry := Cadd(cur, low);
    cur := high;
    low, high := Mul128(Word(hash, 2), difficulty).0, Mul128(Word(hash, 2), difficulty).1;
    CarryMeans(cur, low, carry);
    carry := Cadc(cur, low, carry);
    CarryMeans(high, top, carry);
    carry := Cadc(high, top, carry);
    return !carry;
  }

  lemma {:induction false} WordsMakeHash(hash: seq<Byte>)
    requires |hash| == 32
    ensures Pow(256, 32) == UINT64_RANGE * UINT64_RANGE * UINT64_RANGE * UINT64_RANGE
    ensures LittleEndian(hash)
            == Word(hash, 0) + UINT64_RANGE * (Word(hash, 1)
            + UINT64_RANGE * (Word(hash, 2) + UINT64_RANGE * Word(hash, 3)))
  {
    PowerOfWord();
    LittleEndianSplit(hash, 8);
    LittleEndianSplit(hash[8..], 8);
    LittleEndianSplit(hash[16..], 8);
    assert hash[..8] == hash[0..8] && hash[8..][..8] == hash[8..16] && hash[8..][8..] == hash[16..];
    assert hash[16..][..8] == hash[16..24] && hash[16..][8..] == hash[24..32];
  }

  lemma {:induction false} WordsFit(hash: seq<Byte>)
    requires |hash| == 32
    ensures forall i: nat | i < 4 :: Word(hash, i) < UINT64_RANGE
  {
    forall i: nat | i < 4
      ensures Word(hash, i) < UINT64_RANGE
    {
      LittleEndianBound(hash[8 * i..8 * i + 8]);
      PowerOfWord();
    }
  }

  lemma {:induction false} PowerOfWord()
    ensures Pow(256, 8) == UINT64_RANGE && Pow(256, 32) == UINT64_RANGE * UINT64_RANGE * UINT64_RANGE * UINT64_RANGE
  {
    Eight(0);
    Eight(8);
    Eight(16);
    Eight(24);
  }

  lemma {:induction false} Eight(n: nat)
    ensures Pow(256, n + 8) == Pow(256, n) * UINT64_RANGE
    ensures n == 0 ==> Pow(256, 8) == UINT64_RANGE
  {
    assert Pow(256, n + 1) == Pow(256, n) * 256;
    assert Pow(256, n + 2) == Pow(256, n + 1) * 256;
    assert Pow(256, n + 3) == Pow(256, n + 2) * 256;
    assert Pow(256, n + 4) == Pow(256, n + 3) * 256;
    assert Pow(256, n + 5) == Pow(256, n + 4) * 256;
    assert Pow(256, n + 6) == Pow(256, n + 5) * 256;
    assert Pow(256, n + 7) == Pow(256, n + 6) * 256;
    assert Pow(256, n + 8) == Pow(256, n + 7) * 256;
  }

  /** The product, word by word, and when it stays below the fourth power of the word: the lowest word never matters. */
  lemma {:induction false} ProductIsSum(w0: nat, w1: nat, w2: nat, w3: nat, d: nat)
    requires w0 < UINT64_RANGE && w1 < UINT64_RANGE && w2 < UINT64_RANGE && w3 < UINT64_RANGE && d < UINT64_RANGE
    ensures var b := UINT64_RANGE;
            var (p0, p1, p2, p3) := (Mul128(w0, d), Mul128(w1, d), Mul128(w2, d), Mul128(w3, d));
            var c1 := if p0.1 + p1.0 >= b then 1 else 0;
            var c2 := if p1.1 + p2.0 + c1 >= b then 1 else 0;
            (w0 + b * (w1 + b * (w2 + b * w3))) * d < b * b * b * b <==> p3.1 == 0 && p2.1 + p3.0 + c2 < b
    ensures forall w: nat :: w < UINT64_RANGE ==> Mul128(w, d).0 < UINT64_RANGE && Mul128(w, d).1 < UINT64_RANGE
  {
    var b := UINT64_RANGE;
    var p0, p1, p2, p3 := Mul128(w0, d), Mul128(w1, d), Mul128(w2, d), Mul128(w3, d);
    forall w: nat | w < b
      ensures Mul128(w, d).0 < b && Mul128(w, d).1 < b && w * d == Mul128(w, d).0 + b * Mul128(w, d).1
    {
      HighWordFits(w, d);
    }
    Distribute(w0, w1, w2, w3, d);
    hide Mul128;
    Carry(w0 * d, w1 * d, w2 * d, w3 * d, p0, p1, p2, p3);
  }

  lemma {:induction false} HighWordFits(w: nat, d: nat)
    requires w < UINT64_RANGE && d < UINT64_RANGE
    ensures w * d / UINT64_RANGE < UINT64_RANGE
  {
    ProductNotLess(UINT64_RANGE, w, d);
    QuotientBelow(w * d, UINT64_RANGE, UINT64_RANGE);
  }

  lemma {:induction false} Distribute(w0: nat, w1: nat, w2: nat, w3: nat, d: nat)
    ensures (w0 + UINT64_RANGE * (w1 + UINT64_RANGE * (w2 + UINT64_RANGE * w3))) * d ==
            w0 * d + UINT64_RANGE * (w1 * d + UINT64_RANGE * (w2 * d + UINT64_RANGE * (w3 * d)))
  {
  }

  lemma {:induction false} Carry(x0: nat, x1: nat, x2: nat, x3: nat, p0: (nat, nat), p1: (nat, nat), p2: (nat, nat),
                                 p3: (nat, nat))
    requires var b := UINT64_RANGE;
             && p0.0 < b && p1.0 < b && p2.0 < b && p3.0 < b && p0.1 < b && p1.1 < b && p2.1 < b && p3.1 < b
             && x0 == p0.0 + b * p0.1 && x1 == p1.0 + b * p1.1 && x2 == p2.0 + b * p2.1 && x3 == p3.0 + b * p3.1
    ensures var b := UINT64_RANGE;
            var c1 := if p0.1 + p1.0 >= b then 1 else 0;
            var c2 := if p1.1 + p2.0 + c1 >= b then 1 else 0;
            x0 + b * (x1 + b * (x2 + b * x3)) < b * b * b * b <==> p3.1 == 0 && p2.1 + p3.0 + c2 < b
  {
  }
}
