/** Bytes as text, block by block: eight bytes become eleven symbols of an alphabet of 58. */
module Base58 {
  import opened ChainTypes
  import opened Numerals

  const ALPHABET_SIZE := 58
  const ENCODED_BLOCK_SIZES: seq<nat> := [0, 2, 3, 5, 6, 7, 9, 10, 11]
  const FULL_BLOCK_SIZE := 8
  const FULL_ENCODED_BLOCK_SIZE := 11

  // ---- symbols ----

  /** The alphabet leaves out 0, I, O and l. */
  function Symbol(d: nat): char
    requires d < ALPHABET_SIZE
  {
    if d < 9 then ('1' as int + d) as char
    else if d < 17 then ('A' as int + d - 9) as char
    else if d < 22 then ('J' as int + d - 17) as char
    else if d < 33 then ('P' as int + d - 22) as char
    else if d < 44 then ('a' as int + d - 33) as char
    else ('m' as int + d - 44) as char
  }

  /** The digit that a symbol stands for, or -1. */
  function Figure(c: char): (r: int)
    ensures -1 <= r < ALPHABET_SIZE
    ensures r >= 0 ==> Symbol(r) == c
  {
    if '1' <= c <= '9' then c as int - '1' as int
    else if 'A' <= c <= 'H' then c as int - 'A' as int + 9
    else if 'J' <= c <= 'N' then c as int - 'J' as int + 17
    else if 'P' <= c <= 'Z' then c as int - 'P' as int + 22
    else if 'a' <= c <= 'k' then c as int - 'a' as int + 33
    else if 'm' <= c <= 'z' then c as int - 'm' as int + 44
    else -1
  }

  lemma {:induction false} FigureOfSymbol(d: nat)
    requires d < ALPHABET_SIZE
    ensures Figure(Symbol(d)) == d
  {
  }

  function Symbols(ds: seq<nat>): (s: string)
    requires AllBelow(ds, ALPHABET_SIZE)
    ensures |s| == |ds| && forall i | 0 <= i < |s| :: s[i] == Symbol(ds[i])
  {
    if ds == [] then [] else Symbols(ds[..|ds| - 1]) + [Symbol(ds[|ds| - 1])]
  }

  predicate IsText(s: string) {
    forall i | 0 <= i < |s| :: Figure(s[i]) >= 0
  }

  function Figures(s: string): (ds: seq<nat>)
    requires IsText(s)
    ensures |ds| == |s| && AllBelow(ds, ALPHABET_SIZE) && forall i | 0 <= i < |s| :: ds[i] == Figure(s[i])
  {
    if s == [] then [] else Figures(s[..|s| - 1]) + [Figure(s[|s| - 1])]
  }

  lemma {:induction false} FiguresOfSymbols(ds: seq<nat>)
    requires AllBelow(ds, ALPHABET_SIZE)
    ensures IsText(Symbols(ds)) && Figures(Symbols(ds)) == ds
  {
    forall i | 0 <= i < |ds|
      ensures Figure(Symbols(ds)[i]) == ds[i]
    {
      FigureOfSymbol(ds[i]);
    }
  }

  lemma {:induction false} SymbolsOfFigures(s: string)
    requires IsText(s)
    ensures Symbols(Figures(s)) == s
  {
  }

  // ---- blocks ----

  function DecodedSize(n: nat): int {
    match n
    case 0 => 0 case 2 => 1 case 3 => 2 case 5 => 3 case 6 => 4 case 7 => 5 case 9 => 6 case 10 => 7 case 11 => 8
    case _ => -1
  }

  lemma {:induction false} BlockFits(n: nat)
    requires n <= FULL_BLOCK_SIZE
    ensures DecodedSize(ENCODED_BLOCK_SIZES[n]) == n && ENCODED_BLOCK_SIZES[n] <= FULL_ENCODED_BLOCK_SIZE
    ensures n < FULL_BLOCK_SIZE ==> ENCODED_BLOCK_SIZES[n] < FULL_ENCODED_BLOCK_SIZE
    ensures n > 0 ==> ENCODED_BLOCK_SIZES[n] > 0
    ensures Pow(256, n) <= Pow(ALPHABET_SIZE, ENCODED_BLOCK_SIZES[n])
  {
    PowersOf256();
    PowersOf58();
  }

  lemma {:induction false} PowersOf58()
    ensures Pow(58, 0) == 1 && Pow(58, 2) == 3364 && Pow(58, 3) == 195112 && Pow(58, 5) == 656356768
            && Pow(58, 6) == 38068692544
    ensures Pow(58, 7) == 2207984167552 && Pow(58, 9) == 7427658739644928 && Pow(58, 10) == 430804206899405824
    ensures Pow(58, 11) == 24986644000165537792
  {
    assert Pow(58, 1) == Pow(58, 0) * 58;
    assert Pow(58, 2) == Pow(58, 1) * 58;
    assert Pow(58, 3) == Pow(58, 2) * 58;
    assert Pow(58, 4) == Pow(58, 3) * 58;
    assert Pow(58, 5) == Pow(58, 4) * 58;
    assert Pow(58, 6) == Pow(58, 5) * 58;
    assert Pow(58, 7) == Pow(58, 6) * 58;
    assert Pow(58, 8) == Pow(58, 7) * 58;
    assert Pow(58, 9) == Pow(58, 8) * 58;
    assert Pow(58, 10) == Pow(58, 9) * 58;
    assert Pow(58, 11) == Pow(58, 10) * 58;
  }

  /** A block as symbols: its value in base 58, with as many digits as its size asks for. */
  function EncodedBlock(b: seq<Byte>): (s: string)
    requires 0 < |b| <= FULL_BLOCK_SIZE
    ensures |s| == ENCODED_BLOCK_SIZES[|b|]
  {
    Symbols(Digits(Value(b, 256), ALPHABET_SIZE, ENCODED_BLOCK_SIZES[|b|]))
  }

  /** The bytes of a block, unless its size, a symbol or its value is impossible. */
  function DecodedBlock(s: string): Option<seq<Byte>>
    requires 0 < |s| <= FULL_ENCODED_BLOCK_SIZE
  {
    var size := DecodedSize(|s|);
    if size <= 0 || !IsText(s) then None
    else
      var v := Value(Figures(s), ALPHABET_SIZE);
      var bytes: seq<Byte> := Digits(v, 256, size);
      if v >= UINT64_RANGE || v >= Pow(256, size) then None else Some(bytes)
  }

  lemma {:induction false} BlockRoundTrip(b: seq<Byte>)
    requires 0 < |b| <= FULL_BLOCK_SIZE
    ensures 0 < |EncodedBlock(b)| <= FULL_ENCODED_BLOCK_SIZE && DecodedBlock(EncodedBlock(b)) == Some(b)
  {
    hide Pow, Value, Digits, Figures;
    var v, size := Value(b, 256), ENCODED_BLOCK_SIZES[|b|];
    BlockFits(|b|);
    ValueBound(b, 256);
    SmallEnough(|b|);
    ValueOfDigits(v, ALPHABET_SIZE, size);
    FiguresOfSymbols(Digits(v, ALPHABET_SIZE, size));
    DigitsOfValue(b, 256);
  }

  lemma {:induction false} SmallEnough(n: nat)
    requires n <= FULL_BLOCK_SIZE
    ensures Pow(256, n) <= UINT64_RANGE
  {
    PowersOf256();
  }

  lemma {:induction false} SizeRoundTrip(m: nat)
    requires m <= FULL_ENCODED_BLOCK_SIZE && DecodedSize(m) >= 0
    ensures DecodedSize(m) <= FULL_BLOCK_SIZE && ENCODED_BLOCK_SIZES[DecodedSize(m)] == m
    ensures m > 0 ==> DecodedSize(m) > 0
    ensures DecodedSize(m) == FULL_BLOCK_SIZE <==> m == FULL_ENCODED_BLOCK_SIZE
  {
  }

  /** Whatever is accepted is the encoding of what it decodes to. */
  lemma {:induction false} AcceptedBlock(s: string)
    requires 0 < |s| <= FULL_ENCODED_BLOCK_SIZE && DecodedBlock(s).Some?
    ensures var b := DecodedBlock(s).value;
            0 < |b| <= FULL_BLOCK_SIZE && |b| == DecodedSize(|s|) && EncodedBlock(b) == s
  {
    var v, size := Value(Figures(s), ALPHABET_SIZE), DecodedSize(|s|);
    SizeRoundTrip(|s|);
    ValueOfDigits(v, 256, size);
    DigitsOfValue(Figures(s), ALPHABET_SIZE);
    SymbolsOfFigures(s);
  }

  // ---- whole texts ----

  function Encoded(data: seq<Byte>): string {
    if data == [] then ""
    else if |data| < FULL_BLOCK_SIZE then EncodedBlock(data)
    else EncodedBlock(data[..FULL_BLOCK_SIZE]) + Encoded(data[FULL_BLOCK_SIZE..])
  }

  function Decoded(s: string): Option<seq<Byte>> {
    if s == "" then Some([])
    else if |s| < FULL_ENCODED_BLOCK_SIZE then DecodedBlock(s)
    else
      match DecodedBlock(s[..FULL_ENCODED_BLOCK_SIZE])
      case None => None
      case Some(b) =>
        match Decoded(s[FULL_ENCODED_BLOCK_SIZE..])
        case None => None
        case Some(rest) => Some(b + rest)
  }

  /** Decoding undoes encoding, for every byte string. */
  lemma {:induction false} DecodeUndoesEncode(data: seq<Byte>)
    ensures Decoded(Encoded(data)) == Some(data)
  {
    hide EncodedBlock, DecodedBlock, Pow;
    if data == [] {
    } else if |data| < FULL_BLOCK_SIZE {
      BlockFits(|data|);
      BlockRoundTrip(data);
    } else {
      var b, rest := data[..FULL_BLOCK_SIZE], data[FULL_BLOCK_SIZE..];
      BlockRoundTrip(b);
      DecodeUndoesEncode(rest);
      var s := EncodedBlock(b) + Encoded(rest);
      assert s[..FULL_ENCODED_BLOCK_SIZE] == EncodedBlock(b) && s[FULL_ENCODED_BLOCK_SIZE..] == Encoded(rest);
      assert data == b + rest;
    }
  }

  /** And encoding undoes decoding, for every text that is accepted: no byte string has two texts. */
  lemma {:induction false} EncodeUndoesDecode(s: string)
    requires Decoded(s).Some?
    ensures Encoded(Decoded(s).value) == s
  {
    hide EncodedBlock, DecodedBlock, Pow;
    if s == "" {
    } else if |s| < FULL_ENCODED_BLOCK_SIZE {
      AcceptedBlock(s);
      SizeRoundTrip(|s|);
    } else {
      var first, rest := s[..FULL_ENCODED_BLOCK_SIZE], s[FULL_ENCODED_BLOCK_SIZE..];
      AcceptedBlock(first);
      EncodeUndoesDecode(rest);
      var b, more := DecodedBlock(first).value, Decoded(rest).value;
      assert (b + more)[..FULL_BLOCK_SIZE] == b && (b + more)[FULL_BLOCK_SIZE..] == more;
      assert s == first + rest;
    }
  }

  // ---- the loops ----

  /** The number with the bytes data[from..from + size], the first being the most significant. */
  method FromBytes(data: seq<Byte>, from: nat, size: nat) returns (num: nat)
    requires 1 <= size <= 8 && from + size <= |data|
    ensures num == Value(data[from..from + size], 256) && num < UINT64_RANGE
  {
    hide Value, Pow;
    ghost var b := data[from..from + size];
    assert b[..0] == [] && b[..size] == b;
    NoDigits(256);
    num := 0;
    for i := 0 to size
      invariant num == Value(b[..i], 256)
    {
      assert b[..i + 1] == b[..i] + [b[i]] && b[i] == data[from + i];
      ValueBack(b[..i], b[i], 256);
      num := num * 256 + data[from + i];
    }
    ValueBound(b, 256);
    SmallEnough(size);
  }

  lemma {:induction false} NoDigits(base: nat)
    ensures Value([], base) == 0
  {
  }

  lemma {:induction false} DigitsOfZero(base: nat, size: nat)
    requires base >= 1
    ensures forall i | 0 <= i < size :: Digits(0, base, size)[i] == 0
  {
    if size > 0 {
      assert 0 / base == 0 && 0 % base == 0;
      DigitsOfZero(base, size - 1);
    }
  }

  /** Writes a block over symbols for zero. A digit left over always has its place: nothing is written outside. */
  method EncodeBlock(data: seq<Byte>, from: nat, size: nat, res: array<char>, at: nat)
    requires 1 <= size <= FULL_BLOCK_SIZE && from + size <= |data| && at + ENCODED_BLOCK_SIZES[size] <= res.Length
    requires forall k | at <= k < at + ENCODED_BLOCK_SIZES[size] :: res[k] == Symbol(0)
    modifies res
    ensures res[at..at + ENCODED_BLOCK_SIZES[size]] == EncodedBlock(data[from..from + size])
    ensures forall k | 0 <= k < res.Length && !(at <= k < at + ENCODED_BLOCK_SIZES[size]) :: res[k] == old(res[k])
  {
    var num := FromBytes(data, from, size);
    ValueBound(data[from..from + size], 256);
    BlockFits(size);
    WriteDigits(num, ENCODED_BLOCK_SIZES[size], res, at);
  }

  /** Writes the digits of a number from the last to the first. The zeros in front are there already. */
  method WriteDigits(value: nat, total: nat, res: array<char>, at: nat)
    requires value < Pow(ALPHABET_SIZE, total) && at + total <= res.Length
    requires forall k | at <= k < at + total :: res[k] == Symbol(0)
    modifies res
    ensures res[at..at + total] == Symbols(Digits(value, ALPHABET_SIZE, total))
    ensures forall k | 0 <= k < res.Length && !(at <= k < at + total) :: res[k] == old(res[k])
  {
    hide Symbol, Pow, Digits;
    var num: nat := value;
    var i := total - 1;
    ghost var digits := Digits(value, ALPHABET_SIZE, total);
    assert digits[..total] == digits;
    while 0 < num
      invariant -1 <= i < total && num < Pow(ALPHABET_SIZE, i + 1)
      invariant digits[..i + 1] == Digits(num, ALPHABET_SIZE, i + 1)
      invariant forall k | at + i < k < at + total :: res[k] == Symbol(digits[k - at])
      invariant forall k | at <= k <= at + i :: res[k] == Symbol(0)
      invariant forall k | 0 <= k < res.Length && !(at <= k < at + total) :: res[k] == old(res[k])
    {
      NotOnlyZeroDigits(num, i);
      OneDigitLess(num, i);
      assert digits[..i] == digits[..i + 1][..i] && digits[i] == digits[..i + 1][i];
      var remainder := num % ALPHABET_SIZE;
      num := num / ALPHABET_SIZE;
      res[at + i] := Symbol(remainder);
      i := i - 1;
    }
    DigitsOfZero(ALPHABET_SIZE, i + 1);
    forall k | at <= k < at + total
      ensures res[k] == Symbol(digits[k - at])
    {
      assert k <= at + i ==> digits[k - at] == digits[..i + 1][k - at];
    }
    assert res[at..at + total] == Symbols(digits);
  }

  lemma {:induction false} NotOnlyZeroDigits(num: nat, i: int)
    requires i >= -1 && 0 < num < Pow(ALPHABET_SIZE, i + 1)
    ensures i >= 0
  {
  }

  lemma {:induction false} OneDigitLess(num: nat, i: nat)
    requires num < Pow(ALPHABET_SIZE, i + 1)
    ensures num / ALPHABET_SIZE < Pow(ALPHABET_SIZE, i)
    ensures Digits(num, ALPHABET_SIZE, i + 1)[..i] == Digits(num / ALPHABET_SIZE, ALPHABET_SIZE, i)
    ensures Digits(num, ALPHABET_SIZE, i + 1)[i] == num % ALPHABET_SIZE
  {
    QuotientBelow(num, Pow(ALPHABET_SIZE, i), ALPHABET_SIZE);
  }

  /** Reads a block. An overflow is noticed where it happens, whether in a product or in a sum. */
  method DecodeBlock(enc: string, from: nat, size: nat, res: array<Byte>, at: nat) returns (ok: bool)
    requires 1 <= size <= FULL_ENCODED_BLOCK_SIZE && from + size <= |enc|
    requires DecodedSize(size) > 0 ==> at + DecodedSize(size) <= res.Length
    modifies res
    ensures ok == DecodedBlock(enc[from..from + size]).Some?
    ensures ok ==>
              DecodedSize(size) > 0
              && res[at..at + DecodedSize(size)] == DecodedBlock(enc[from..from + size]).value
    ensures forall k | 0 <= k < res.Length && !(at <= k < at + DecodedSize(size)) :: res[k] == old(res[k])
  {
    hide Pow, Figure, DecodedBlock, ValueFrom, IsText, DecodedSize;
    ghost var s := enc[from..from + size];
    var resSize := DecodedSize(size);
    if resSize <= 0 {
      WrongSize(s);
      return false;
    }
    var resNum: nat, order: nat := 0, 1;
    var i: nat := size;
    NothingRead(s);
    while i > 0
      invariant i <= size && IsText(s[i..]) && resNum == ValueFrom(s, i) < UINT64_RANGE
      invariant i > 0 ==> order == Pow(ALPHABET_SIZE, size - i)
      invariant forall k | 0 <= k < res.Length :: res[k] == old(res[k])
    {
      i := i - 1;
      var digit := Figure(enc[from + i]);
      assert s[i] == enc[from + i];
      if digit < 0 {
        NotText(s, i);
        return false;
      }
      PrependFigure(s, i);
      var product, tmp := TimesAndPlus(order, digit, resNum);
      if tmp < resNum || product / UINT64_RANGE != 0 {
        TooLarge(s, i);
        return false;
      }
      resNum := tmp;
      order := NextFactor(order, size - i - 1);
    }
    DecodedBlockIs(s);
    if resNum >= Pow(256, resSize) {
      return false;
    }
    ToBytes(resNum, resSize, res, at);
    return true;
  }

  ghost function ValueFrom(s: string, i: nat): nat
    requires i <= |s| && IsText(s[i..])
  {
    Value(Figures(s[i..]), ALPHABET_SIZE)
  }

  lemma {:induction false} WrongSize(s: string)
    requires 0 < |s| <= FULL_ENCODED_BLOCK_SIZE && DecodedSize(|s|) <= 0
    ensures DecodedBlock(s).None?
  {
  }

  lemma {:induction false} NothingRead(s: string)
    ensures IsText(s[|s|..]) && ValueFrom(s, |s|) == 0 && Pow(ALPHABET_SIZE, 0) == 1
  {
  }

  lemma {:induction false} OverflowIsNoticed(a: nat, product: nat)
    requires a < UINT64_RANGE
    ensures var sum := (a + product % UINT64_RANGE) % UINT64_RANGE;
            && (sum < a || product / UINT64_RANGE != 0 <==> a + product >= UINT64_RANGE)
            && (a + product < UINT64_RANGE ==> sum == a + product)
  {
  }

  /** The product of the place and the figure, and what adding it in 64 bits gives. */
  method TimesAndPlus(order: nat, digit: nat, sum: nat) returns (product: nat, tmp: nat)
    requires sum < UINT64_RANGE
    ensures product == order * digit == digit * order
    ensures tmp < sum || product / UINT64_RANGE != 0 <==> sum + product >= UINT64_RANGE
    ensures sum + product < UINT64_RANGE ==> tmp == sum + product
  {
    product := order * digit;
    tmp := (sum + product % UINT64_RANGE) % UINT64_RANGE;
    OverflowIsNoticed(sum, product);
  }

  /** The next place in 64 bits; after the last of eleven places it is not used. */
  method NextFactor(order: nat, ghost n: nat) returns (next: nat)
    ensures n < 10 && order == Pow(ALPHABET_SIZE, n) ==> next == Pow(ALPHABET_SIZE, n + 1)
  {
    next := order * ALPHABET_SIZE % UINT64_RANGE;
    if n < 10 {
      NextOrder(n);
    }
  }

  lemma {:induction false} DecodedBlockIs(s: string)
    requires 0 < |s| <= FULL_ENCODED_BLOCK_SIZE && DecodedSize(|s|) > 0 && IsText(s[0..])
    ensures var v, size := ValueFrom(s, 0), DecodedSize(|s|);
            if v < UINT64_RANGE && v < Pow(256, size) then DecodedBlock(s) == Some(Digits(v, 256, size))
                else DecodedBlock(s).None?
  {
    assert s[0..] == s;
  }

  lemma {:induction false} NotText(s: string, i: nat)
    requires i < |s| <= FULL_ENCODED_BLOCK_SIZE && Figure(s[i]) < 0
    ensures DecodedBlock(s).None?
  {
    hide Figure;
    assert !IsText(s);
  }

  lemma {:induction false} NextOrder(n: nat)
    requires n < 10
    ensures Pow(ALPHABET_SIZE, n + 1) == Pow(ALPHABET_SIZE, n) * ALPHABET_SIZE < UINT64_RANGE
  {
    PowersOf58();
    PowMonotone(n + 1, 10);
  }

  lemma {:induction false} PowMonotone(m: nat, n: nat)
    requires m <= n
    ensures Pow(ALPHABET_SIZE, m) <= Pow(ALPHABET_SIZE, n)
    decreases n
  {
    if m < n {
      PowMonotone(m, n - 1);
    }
  }

  lemma {:induction false} PrependFigure(s: string, i: nat)
    requires i < |s| && Figure(s[i]) >= 0 && IsText(s[i + 1..])
    ensures IsText(s[i..])
    ensures ValueFrom(s, i) == Figure(s[i]) * Pow(ALPHABET_SIZE, |s| - i - 1) + ValueFrom(s, i + 1)
  {
    hide Figure;
    var tail := s[i + 1..];
    assert s[i..] == [s[i]] + tail;
    assert Figures(s[i..]) == [Figure(s[i])] + Figures(tail);
    ValueFront(Figure(s[i]), Figures(tail), ALPHABET_SIZE);
  }

  /** More symbols in front only make the number larger. */
  lemma {:induction false} TooLarge(s: string, i: nat)
    requires i < |s| <= FULL_ENCODED_BLOCK_SIZE && IsText(s[i..]) && ValueFrom(s, i) >= UINT64_RANGE
    ensures DecodedBlock(s).None?
  {
    hide Figure;
    if i > 0 {
      if Figure(s[i - 1]) < 0 {
        NotText(s, i - 1);
      } else {
        PrependFigure(s, i - 1);
        assert Figure(s[i - 1]) * Pow(ALPHABET_SIZE, |s| - i) >= 0;
        TooLarge(s, i - 1);
      }
    } else {
      assert s[0..] == s;
    }
  }

  /** The low bytes of a number, the most significant first. */
  method ToBytes(num: nat, size: nat, data: array<Byte>, at: nat)
    requires at + size <= data.Length
    modifies data
    ensures data[at..at + size] == Digits(num, 256, size)
    ensures forall k | 0 <= k < data.Length && !(at <= k < at + size) :: data[k] == old(data[k])
  {
    var v, i := num, size;
    ghost var tail: seq<nat> := [];
    while i > 0
      invariant 0 <= i <= size && |tail| == size - i
      invariant Digits(num, 256, size) == Digits(v, 256, i) + tail
      invariant forall k | 0 <= k < |tail| :: data[at + i + k] == tail[k]
      invariant forall k | 0 <= k < data.Length && !(at <= k < at + size) :: data[k] == old(data[k])
    {
      i := i - 1;
      data[at + i] := v % 256;
      assert Digits(v, 256, i + 1) + tail == Digits(v / 256, 256, i) + ([v % 256] + tail);
      tail := [v % 256] + tail;
      v := v / 256;
    }
    assert data[at..at + size] == tail;
  }

  /** After n full blocks, one more. */
  method EncodeNext(data: seq<Byte>, n: nat, size: nat, res: array<char>)
    requires 1 <= size <= FULL_BLOCK_SIZE && n * FULL_BLOCK_SIZE + size <= |data|
    requires n * FULL_ENCODED_BLOCK_SIZE + ENCODED_BLOCK_SIZES[size] <= res.Length
    requires res[..n * FULL_ENCODED_BLOCK_SIZE] == Encoded(data[..n * FULL_BLOCK_SIZE])
    requires forall k | n * FULL_ENCODED_BLOCK_SIZE <= k < res.Length :: res[k] == Symbol(0)
    modifies res
    ensures res[..n * FULL_ENCODED_BLOCK_SIZE + ENCODED_BLOCK_SIZES[size]]
            == Encoded(data[..n * FULL_BLOCK_SIZE + size])
    ensures forall k | n * FULL_ENCODED_BLOCK_SIZE + ENCODED_BLOCK_SIZES[size] <= k < res.Length :: res[k] == Symbol(0)
  {
    hide Encoded, EncodedBlock, Symbol, Pow;
    var from, at, e := n * FULL_BLOCK_SIZE, n * FULL_ENCODED_BLOCK_SIZE, ENCODED_BLOCK_SIZES[size];
    ghost var before := res[..at];
    EncodeBlock(data, from, size, res, at);
    assert res[..at] == before;
    assert res[..at + e] == before + res[at..at + e];
    assert data[..from + size] == data[..from] + data[from..from + size];
    EncodedMore(data[..from], data[from..from + size], n);
  }

  method Encode(data: seq<Byte>) returns (s: string)
    ensures s == Encoded(data)
  {
    hide Encoded, EncodedBlock, Symbol, Pow;
    EncodedNothing();
    if data == [] {
      return "";
    }
    var fullBlocks: nat, lastSize: nat := |data| / FULL_BLOCK_SIZE, |data| % FULL_BLOCK_SIZE;
    var size := fullBlocks * FULL_ENCODED_BLOCK_SIZE + ENCODED_BLOCK_SIZES[lastSize];
    var res := new char[size](_ => Symbol(0));
    assert data[..0] == [] && res[..0] == [];
    var i: nat := 0;
    while i < fullBlocks
      invariant i <= fullBlocks
      invariant res[..i * FULL_ENCODED_BLOCK_SIZE] == Encoded(data[..i * FULL_BLOCK_SIZE])
      invariant forall k | i * FULL_ENCODED_BLOCK_SIZE <= k < size :: res[k] == Symbol(0)
    {
      EncodeNext(data, i, FULL_BLOCK_SIZE, res);
      i := i + 1;
    }
    if lastSize > 0 {
      EncodeNext(data, fullBlocks, lastSize, res);
    }
    s := res[..];
    assert s == res[..size];
    assert data == data[..fullBlocks * FULL_BLOCK_SIZE + lastSize];
  }

  lemma {:induction false} EncodedNothing()
    ensures Encoded([]) == ""
  {
  }

  /** Full blocks and one more. */
  lemma {:induction false} EncodedMore(full: seq<Byte>, b: seq<Byte>, n: nat)
    requires |full| == n * FULL_BLOCK_SIZE && 0 < |b| <= FULL_BLOCK_SIZE
    ensures Encoded(full + b) == Encoded(full) + EncodedBlock(b)
  {
    hide EncodedBlock, Pow;
    if n == 0 {
      assert full == [] && full + b == b;
      if |b| == FULL_BLOCK_SIZE {
        assert b[..FULL_BLOCK_SIZE] == b && b[FULL_BLOCK_SIZE..] == [];
        assert EncodedBlock(b) + "" == EncodedBlock(b);
      }
    } else {
      EncodedMore(full[FULL_BLOCK_SIZE..], b, n - 1);
      assert (full + b)[..FULL_BLOCK_SIZE] == full[..FULL_BLOCK_SIZE];
      assert (full + b)[FULL_BLOCK_SIZE..] == full[FULL_BLOCK_SIZE..] + b;
    }
  }

  /** After n full blocks, one more. */
  method DecodeNext(enc: string, n: nat, size: nat, res: array<Byte>) returns (ok: bool)
    requires 1 <= size <= FULL_ENCODED_BLOCK_SIZE && n * FULL_ENCODED_BLOCK_SIZE + size <= |enc|
             && DecodedSize(size) > 0
    requires n * FULL_BLOCK_SIZE + DecodedSize(size) <= res.Length
    requires Decoded(enc[..n * FULL_ENCODED_BLOCK_SIZE]) == Some(res[..n * FULL_BLOCK_SIZE])
    modifies res
    ensures Decoded(enc[..n * FULL_ENCODED_BLOCK_SIZE + size]) ==
            if ok then Some(res[..n * FULL_BLOCK_SIZE + DecodedSize(size)]) else None
  {
    hide Decoded, DecodedBlock, Pow, DecodedSize;
    var from, at, d := n * FULL_ENCODED_BLOCK_SIZE, n * FULL_BLOCK_SIZE, DecodedSize(size);
    ghost var before := res[..at];
    ok := DecodeBlock(enc, from, size, res, at);
    assert res[..at] == before;
    assert ok ==> res[..at + d] == before + res[at..at + d];
    assert enc[..from + size] == enc[..from] + enc[from..from + size];
    DecodedMore(enc[..from], enc[from..from + size], n);
  }

  method Decode(enc: string) returns (ok: bool, data: seq<Byte>)
    ensures ok == Decoded(enc).Some? && (ok ==> data == Decoded(enc).value)
  {
    hide Decoded, DecodedBlock, Pow;
    DecodedNothing();
    if enc == "" {
      return true, [];
    }
    var fullBlocks: nat, lastSize: nat := |enc| / FULL_ENCODED_BLOCK_SIZE, |enc| % FULL_ENCODED_BLOCK_SIZE;
    var lastDecoded := DecodedSize(lastSize);
    if lastDecoded < 0 {
      WrongLength(enc, fullBlocks);
      return false, [];
    }
    var size := fullBlocks * FULL_BLOCK_SIZE + lastDecoded;
    var res := new Byte[size](_ => 0);
    assert enc[..0] == "" && res[..0] == [];
    var i: nat := 0;
    while i < fullBlocks
      invariant i <= fullBlocks
      invariant Decoded(enc[..i * FULL_ENCODED_BLOCK_SIZE]) == Some(res[..i * FULL_BLOCK_SIZE])
    {
      ok := DecodeNext(enc, i, FULL_ENCODED_BLOCK_SIZE, res);
      if !ok {
        DecodedPrefix(enc, i + 1);
        return false, [];
      }
      i := i + 1;
    }
    assert enc == enc[..fullBlocks * FULL_ENCODED_BLOCK_SIZE + lastSize];
    if lastSize > 0 {
      ok := DecodeNext(enc, fullBlocks, lastSize, res);
      if !ok {
        return false, [];
      }
    }
    data := res[..];
    assert data == res[..size];
    ok := true;
  }

  lemma {:induction false} DecodedNothing()
    ensures Decoded("") == Some([])
  {
  }

  lemma {:induction false} DecodedMore(full: string, s: string, n: nat)
    requires |full| == n * FULL_ENCODED_BLOCK_SIZE && 0 < |s| <= FULL_ENCODED_BLOCK_SIZE
    ensures Decoded(full + s) == if Decoded(full).Some? && DecodedBlock(s).Some?
            then Some(Decoded(full).value + DecodedBlock(s).value) else None
  {
    hide DecodedBlock, Pow;
    if n == 0 {
      assert full == "" && full + s == s;
      if |s| == FULL_ENCODED_BLOCK_SIZE {
        assert s[..FULL_ENCODED_BLOCK_SIZE] == s && s[FULL_ENCODED_BLOCK_SIZE..] == "";
        assert DecodedBlock(s).Some? ==>
            DecodedBlock(s).value + [] == DecodedBlock(s).value == [] + DecodedBlock(s).value;
      } else {
        assert DecodedBlock(s).Some? ==> [] + DecodedBlock(s).value == DecodedBlock(s).value;
      }
    } else {
      var first, rest := full[..FULL_ENCODED_BLOCK_SIZE], full[FULL_ENCODED_BLOCK_SIZE..];
      DecodedMore(rest, s, n - 1);
      assert (full + s)[..FULL_ENCODED_BLOCK_SIZE] == first && (full + s)[FULL_ENCODED_BLOCK_SIZE..] == rest + s;
      if DecodedBlock(first).Some? && Decoded(rest).Some? && DecodedBlock(s).Some? {
        AppendIsAssociative(DecodedBlock(first).value, Decoded(rest).value, DecodedBlock(s).value);
      }
    }
  }

  lemma {:induction false} AppendIsAssociative(a: seq<Byte>, b: seq<Byte>, c: seq<Byte>)
    ensures a + (b + c) == (a + b) + c
  {
  }

  /** A text is refused if its first blocks are. */
  lemma {:induction false} DecodedPrefix(enc: string, n: nat)
    requires n * FULL_ENCODED_BLOCK_SIZE <= |enc| && Decoded(enc[..n * FULL_ENCODED_BLOCK_SIZE]).None?
    ensures Decoded(enc).None?
  {
    hide DecodedBlock, Pow;
    if n > 0 {
      var prefix := enc[..n * FULL_ENCODED_BLOCK_SIZE];
      assert prefix[..FULL_ENCODED_BLOCK_SIZE] == enc[..FULL_ENCODED_BLOCK_SIZE];
      assert prefix[FULL_ENCODED_BLOCK_SIZE..] == enc[FULL_ENCODED_BLOCK_SIZE..][..(n - 1) * FULL_ENCODED_BLOCK_SIZE];
      if Decoded(prefix[FULL_ENCODED_BLOCK_SIZE..]).None? {
        DecodedPrefix(enc[FULL_ENCODED_BLOCK_SIZE..], n - 1);
      }
    }
  }

  lemma {:induction false} WrongLength(enc: string, n: nat)
    requires |enc| > 0 && n == |enc| / FULL_ENCODED_BLOCK_SIZE && DecodedSize(|enc| % FULL_ENCODED_BLOCK_SIZE) < 0
    ensures Decoded(enc).None?
  {
    hide Pow, IsText, Figures, Value;
    if n > 0 {
      WrongLength(enc[FULL_ENCODED_BLOCK_SIZE..], n - 1);
    }
  }
}
