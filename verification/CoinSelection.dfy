/** Choosing the coins of a transaction: coins are taken off their stacks, put back when the transaction grows too large
    or the fee too small, and chosen again, until what was taken pays for the amount and the fee. */
module CoinSelection {
  import opened ChainTypes
  import opened Numerals
  import opened CoinStacks
  import opened Orders

  const FAKE_LARGE := 1000000000000000000
  const MINIMUM_FEE := 1000000
  const MEDIAN_PERCENT := 12
  const MEDIAN_PERCENT_AGGRESSIVE := 30
  const STACK_OPTIMIZATION_THRESHOLD := 20
  const TWO_THRESHOLD := 10
  const CHANGE_OUTPUTS := 8

  datatype Level = Aggressive | Minimal | Normal

  datatype Selection = Selected(change: int) | NotEnoughFunds | DoesNotFit

  function MaximumTxSize(inputs: nat, outputs: nat, mixin: nat): nat {
    (1 + 8 + 1 + 32) + outputs * (1 + 32 + 10) + inputs * (1 + 10 + 32 + 64 + 1 + 4 + mixin * (4 + 64))
  }

  /** The decimal figure, at the place p, of what is still missing. It is computed with an offset, in 64 bits. */
  function MissingFigure(total: Amount, used: int, p: nat): (f: nat)
    requires p >= 1
    ensures f <= 9
  {
    (FAKE_LARGE + total + p - 1 - used) % UINT64_RANGE / p % 10
  }

  // ---- every coin is accounted for ----

  /** The eligible coins are the ones on the two sets of stacks and the ones taken off them, each as often as it was
      there. */
  ghost predicate Accounted(eligible: multiset<Coin>, have: Stacks, dust: Stacks, taken: seq<Coin>) {
    && Stacked(have, false) && Stacked(dust, true)
    && forall c: Coin {:trigger eligible[c]} :: eligible[c] == CountIn(have, c) + CountIn(dust, c) + multiset(taken)[c]
  }

  ghost predicate AllUsable(cs: seq<Coin>, withDust: bool) {
    forall c <- cs :: Usable(c, withDust)
  }

  lemma {:induction false} TakeIsAccounted(eligible: multiset<Coin>, have: Stacks, dust: Stacks, taken: seq<Coin>,
                                           fromDust: bool, a: Amount)
    requires Accounted(eligible, have, dust, taken) && a in (if fromDust then dust else have)
    ensures fromDust ==> Accounted(eligible, have, Without(dust, a), taken + [Top(dust, a)])
    ensures !fromDust ==> Accounted(eligible, Without(have, a), dust, taken + [Top(have, a)])
    ensures var stacks := if fromDust then dust else have;
            stacks[a] != [] && Top(stacks, a) in eligible && Top(stacks, a).amount == a && IsDust(a) == fromDust
  {
    WithoutCounts(if fromDust then dust else have, a, fromDust);
    var c := Top(if fromDust then dust else have, a);
    assert multiset(taken + [c]) == multiset(taken) + multiset{c};
    assert eligible[c] > 0;
  }

  lemma {:induction false} PutBackIsAccounted(eligible: multiset<Coin>, have: Stacks, dust: Stacks, taken: seq<Coin>)
    requires taken != [] && Accounted(eligible, have, dust, taken)
    ensures var c := taken[0];
            if IsDust(c.amount) then Accounted(eligible, have, With(dust, c), taken[1..])
            else Accounted(eligible, With(have, c), dust, taken[1..])
  {
    var c := taken[0];
    WithCounts(if IsDust(c.amount) then dust else have, c, IsDust(c.amount));
    assert taken == [c] + taken[1..];
    assert multiset(taken) == multiset{c} + multiset(taken[1..]);
  }

  lemma {:induction false} TakenIsBounded(eligible: multiset<Coin>, have: Stacks, dust: Stacks, taken: seq<Coin>)
    requires Accounted(eligible, have, dust, taken)
    ensures |taken| <= |eligible| && multiset(taken) <= eligible
  {
    forall c: Coin
      ensures multiset(taken)[c] <= eligible[c]
    {
    }
    assert eligible == multiset(taken) + (eligible - multiset(taken));
  }

  /** What has been taken is worth no more than what there was, and if nothing usable is left it is worth the same. */
  lemma {:induction false} TakenIsWorth(eligible: multiset<Coin>, have: Stacks, dust: Stacks, taken: seq<Coin>,
                                        withDust: bool)
    requires Accounted(eligible, have, dust, taken) && AllUsable(taken, withDust)
    ensures SumOf(taken) <= Worth(eligible, withDust)
    ensures have == map[] && (withDust ==> dust == map[]) ==> SumOf(taken) == Worth(eligible, withDust)
  {
    WorthOfSum(taken, withDust);
    TakenIsBounded(eligible, have, dust, taken);
    WorthMonotone(multiset(taken), eligible, withDust);
    if have == map[] && (withDust ==> dust == map[]) {
      forall c: Coin | Usable(c, withDust)
        ensures eligible[c] <= multiset(taken)[c]
      {
        assert CountIn(dust, c) == 0;
      }
      WorthMonotone(eligible, multiset(taken), withDust);
    }
  }

  lemma {:induction false} SumAppend(cs: seq<Coin>, c: Coin)
    ensures SumOf(cs + [c]) == SumOf(cs) + c.amount
  {
    assert (cs + [c])[..|cs|] == cs;
  }

  lemma {:induction false} SumDropFirst(cs: seq<Coin>)
    requires cs != []
    ensures SumOf(cs) == cs[0].amount + SumOf(cs[1..])
  {
    if |cs| > 1 {
      var n := |cs| - 1;
      SumDropFirst(cs[..n]);
      assert cs[..n][1..] == cs[1..][..n - 1];
    }
  }

  // ---- orders ----

  /** The first stack of at least x, in the order of the map. */
  method LowerBound(s: Stacks, x: int) returns (r: Option<Amount>)
    ensures r.None? ==> forall a <- s :: a < x
    ensures r.Some? ==> r.value in s && r.value >= x && forall a <- s :: a >= x ==> r.value <= a
  {
    var enough := set a | a in s.Keys && a >= x;
    assert forall a <- s :: a >= x <==> a in enough;
    if enough == {} {
      return None;
    }
    LeastExists(enough);
    var a :| a in enough && forall b <- enough :: a <= b;
    return Some(a);
  }

  method Last(s: Stacks) returns (a: Amount)
    requires s != map[]
    ensures a in s && forall b <- s :: b <= a
  {
    GreatestExists(s.Keys);
    a :| a in s.Keys && forall b <- s.Keys :: b <= a;
  }

  // ---- what to optimize ----

  /** The largest stack above the threshold among some, and the first of those. */
  ghost predicate IsBestStack(have: Stacks, seen: set<Amount>, r: Option<Amount>) {
    match r
    case None => forall a <- seen | a in have :: |have[a]| <= STACK_OPTIMIZATION_THRESHOLD
    case Some(best) =>
      && best in seen && best in have && |have[best]| > STACK_OPTIMIZATION_THRESHOLD
      && forall a <- seen | a in have :: |have[a]| <= |have[best]| && (a < best ==> |have[a]| < |have[best]|)
  }

  function StackWeight(have: Stacks, r: Option<Amount>): nat {
    if r.Some? && r.value in have then |have[r.value]| else STACK_OPTIMIZATION_THRESHOLD
  }

  /** A further stack, behind those seen, is better if it is larger. */
  lemma {:induction false} BestStackStep(have: Stacks, seen: set<Amount>, r: Option<Amount>, a: Amount)
    requires a in have && IsBestStack(have, seen, r) && forall b <- seen :: b < a
    ensures IsBestStack(have, seen + {a}, if |have[a]| > StackWeight(have, r) then Some(a) else r)
  {
  }

  method TakeFirst(todo: set<Amount>) returns (a: Amount, rest: set<Amount>)
    requires todo != {}
    ensures a in todo && rest == todo - {a} && forall b <- rest :: a < b
  {
    LeastExists(todo);
    a :| a in todo && forall b <- todo :: a <= b;
    rest := todo - {a};
  }

  method BestStack(have: Stacks) returns (r: Option<Amount>)
    ensures IsBestStack(have, have.Keys, r)
  {
    hide IsBestStack;
    r := None;
    var todo := have.Keys;
    ghost var seen := {};
    NothingSeen(have);
    while todo != {}
      invariant seen + todo == have.Keys && seen !! todo
      invariant forall a, b | a in seen && b in todo :: a < b
      invariant IsBestStack(have, seen, r)
    {
      var a, rest := TakeFirst(todo);
      BestStackStep(have, seen, r, a);
      if |have[a]| > StackWeight(have, r) {
        r := Some(a);
      }
      todo := rest;
      seen := seen + {a};
    }
    assert seen == have.Keys;
  }

  lemma {:induction false} NothingSeen(have: Stacks)
    ensures IsBestStack(have, {}, None)
  {
  }

  /** Two coins of the same place, with figures a and b, that complete the figure am to ten, one of them from a stack
      that is worth reducing. */
  predicate IsPair(have: Stacks, p: nat, am: nat, a: nat, b: nat) {
    && 1 <= a <= 9 && 1 <= b <= 9 && a * p in have && b * p in have && (a + b + am) % 10 == 0
    && (|have[a * p]| >= TWO_THRESHOLD || |have[b * p]| >= TWO_THRESHOLD)
  }

  function WeightOf(have: Stacks, p: nat, a: nat, b: nat): nat {
    if a * p in have && b * p in have then |have[a * p]| + |have[b * p]| else 0
  }

  method BestPair(have: Stacks, p: nat, am: nat) returns (x: nat, y: nat, weight: nat)
    ensures weight == 0 ==> forall a: nat, b: nat :: !IsPair(have, p, am, a, b)
    ensures weight != 0 ==> IsPair(have, p, am, x, y) && weight == WeightOf(have, p, x, y)
    ensures forall a: nat, b: nat :: IsPair(have, p, am, a, b) ==> WeightOf(have, p, a, b) <= weight
  {
    x, y, weight := 0, 0, 0;
    for i := 1 to 10
      invariant weight != 0 ==> IsPair(have, p, am, x, y) && weight == WeightOf(have, p, x, y)
      invariant forall a: nat, b: nat :: a < i && IsPair(have, p, am, a, b) ==> WeightOf(have, p, a, b) <= weight
    {
      for j := 1 to 10
        invariant weight != 0 ==> IsPair(have, p, am, x, y) && weight == WeightOf(have, p, x, y)
        invariant forall a: nat, b: nat :: (a < i || (a == i && b < j)) && IsPair(have, p, am, a, b) ==>
                  WeightOf(have, p, a, b) <= weight
      {
        if IsPair(have, p, am, i, j) && WeightOf(have, p, i, j) > weight {
          x, y, weight := i, j, WeightOf(have, p, i, j);
        }
      }
    }
  }

  /** A coin whose figure is exactly what is missing, or else a coin from the largest stack above it. */
  method BestSingle(have: Stacks, p: nat, am: nat) returns (x: nat)
    requires 1 <= am <= 9 && forall a <- have :: have[a] != []
    ensures x == 0 ==> forall a | 10 - am <= a <= 9 :: a * p !in have
    ensures x != 0 ==> 10 - am <= x <= 9 && x * p in have
    ensures x > 10 - am ==> (10 - am) * p !in have
    ensures x > 10 - am ==> forall a | 10 - am < a <= 9 && a * p in have :: |have[a * p]| <= |have[x * p]|
  {
    x := 0;
    var bestWeight := 0;
    for i := 1 to 10
      invariant x == 0 ==> bestWeight == 0 && forall a | 10 - am <= a < i :: a * p !in have
      invariant x != 0 ==> 10 - am < x <= 9 && x * p in have && |have[x * p]| == bestWeight && (10 - am) * p !in have
      invariant i > 10 - am ==> (10 - am) * p !in have
      invariant forall a | 10 - am < a < i && a * p in have :: |have[a * p]| <= bestWeight
    {
      if i * p in have {
        if (i + am) % 10 == 0 {
          x := i;
          break;
        } else if i > 10 - am && |have[i * p]| > bestWeight {
          bestWeight := |have[i * p]|;
          x := i;
        }
      }
    }
  }

  /** Taking coins whose figures at a place complete the missing figure to ten clears that figure. */
  lemma {:induction false} CompletingClearsFigure(total: Amount, used: int, p: nat, s: nat)
    requires p >= 1 && (s + 10 - MissingFigure(total, used, p)) % 10 == 0
    requires 0 <= used && used + s * p <= FAKE_LARGE + total && FAKE_LARGE + total + p - 1 < UINT64_RANGE
    ensures MissingFigure(total, used + s * p, p) == 0
  {
    hide MissingFigure;
    var x, t: nat := FAKE_LARGE + total + p - 1 - used, s * p;
    FigureWithoutWrap(total, used, p);
    FigureWithoutWrap(total, used + t, p);
    FigureDone(x, s, p);
    assert FAKE_LARGE + total + p - 1 - (used + t) == x - t;
  }

  lemma {:induction false} FigureDone(x: int, s: nat, p: nat)
    requires p >= 1 && (s + 10 - x / p % 10) % 10 == 0
    ensures (x - s * p) / p % 10 == 0
  {
    DivideLess(x, s, p);
    FiguresCancel(x / p, s);
  }

  lemma {:induction false} FigureWithoutWrap(total: Amount, used: int, p: nat)
    requires p >= 1 && 0 <= used <= FAKE_LARGE + total && FAKE_LARGE + total + p - 1 < UINT64_RANGE
    ensures MissingFigure(total, used, p) == (FAKE_LARGE + total + p - 1 - used) / p % 10
  {
    var x := FAKE_LARGE + total + p - 1 - used;
    assert x % UINT64_RANGE == x;
  }

  lemma {:induction false} FiguresCancel(x: int, s: int)
    requires (s + 10 - x % 10) % 10 == 0
    ensures (x - s) % 10 == 0
  {
  }

  lemma {:induction false} DivideLess(x: int, s: int, p: int)
    requires p >= 1
    ensures (x - s * p) / p == x / p - s
  {
    QuotientIs(x - s * p, x / p - s, x % p, p);
  }

  lemma {:induction false} QuotientIs(x: int, q: int, r: int, p: int)
    requires p >= 1 && x == q * p + r && 0 <= r < p
    ensures x / p == q
  {
    var d := x / p - q;
    assert d * p == r - x % p;
    if d != 0 {
      MultipleIsLarge(d, p);
    }
  }

  // ---- the selector ----

  class UnspentSelector {
    var unspents: seq<Coin>
    var usedUnspents: seq<Coin>
    var optimization: seq<Coin>
    var usedTotal: int
    var inputsCount: nat
    var raAmounts: seq<Amount>
    var have: Stacks
    var dust: Stacks
    var maxDigit: nat
    ghost var eligible: multiset<Coin>

    ghost predicate Valid()
      reads this
    {
      && Accounted(eligible, have, dust, optimization)
      && usedTotal == SumOf(optimization) && inputsCount == |optimization|
      && WellMarked(eligible, maxDigit)
    }

    constructor (unspents: seq<Coin>)
      ensures Valid() && this.unspents == unspents && optimization == [] && usedUnspents == [] && raAmounts == []
    {
      this.unspents, usedUnspents, optimization, usedTotal, inputsCount, raAmounts := unspents, [], [], 0, 0, [];
      have, dust, maxDigit, eligible := map[], map[], 0, multiset{};
    }

    method Reset(unspents: seq<Coin>)
      modifies this
      ensures this.unspents == unspents && usedUnspents == [] && optimization == [] && usedTotal == 0
              && inputsCount == 0
      ensures raAmounts == []
    {
      this.unspents, usedUnspents, optimization, usedTotal, inputsCount, raAmounts := unspents, [], [], 0, 0, [];
    }

    /** Puts every output that can be spent on its stack. */
    method CreateHaveCoins(height: Height, time: nat, confirmed: Height)
      requires optimization == [] && usedTotal == 0 && inputsCount == 0
      requires forall u <- unspents :: u.dust == IsDust(u.amount)
      modifies this`have, this`dust, this`maxDigit, this`eligible
      ensures Valid() && eligible == EligibleOf(unspents, height, time, confirmed)
      ensures have == Filed(unspents, false, height, time, confirmed)
      ensures dust == Filed(unspents, true, height, time, confirmed)
    {
      have, dust, maxDigit := map[], map[], 0;
      eligible := multiset{};
      var i := |unspents|;
      assert unspents[i..] == [] && unspents[0..] == unspents;
      hide Accounted, IsDust, Digit, Lead, Pow, With, Eligible, Filed, EligibleOf, WellMarked, SumOf;
      FiledIsAccounted(unspents, height, time, confirmed);
      NothingFiled(height, time, confirmed);
      while i > 0
        invariant 0 <= i <= |unspents|
        invariant have == Filed(unspents[i..], false, height, time, confirmed)
        invariant dust == Filed(unspents[i..], true, height, time, confirmed)
        invariant eligible == EligibleOf(unspents[i..], height, time, confirmed)
        invariant WellMarked(eligible, maxDigit)
      {
        i := i - 1;
        var un := unspents[i];
        FiledStep(unspents, i, height, time, confirmed);
        if Eligible(un, height, time, confirmed) {
          File(un);
        }
      }
    }

    method File(un: Coin)
      requires WellMarked(eligible, maxDigit) && un.dust == IsDust(un.amount)
      modifies this`have, this`dust, this`maxDigit, this`eligible
      ensures WellMarked(eligible, maxDigit) && eligible == old(eligible) + multiset{un}
      ensures have == (if IsDust(un.amount) then old(have) else With(old(have), un))
      ensures dust == (if IsDust(un.amount) then With(old(dust), un) else old(dust))
    {
      hide IsDust, Digit, Lead, Pow, With, WellMarked;
      if !IsDust(un.amount) {
        var digit, am := SplitAmount(un.amount);
        MarkMore(eligible, maxDigit, un, if digit > maxDigit then digit else maxDigit);
        maxDigit := if digit > maxDigit then digit else maxDigit;
        have := With(have, un);
      } else {
        MarkMore(eligible, maxDigit, un, maxDigit);
        dust := With(dust, un);
      }
      eligible := eligible + multiset{un};
    }

    /** Takes the top coin off a stack. */
    method Pick(fromDust: bool, a: Amount)
      requires Valid() && a in (if fromDust then dust else have)
      modifies this`have, this`dust, this`optimization, this`usedTotal, this`inputsCount
      ensures Valid()
      ensures optimization == old(optimization) + [Top(old(if fromDust then dust else have), a)]
      ensures have == (if fromDust then old(have) else Without(old(have), a))
      ensures dust == (if fromDust then Without(old(dust), a) else old(dust))
      ensures usedTotal == old(usedTotal) + a && inputsCount == old(inputsCount) + 1
      ensures IsDust(optimization[|optimization| - 1].amount) == fromDust
              && Top(old(if fromDust then dust else have), a) in eligible
    {
      hide Accounted, IsDust, WellMarked, SumOf, Without, Stacked;
      TakeIsAccounted(eligible, have, dust, optimization, fromDust, a);
      var un := Top(if fromDust then dust else have, a);
      SumAppend(optimization, un);
      optimization := optimization + [un];
      usedTotal := usedTotal + un.amount;
      inputsCount := inputsCount + 1;
      if fromDust {
        dust := Without(dust, a);
      } else {
        have := Without(have, a);
      }
    }

    method PutBack(un: Coin)
      modifies this`have, this`dust
      ensures have == (if un.dust then old(have) else With(old(have), un))
      ensures dust == (if un.dust then With(old(dust), un) else old(dust))
    {
      hide With;
      if !un.dust {
        var digit, am := SplitAmount(un.amount);
        have := With(have, un);
      } else {
        dust := With(dust, un);
      }
    }

    /** Puts every coin that was taken back on its stack. */
    method UnoptimizeAmounts()
      requires Valid()
      modifies this`have, this`dust, this`optimization, this`usedTotal, this`inputsCount
      ensures Valid() && optimization == [] && usedTotal == 0 && inputsCount == 0
    {
      hide Accounted, SumOf, IsDust, Pretty, Digit, Lead, Pow, With, WellMarked, CountIn, Stacked;
      ghost var taken := optimization;
      TakenAreMarked(eligible, have, dust, taken, maxDigit);
      NothingTaken();
      assert taken[0..] == taken;
      var i := 0;
      while i < |optimization|
        invariant 0 <= i <= |optimization| && optimization == taken
        invariant Accounted(eligible, have, dust, taken[i..])
        invariant usedTotal == SumOf(taken[i..]) && inputsCount == |taken| - i
      {
        var un := optimization[i];
        assert taken[i..][0] == un && taken[i..][1..] == taken[i + 1..];
        PutBackIsAccounted(eligible, have, dust, taken[i..]);
        SumDropFirst(taken[i..]);
        usedTotal := usedTotal - un.amount;
        inputsCount := inputsCount - 1;
        PutBack(un);
        i := i + 1;
      }
      assert taken[i..] == [];
      optimization := [];
    }

    /** One place of OptimizeAmounts: takes a pair that clears the missing figure, or else a single coin. */
    method OptimizeFigure(p: nat, total: Amount, withDust: bool)
      requires Valid() && AllUsable(optimization, withDust) && p >= 1
      modifies this`have, this`dust, this`optimization, this`usedTotal, this`inputsCount
      ensures Valid() && AllUsable(optimization, withDust) && usedTotal >= old(usedTotal) && dust == old(dust)
      ensures Clears(old(have), total, p, old(usedTotal), usedTotal)
    {
      hide Accounted, Stacked, SumOf, WellMarked, IsPair, MissingFigure, Clears, AllUsable, Usable, IsDust;
      NoStackIsEmpty(eligible, have, dust, optimization);
      ghost var before := have;
      var am := 10 - MissingFigure(total, usedTotal, p);
      var x, y, weight := BestPair(have, p, am);
      if weight != 0 {
        PairIsThere(have, p, am, x, y);
        PickFigure(x, p, withDust);
        PickFigure(y, p, withDust);
        PairClears(before, total, p, old(usedTotal), x, y);
        return;
      }
      var single := 0;
      if am != 10 {
        single := BestSingle(have, p, am);
        if single != 0 {
          PickFigure(single, p, withDust);
        }
      }
      SingleClears(before, total, p, old(usedTotal), single);
    }

    method PickFigure(x: nat, p: nat, withDust: bool)
      requires Valid() && AllUsable(optimization, withDust) && x * p in have
      modifies this`have, this`dust, this`optimization, this`usedTotal, this`inputsCount
      ensures Valid() && AllUsable(optimization, withDust) && dust == old(dust)
      ensures usedTotal == old(usedTotal) + x * p
      ensures forall a :: a in old(have) && (a != x * p || |old(have)[a]| > 1) ==> a in have
    {
      hide Accounted, WellMarked, IsDust, SumOf;
      Pick(false, x * p);
    }

    /** Goes through the places, from the lowest, and clears the missing figures as far as the coins allow. */
    method OptimizeAmounts(total: Amount, withDust: bool)
      requires Valid() && AllUsable(optimization, withDust)
      modifies this`have, this`dust, this`optimization, this`usedTotal, this`inputsCount
      ensures Valid() && AllUsable(optimization, withDust) && usedTotal >= old(usedTotal) && dust == old(dust)
    {
      hide Valid, AllUsable, Clears;
      var p := 1;
      var digit := 0;
      while digit != maxDigit + 1
        invariant 0 <= digit <= maxDigit + 1 && p >= 1
        invariant Valid() && AllUsable(optimization, withDust) && usedTotal >= old(usedTotal) && dust == old(dust)
      {
        if usedTotal >= total && p > usedTotal {
          break;
        }
        OptimizeFigure(p, total, withDust);
        digit, p := digit + 1, p * 10;
      }
    }

    /** The smallest coin that covers what is missing. */
    method SmallestCover(rest: int) returns (r: Option<Amount>)
      requires Valid()
      ensures r.None? ==> forall a <- have :: a < rest
      ensures r.Some? ==> r.value in have && r.value >= rest && forall a <- have :: a >= rest ==> r.value <= a
    {
      HaveIsPretty(eligible, have, dust, optimization, maxDigit);
      hide Valid, Pretty, Digit, Lead, Pow;
      var p := 1;
      var digit := 0;
      assert Pow(10, 0) == 1 by { PowZero(); }
      while digit != maxDigit + 1
        invariant 0 <= digit <= maxDigit + 1 && p == Pow(10, digit)
        invariant forall a <- have | Digit(a) < digit :: a < rest
      {
        r := CoverOfDigit(rest, digit, p);
        if r.Some? {
          return;
        }
        NextPower(digit);
        digit, p := digit + 1, p * 10;
      }
      return None;
    }

    /** The smallest stack of amounts with so many digits that is worth the rest, when no smaller amount is. */
    method CoverOfDigit(rest: int, digit: nat, p: nat) returns (r: Option<Amount>)
      requires Valid() && p == Pow(10, digit) && forall a <- have | Digit(a) < digit :: a < rest
      ensures r.None? ==> forall a <- have | Digit(a) < digit + 1 :: a < rest
      ensures r.Some? ==> r.value in have && r.value >= rest && forall a <- have :: a >= rest ==> r.value <= a
    {
      HaveIsPretty(eligible, have, dust, optimization, maxDigit);
      hide Valid, Pretty, Digit, Lead, Pow;
      var figure := 1;
      while figure != 10
        invariant 1 <= figure <= 10
        invariant forall a <- have | Digit(a) < digit || (Digit(a) == digit && Lead(a) < figure) :: a < rest
      {
        if figure * p in have && figure * p >= rest {
          forall a | a in have && a >= rest
            ensures figure * p <= a
          {
            FirstCover(a, figure, digit);
          }
          return Some(figure * p);
        }
        figure := figure + 1;
      }
      return None;
    }

    /** Coins of stacks that have grown too large, ten at a time. */
    method TakeFromStacks(optimizationCount: nat, withDust: bool)
      requires Valid() && AllUsable(optimization, withDust)
      modifies this`have, this`dust, this`optimization, this`usedTotal, this`inputsCount
      ensures Valid() && AllUsable(optimization, withDust) && usedTotal >= old(usedTotal)
    {
      hide Accounted, WellMarked, IsDust, SumOf;
      var count := optimizationCount;
      while count >= 10
        invariant count >= 0 && Valid() && AllUsable(optimization, withDust) && usedTotal >= old(usedTotal)
      {
        var best := BestStack(have);
        if best.None? {
          break;
        }
        var a := best.value;
        for i := 0 to 10
          invariant Valid() && AllUsable(optimization, withDust) && usedTotal >= old(usedTotal)
          invariant a in have && |have[a]| > STACK_OPTIMIZATION_THRESHOLD - i
        {
          Pick(false, a);
        }
        count := count - 10;
      }
    }

    /** Dust is used only when nothing has to hide it: one coin that covers the rest, or else the largest ones. */
    method TakeDust(total: Amount, optimizationCount: nat, withDust: bool) returns (count: nat)
      requires Valid() && AllUsable(optimization, withDust)
      modifies this`have, this`dust, this`optimization, this`usedTotal, this`inputsCount
      ensures Valid() && AllUsable(optimization, withDust) && usedTotal >= old(usedTotal) && count <= optimizationCount
    {
      hide Accounted, WellMarked, IsDust, SumOf;
      count := optimizationCount;
      if withDust {
        if usedTotal < total {
          var cover := LowerBound(dust, total - usedTotal);
          if cover.Some? {
            Pick(true, cover.value);
          }
        }
        while usedTotal < total && dust != map[] && count >= 1
          invariant Valid() && AllUsable(optimization, withDust) && usedTotal >= old(usedTotal)
          invariant count <= optimizationCount
          decreases count
        {
          var a := Last(dust);
          Pick(true, a);
          count := count - 1;
        }
      }
    }

    /** Takes the largest coins until there is enough, or nothing is left. */
    method TakeLargest(total: Amount, withDust: bool) returns (ok: bool)
      requires Valid() && AllUsable(optimization, withDust)
      modifies this`have, this`dust, this`optimization, this`usedTotal, this`inputsCount
      ensures Valid() && AllUsable(optimization, withDust) && ok == (usedTotal >= total)
      ensures !ok ==> have == map[] && (withDust ==> dust == map[])
    {
      hide Accounted, WellMarked, IsDust, SumOf;
      TakenIsBounded(eligible, have, dust, optimization);
      while usedTotal < total
        invariant Valid() && AllUsable(optimization, withDust) && |optimization| <= |eligible|
        decreases |eligible| - |optimization|
      {
        if have == map[] && (!withDust || dust == map[]) {
          return false;
        }
        var haveAmount, dustAmount := 0, 0;
        if have != map[] {
          haveAmount := Last(have);
        }
        if withDust && dust != map[] {
          dustAmount := Last(dust);
        }
        HaveIsPositive(eligible, have, dust, optimization);
        if haveAmount > dustAmount {
          Pick(false, haveAmount);
        } else {
          Pick(true, dustAmount);
        }
        TakenIsBounded(eligible, have, dust, optimization);
      }
      return true;
    }

    /** Selects coins worth at least total. It fails exactly when all usable coins together are worth less. */
    method SelectOptimalOutputs(total: Amount, withDust: bool, optimizationCount: nat) returns (ok: bool)
      requires Valid() && optimization == []
      modifies this`have, this`dust, this`optimization, this`usedTotal, this`inputsCount
      ensures Valid() && AllUsable(optimization, withDust)
      ensures ok ==> usedTotal >= total
      ensures ok <==> Worth(eligible, withDust) >= total
    {
      hide Accounted, WellMarked, IsDust, SumOf, Usable, Worth;
      var count := TakeDust(total, optimizationCount, withDust);
      TakeFromStacks(count, withDust);
      OptimizeAmounts(total, withDust);
      if usedTotal >= total {
        TakenIsWorth(eligible, have, dust, optimization, withDust);
        return true;
      }
      var cover := SmallestCover(total - usedTotal);
      if cover.Some? {
        PickCover(cover.value, withDust);
      }
      if usedTotal >= total {
        TakenIsWorth(eligible, have, dust, optimization, withDust);
        return true;
      }
      UnoptimizeAmounts();
      ok := TakeLargest(total, withDust);
      TakenIsWorth(eligible, have, dust, optimization, withDust);
      if ok {
        OptimizeAmounts(total, withDust);
      }
    }

    method PickCover(a: Amount, withDust: bool)
      requires Valid() && AllUsable(optimization, withDust) && a in have
      modifies this`have, this`dust, this`optimization, this`usedTotal, this`inputsCount
      ensures Valid() && AllUsable(optimization, withDust) && usedTotal == old(usedTotal) + a
    {
      hide Accounted, WellMarked, IsDust, SumOf;
      Pick(false, a);
    }

    method CombineOptimizedUnspents()
      modifies this`raAmounts, this`usedUnspents, this`optimization
      ensures usedUnspents == old(usedUnspents) + old(optimization) && optimization == []
      ensures raAmounts == old(raAmounts) + Amounts(old(optimization))
    {
      var i := 0;
      while i < |optimization|
        invariant 0 <= i <= |optimization| && optimization == old(optimization) && usedUnspents == old(usedUnspents)
        invariant raAmounts == old(raAmounts) + Amounts(optimization[..i])
      {
        assert optimization[..i + 1][..i] == optimization[..i];
        raAmounts := raAmounts + [optimization[i].amount];
        i := i + 1;
      }
      assert optimization[..i] == optimization;
      usedUnspents := usedUnspents + optimization;
      optimization := [];
    }

    /** One attempt with a given fee: it settles the result, or it puts everything back and asks for fewer optimizations
        or for a larger fee. */
    method Attempt(o: Order, optimizationMedian: nat, paying: nat, optimizations: nat)
      returns (result: Option<Selection>, newFee: nat, newOptimizations: nat)
      requires Valid() && optimization == [] && usedUnspents == [] && raAmounts == [] && paying >= MINIMUM_FEE
      modifies this`have, this`dust, this`optimization, this`usedTotal, this`inputsCount, this`usedUnspents,
               this`raAmounts
      ensures Settled(usedUnspents + optimization, o.anonymity == 0)
      ensures result.None? ==> Valid() && optimization == [] && usedUnspents == [] && raAmounts == []
      ensures result.None? ==> newFee >= MINIMUM_FEE && newOptimizations <= optimizations
      ensures result.None? && newOptimizations != optimizations ==> newFee == paying
      ensures result.None? && newOptimizations == optimizations ==>
                paying < newFee < FeeBound(o) && exists taken :: AsksFor(eligible, o, paying, taken, newFee)
      ensures result == Some(NotEnoughFunds) <==> Worth(eligible, o.anonymity == 0) < o.amount + paying
      ensures result == Some(DoesNotFit) ==> optimizations == 0 || o.Size(|optimization|) <= optimizationMedian
      ensures result == Some(DoesNotFit) ==> o.Size(|optimization|) > o.median
      ensures result.Some? && result.value.Selected? ==>
                && optimization == [] && raAmounts == Amounts(usedUnspents)
                && var size := o.Size(|usedUnspents|);
                   size <= o.median && Pays(usedTotal, o.amount, result.value.change, o.feePerByte, size)
    {
      hide Accounted, WellMarked, SumOf, Usable, Worth, Pays, MaximumTxSize, Amounts, AllUsable, AsksFor;
      newFee, newOptimizations := paying, optimizations;
      NothingBefore(optimization);
      var ok := SelectOptimalOutputs(o.amount + paying, o.anonymity == 0, optimizations);
      NothingBefore(optimization);
      if !ok {
        return Some(NotEnoughFunds), newFee, newOptimizations;
      }
      var changeDust := (usedTotal - o.amount - paying) % DUST_THRESHOLD;
      var size := o.Size(inputsCount);
      if size > optimizationMedian && optimizations > 0 {
        UnoptimizeAmounts();
        NothingBefore(optimization);
        NothingIsUsable(o.anonymity == 0);
        newOptimizations := optimizations / 2;
        if newOptimizations < 10 {
          newOptimizations := 0;
        }
        return None, newFee, newOptimizations;
      }
      if size > o.median {
        return Some(DoesNotFit), newFee, newOptimizations;
      }
      var sizeFee := o.feePerByte * size;
      if paying + changeDust >= sizeFee {
        ItPays(usedTotal, o.amount, paying, o.feePerByte, size);
        var change := usedTotal - o.amount - paying - changeDust;
        CombineOptimizedUnspents();
        return Some(Selected(change)), newFee, newOptimizations;
      }
      SizeFeeIsBounded(o.feePerByte, size, o.median);
      newFee := RoundedUp(sizeFee - changeDust);
      TakenAskFor(eligible, have, dust, optimization, o, paying, newFee);
      assert AsksFor(eligible, o, paying, optimization, newFee);
      UnoptimizeAmounts();
      NothingBefore(optimization);
      NothingIsUsable(o.anonymity == 0);
      return None, newFee, newOptimizations;
    }

    /** Every eligible coin is on a stack or taken, the total and the count are those of the coins that were taken, and
        without anonymity these are the only ones that may be dust. */
    ghost predicate Settled(taken: seq<Coin>, withDust: bool)
      reads this
    {
      && Accounted(eligible, have, dust, taken) && AllUsable(taken, withDust)
      && usedTotal == SumOf(taken) && inputsCount == |taken|
    }

    /** Chooses coins for an amount and the fee that their number makes necessary. When it succeeds, what is used is the
        amount, the change and a fee that covers the size. It fails for lack of funds only when all usable coins are
        worth less than the amount and a fee that was really needed, and always when they are worth less than the amount
        and the smallest fee. */
    method SelectForAmount(height: Height, time: nat, confirmed: Height, medianSize: nat, anonymity: nat,
                           amount: Amount,
                           outputs: nat, feePerByte: nat, level: Level) returns (r: Selection, ghost fee: nat)
      requires optimization == [] && usedUnspents == [] && raAmounts == [] && usedTotal == 0 && inputsCount == 0
      requires forall u <- unspents :: u.dust == IsDust(u.amount)
      modifies this`have, this`dust, this`maxDigit, this`eligible, this`optimization, this`usedTotal, this`inputsCount,
               this`usedUnspents, this`raAmounts
      ensures eligible == EligibleOf(unspents, height, time, confirmed)
              && Settled(usedUnspents + optimization, anonymity == 0)
      ensures fee >= MINIMUM_FEE
      ensures fee == MINIMUM_FEE || fee < feePerByte * (120 * medianSize / 100) + DUST_THRESHOLD
      ensures r.Selected? ==>
                && optimization == [] && raAmounts == Amounts(usedUnspents)
                && var size := MaximumTxSize(|usedUnspents|, outputs + CHANGE_OUTPUTS, anonymity);
                   size <= 120 * medianSize / 100 && Pays(usedTotal, amount, r.change, feePerByte, size)
      ensures Needed(eligible, Order(amount, outputs + CHANGE_OUTPUTS, anonymity, 120 * medianSize / 100, feePerByte),
              fee)
      ensures r.NotEnoughFunds? ==> Worth(eligible, anonymity == 0) < amount + fee
      ensures Worth(eligible, anonymity == 0) < amount + MINIMUM_FEE ==> r.NotEnoughFunds?
      ensures r.DoesNotFit? ==>
                MaximumTxSize(|optimization|, outputs + CHANGE_OUTPUTS, anonymity) > 120 * medianSize / 100
    {
      CreateHaveCoins(height, time, confirmed);
      hide Valid, Settled, Worth, EligibleOf, Pays, MaximumTxSize, Amounts, Filed, AsksFor, Needed;
      var o := Order(amount, outputs + CHANGE_OUTPUTS, anonymity, 120 * medianSize / 100, feePerByte);
      var optimizations := match level case Aggressive => 200 case Minimal => 9 case Normal => 50;
      var percent := if level.Aggressive? then MEDIAN_PERCENT_AGGRESSIVE else MEDIAN_PERCENT;
      r, fee := Retry(o, o.median * percent / 100, optimizations);
    }

    /** Attempts again and again, with fewer optimizations or with a larger fee, until the result is settled. */
    method Retry(o: Order, optimizationMedian: nat, optimizations: nat) returns (r: Selection, ghost fee: nat)
      requires Valid() && optimization == [] && usedUnspents == [] && raAmounts == []
      modifies this`have, this`dust, this`optimization, this`usedTotal, this`inputsCount, this`usedUnspents,
               this`raAmounts
      ensures Settled(usedUnspents + optimization, o.anonymity == 0)
      ensures fee >= MINIMUM_FEE && (fee == MINIMUM_FEE || fee < FeeBound(o)) && Needed(eligible, o, fee)
      ensures r.Selected? ==>
                && optimization == [] && raAmounts == Amounts(usedUnspents)
                && var size := o.Size(|usedUnspents|);
                   size <= o.median && Pays(usedTotal, o.amount, r.change, o.feePerByte, size)
      ensures r.NotEnoughFunds? ==> Worth(eligible, o.anonymity == 0) < o.amount + fee
      ensures Worth(eligible, o.anonymity == 0) < o.amount + MINIMUM_FEE ==> r.NotEnoughFunds?
      ensures r.DoesNotFit? ==> o.Size(|optimization|) > o.median
    {
      hide Valid, Settled, Worth, Pays, MaximumTxSize, Amounts, AsksFor, Needed, FeeBound;
      var paying, left := MINIMUM_FEE, optimizations;
      FirstNeeded(eligible, o);
      while true
        invariant Valid() && optimization == [] && usedUnspents == [] && raAmounts == []
        invariant paying >= MINIMUM_FEE && (paying == MINIMUM_FEE || paying < FeeBound(o)) && left >= 0
        invariant Needed(eligible, o, paying)
        decreases left, FeeBound(o) - paying
      {
        fee := paying;
        var result, newFee, newLeft := Attempt(o, optimizationMedian, paying, left);
        if result.Some? {
          return result.value, fee;
        }
        if newLeft == left {
          NextNeeded(eligible, o, paying, newFee);
        }
        paying, left := newFee, newLeft;
      }
    }
  }

  lemma {:induction false} NothingBefore(cs: seq<Coin>)
    ensures [] + cs == cs && cs + [] == cs
  {
  }

  lemma {:induction false} NothingIsUsable(withDust: bool)
    ensures AllUsable([], withDust)
  {
  }

  function Amounts(cs: seq<Coin>): seq<Amount> {
    if cs == [] then [] else Amounts(cs[..|cs| - 1]) + [cs[|cs| - 1].amount]
  }

  /** The coins pay for the amount, for the change, which is made of whole units, and for a fee that covers the size. */
  predicate Pays(used: int, amount: Amount, change: int, feePerByte: nat, size: nat) {
    var paid := used - amount - change;
    change >= 0 && change % DUST_THRESHOLD == 0 && paid >= feePerByte * size && paid >= MINIMUM_FEE
  }

  lemma {:induction false} ItPays(used: int, amount: Amount, fee: nat, feePerByte: nat, size: nat)
    requires used >= amount + fee && fee >= MINIMUM_FEE
    requires fee + (used - amount - fee) % DUST_THRESHOLD >= feePerByte * size
    ensures Pays(used, amount, used - amount - fee - (used - amount - fee) % DUST_THRESHOLD, feePerByte, size)
  {
  }

  lemma {:induction false} SizeFeeIsBounded(feePerByte: nat, size: nat, median: nat)
    requires size <= median
    ensures feePerByte * size <= feePerByte * median
  {
  }

  /** A positive fee in whole units. */
  function RoundedUp(f: int): (r: nat)
    requires f > 0
    ensures f <= r < f + DUST_THRESHOLD
  {
    (f + DUST_THRESHOLD - 1) / DUST_THRESHOLD * DUST_THRESHOLD
  }

  /** What a selection is made for. */
  datatype Order = Order(amount: Amount, outputs: nat, anonymity: nat, median: nat, feePerByte: nat) {
    function Size(inputs: nat): nat {
      MaximumTxSize(inputs, outputs, anonymity)
    }
  }

  function FeeBound(o: Order): nat {
    o.feePerByte * o.median + DUST_THRESHOLD
  }

  /** Coins that are worth the amount and the fee before, fit, and whose size asks for this larger fee. */
  ghost predicate AsksFor(eligible: multiset<Coin>, o: Order, before: nat, taken: seq<Coin>, fee: nat) {
    var size := o.Size(|taken|);
    var rest := (SumOf(taken) - o.amount - before) % DUST_THRESHOLD;
    && multiset(taken) <= eligible && AllUsable(taken, o.anonymity == 0) && SumOf(taken) >= o.amount + before
    && size <= o.median && before + rest < o.feePerByte * size && fee == RoundedUp(o.feePerByte * size - rest)
  }

  /** The minimum fee, or a fee that some selection asked for that was made with a fee needed before. */
  ghost predicate Needed(eligible: multiset<Coin>, o: Order, fee: nat)
    decreases fee
  {
    || fee == MINIMUM_FEE
    || exists before: nat, taken: seq<Coin> | before < fee && AsksFor(eligible, o, before, taken, fee) ::
        Needed(eligible, o, before)
  }

  lemma {:induction false} FirstNeeded(eligible: multiset<Coin>, o: Order)
    ensures Needed(eligible, o, MINIMUM_FEE)
  {
  }

  lemma {:induction false} NextNeeded(eligible: multiset<Coin>, o: Order, before: nat, fee: nat)
    requires Needed(eligible, o, before) && before < fee && exists taken :: AsksFor(eligible, o, before, taken, fee)
    ensures Needed(eligible, o, fee)
  {
    hide AsksFor;
  }

  lemma {:induction false} TakenAskFor(eligible: multiset<Coin>, have: Stacks, dust: Stacks, taken: seq<Coin>, o: Order,
                                       before: nat, fee: nat)
    requires Accounted(eligible, have, dust, taken) && AllUsable(taken, o.anonymity == 0)
             && SumOf(taken) >= o.amount + before
    requires var size := o.Size(|taken|);
             var rest := (SumOf(taken) - o.amount - before) % DUST_THRESHOLD;
             size <= o.median && before + rest < o.feePerByte * size && fee == RoundedUp(o.feePerByte * size - rest)
    ensures AsksFor(eligible, o, before, taken, fee)
  {
    TakenIsBounded(eligible, have, dust, taken);
  }

  lemma {:induction false} PowZero()
    ensures Pow(10, 0) == 1
  {
  }

  lemma {:induction false} NextPower(n: nat)
    ensures Pow(10, n + 1) == Pow(10, n) * 10
  {
  }

  /** A pretty amount is covered by the first stack that is not before it. */
  lemma {:induction false} FirstCover(a: Amount, figure: nat, digit: nat)
    requires Pretty(a) && 1 <= figure <= 9
    requires !(Digit(a) < digit || (Digit(a) == digit && Lead(a) < figure))
    ensures figure * Pow(10, digit) <= a
  {
    PrettyParts(figure, digit);
    OrderOfPretty(a, figure * Pow(10, digit));
  }

  lemma {:induction false} HaveIsPretty(eligible: multiset<Coin>, have: Stacks, dust: Stacks, taken: seq<Coin>,
                                        maxDigit: nat)
    requires Accounted(eligible, have, dust, taken) && WellMarked(eligible, maxDigit)
    ensures forall a <- have ::
            Pretty(a) && Digit(a) <= maxDigit && 1 <= Lead(a) <= 9 && a == Lead(a) * Pow(10, Digit(a))
  {
    forall a | a in have
      ensures Pretty(a) && Digit(a) <= maxDigit && 1 <= Lead(a) <= 9 && a == Lead(a) * Pow(10, Digit(a))
    {
      TakeIsAccounted(eligible, have, dust, taken, false, a);
      LeadPositive(a);
    }
  }

  lemma {:induction false} HaveIsPositive(eligible: multiset<Coin>, have: Stacks, dust: Stacks, taken: seq<Coin>)
    requires Accounted(eligible, have, dust, taken)
    ensures forall a <- have :: a >= DUST_THRESHOLD
  {
    hide Pretty;
  }

  /** If there is a pair or a coin that completes the missing figure, or nothing is missing there, then nothing is
      missing there afterwards. */
  ghost predicate Clears(have: Stacks, total: Amount, p: nat, used: int, usedAfter: int)
    requires p >= 1
  {
    var am := 10 - MissingFigure(total, used, p);
    FAKE_LARGE + total + p - 1 < UINT64_RANGE && 0 <= used && usedAfter <= FAKE_LARGE + total
    && (am == 10 || (exists a: nat, b: nat :: IsPair(have, p, am, a, b)) || (10 - am) * p in have)
    ==> MissingFigure(total, usedAfter, p) == 0
  }

  lemma {:induction false} PairIsThere(have: Stacks, p: nat, am: nat, x: nat, y: nat)
    requires IsPair(have, p, am, x, y)
    ensures x * p in have && y * p in have && (x == y || x * p != y * p || |have[y * p]| > 1)
    ensures x * p != y * p || |have[y * p]| > 1
  {
  }

  lemma {:induction false} PairClears(have: Stacks, total: Amount, p: nat, used: int, x: nat, y: nat)
    requires p >= 1 && IsPair(have, p, 10 - MissingFigure(total, used, p), x, y)
    ensures Clears(have, total, p, used, used + x * p + y * p)
  {
    hide MissingFigure;
    assert x * p + y * p == (x + y) * p;
    if FAKE_LARGE + total + p - 1 < UINT64_RANGE && 0 <= used && used + (x + y) * p <= FAKE_LARGE + total {
      CompletingClearsFigure(total, used, p, x + y);
    }
  }

  lemma {:induction false} SingleClears(have: Stacks, total: Amount, p: nat, used: int, single: nat)
    requires p >= 1
    requires var am := 10 - MissingFigure(total, used, p);
             && (forall a: nat, b: nat :: !IsPair(have, p, am, a, b))
             && (am == 10 ==> single == 0)
             && (am != 10 && (10 - am) * p in have ==> single == 10 - am)
    ensures Clears(have, total, p, used, used + single * p)
  {
    if FAKE_LARGE + total + p - 1 < UINT64_RANGE && 0 <= used && used + single * p <= FAKE_LARGE + total
       && single == MissingFigure(total, used, p) {
      hide MissingFigure;
      CompletingClearsFigure(total, used, p, single);
    }
  }

  lemma {:induction false} NothingTaken()
    ensures SumOf([]) == 0
  {
  }

  lemma {:induction false} NoStackIsEmpty(eligible: multiset<Coin>, have: Stacks, dust: Stacks, taken: seq<Coin>)
    requires Accounted(eligible, have, dust, taken)
    ensures forall a <- have :: have[a] != []
  {
  }

  lemma {:induction false} TakenAreMarked(eligible: multiset<Coin>, have: Stacks, dust: Stacks, taken: seq<Coin>,
                                          maxDigit: nat)
    requires Accounted(eligible, have, dust, taken) && WellMarked(eligible, maxDigit)
    ensures forall c <- taken :: c.dust == IsDust(c.amount)
  {
    TakenIsBounded(eligible, have, dust, taken);
    hide IsDust, Digit;
    forall c | c in taken
      ensures c.dust == IsDust(c.amount)
    {
      assert c in multiset(taken);
    }
  }

  /** Every coin knows whether it is dust, and the others have at most so many digits. */
  ghost predicate WellMarked(m: multiset<Coin>, maxDigit: nat) {
    forall c <- m :: c.dust == IsDust(c.amount) && (!c.dust ==> Digit(c.amount) <= maxDigit)
  }

  lemma {:induction false} MarkMore(m: multiset<Coin>, maxDigit: nat, c: Coin, larger: nat)
    requires WellMarked(m, maxDigit) && larger >= maxDigit
    requires c.dust == IsDust(c.amount) && (!c.dust ==> Digit(c.amount) <= larger)
    ensures WellMarked(m + multiset{c}, larger)
  {
  }

  lemma {:induction false} FiledStep(us: seq<Coin>, i: nat, height: Height, time: nat, confirmed: Height)
    requires i < |us|
    ensures var c := us[i];
            && EligibleOf(us[i..], height, time, confirmed) == EligibleOf(us[i + 1..], height, time, confirmed) +
                 (if Eligible(c, height, time, confirmed) then multiset{c} else multiset{})
            && forall dust: bool :: Filed(us[i..], dust, height, time, confirmed) ==
                 if Eligible(c, height, time, confirmed) && IsDust(c.amount) == dust
                 then With(Filed(us[i + 1..], dust, height, time, confirmed), c)
                     else Filed(us[i + 1..], dust, height, time, confirmed)
  {
    assert us[i..][1..] == us[i + 1..];
  }

  lemma {:induction false} NothingFiled(height: Height, time: nat, confirmed: Height)
    ensures EligibleOf([], height, time, confirmed) == multiset{} && WellMarked(multiset{}, 0) && SumOf([]) == 0
    ensures forall d: bool :: Filed([], d, height, time, confirmed) == map[]
  {
  }

  lemma {:induction false} FiledIsAccounted(us: seq<Coin>, height: Height, time: nat, confirmed: Height)
    ensures Accounted(EligibleOf(us, height, time, confirmed), Filed(us, false, height, time, confirmed),
                      Filed(us, true, height, time, confirmed), [])
  {
    FiledCounts(us, height, time, confirmed);
  }

  /** Number of digits after the first, and the first. */
  method SplitAmount(amount: Amount) returns (digit: nat, am: nat)
    ensures digit == Digit(amount) && am == Lead(amount)
    ensures !IsDust(amount) ==> amount == am * Pow(10, digit) && 1 <= am <= 9
  {
    digit, am := 0, amount;
    while am > 9
      invariant Digit(am) + digit == Digit(amount) && Lead(am) == Lead(amount)
    {
      digit := digit + 1;
      am := am / 10;
    }
    if amount != 0 {
      LeadPositive(amount);
    }
  }
}
