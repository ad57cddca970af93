/** Coins on hand: outputs of one amount are stacked, and stacks are kept by amount. A coin that is not dust has one
    leading figure followed by zeros, so that the order by number of digits and leading figure is the order by
    amount. */
module CoinStacks {
  import opened ChainTypes
  import opened Numerals
  import opened WalletIndexes
  import opened Spending

  type Coin = WalletOutput
  type Stacks = map<Amount, seq<Coin>>

  // ---- amounts ----

  function Digit(a: Amount): nat {
    if a > 9 then 1 + Digit(a / 10) else 0
  }

  function Lead(a: Amount): (l: nat)
    ensures l <= 9
  {
    if a > 9 then Lead(a / 10) else a
  }

  predicate Pretty(a: Amount) {
    a != 0 && a == Lead(a) * Pow(10, Digit(a))
  }

  predicate IsDust(a: Amount) {
    !Pretty(a) || a < DUST_THRESHOLD
  }

  lemma {:induction false} LeadPositive(a: Amount)
    requires a != 0
    ensures Lead(a) >= 1
  {
    if a > 9 {
      LeadPositive(a / 10);
    }
  }

  lemma {:induction false} PowMonotone(m: nat, n: nat)
    requires m < n
    ensures 10 * Pow(10, m) <= Pow(10, n)
    decreases n
  {
    if m < n - 1 {
      PowMonotone(m, n - 1);
    }
  }

  /** Amounts that are not dust are ordered by number of digits first, and by leading figure second. */
  lemma {:induction false} OrderOfPretty(a: Amount, b: Amount)
    requires Pretty(a) && Pretty(b)
    ensures a < b <==> Digit(a) < Digit(b) || (Digit(a) == Digit(b) && Lead(a) < Lead(b))
  {
    LeadPositive(a);
    LeadPositive(b);
    if Digit(a) < Digit(b) {
      DigitsDecide(a, b);
    } else if Digit(b) < Digit(a) {
      DigitsDecide(b, a);
    } else if Lead(a) < Lead(b) {
      MulLess(Lead(a), Lead(b), Pow(10, Digit(a)));
    } else if Lead(b) < Lead(a) {
      MulLess(Lead(b), Lead(a), Pow(10, Digit(a)));
    }
  }

  lemma {:induction false} DigitsDecide(a: Amount, b: Amount)
    requires Pretty(a) && Pretty(b) && Digit(a) < Digit(b)
    ensures a < b
  {
    LeadPositive(b);
    PowMonotone(Digit(a), Digit(b));
    LargerPower(Lead(a), Pow(10, Digit(a)), Lead(b), Pow(10, Digit(b)));
  }

  lemma {:induction false} LargerPower(l: nat, p: nat, m: nat, q: nat)
    requires l <= 9 && 1 <= p && 1 <= m && 10 * p <= q
    ensures l * p < m * q
  {
    MulLess(l, 10, p);
    assert (m - 1) * q >= 0;
  }

  lemma {:induction false} MulLess(a: nat, b: nat, p: nat)
    requires a < b && p >= 1
    ensures a * p < b * p
  {
    assert (b - a) * p >= 1;
  }

  /** Stripping zeros off the leading figure finds it again. */
  lemma {:induction false} PrettyParts(l: nat, d: nat)
    requires 1 <= l <= 9
    ensures var a := l * Pow(10, d); Pretty(a) && Lead(a) == l && Digit(a) == d
  {
    if d > 0 {
      PrettyParts(l, d - 1);
      assert Pow(10, d) == 10 * Pow(10, d - 1);
      hide Lead, Digit, Pow;
      TimesTen(l * Pow(10, d - 1));
      TenTimes(l, Pow(10, d - 1));
    }
  }

  lemma {:induction false} TenTimes(l: nat, p: nat)
    requires l >= 1 && p >= 1
    ensures l * (10 * p) == 10 * (l * p) && l * p >= 1
  {
    MulLess(0, l, p);
  }

  lemma {:induction false} TimesTen(a: Amount)
    requires a >= 1
    ensures Lead(10 * a) == Lead(a) && Digit(10 * a) == Digit(a) + 1
  {
    assert 10 * a / 10 == a;
  }

  // ---- stacks ----

  function CountIn(s: Stacks, c: Coin): nat {
    if c.amount in s then multiset(s[c.amount])[c] else 0
  }

  /** No stack is empty, and every coin lies on the stack of its amount. */
  ghost predicate Stacked(s: Stacks, dust: bool) {
    forall a <- s :: s[a] != [] && IsDust(a) == dust && forall i | 0 <= i < |s[a]| :: s[a][i].amount == a
  }

  function With(s: Stacks, c: Coin): Stacks {
    s[c.amount := (if c.amount in s then s[c.amount] else []) + [c]]
  }

  function Top(s: Stacks, a: Amount): Coin
    requires a in s && s[a] != []
  {
    s[a][|s[a]| - 1]
  }

  function Without(s: Stacks, a: Amount): Stacks
    requires a in s && s[a] != []
  {
    if |s[a]| == 1 then s - {a} else s[a := s[a][..|s[a]| - 1]]
  }

  lemma {:induction false} WithCounts(s: Stacks, c: Coin, dust: bool)
    requires Stacked(s, dust) && IsDust(c.amount) == dust
    ensures Stacked(With(s, c), dust)
    ensures forall x: Coin :: CountIn(With(s, c), x) == CountIn(s, x) + if x == c then 1 else 0
  {
  }

  lemma {:induction false} WithoutCounts(s: Stacks, a: Amount, dust: bool)
    requires Stacked(s, dust) && a in s
    ensures Stacked(Without(s, a), dust) && Top(s, a).amount == a
    ensures forall x: Coin :: CountIn(Without(s, a), x) == CountIn(s, x) - if x == Top(s, a) then 1 else 0
  {
    var n := |s[a]| - 1;
    assert s[a] == s[a][..n] + [s[a][n]];
    assert n == 0 ==> multiset(s[a]) == multiset{Top(s, a)};
    forall x: Coin
      ensures CountIn(Without(s, a), x) == CountIn(s, x) - if x == Top(s, a) then 1 else 0
    {
      assert multiset(s[a]) == multiset(s[a][..n]) + multiset{Top(s, a)};
    }
  }

  // ---- worth ----

  function SumOf(cs: seq<Coin>): int {
    if cs == [] then 0 else SumOf(cs[..|cs| - 1]) + cs[|cs| - 1].amount
  }

  predicate Usable(c: Coin, withDust: bool) {
    withDust || !IsDust(c.amount)
  }

  /** What the usable coins add up to. */
  ghost function Worth(m: multiset<Coin>, withDust: bool): int
    decreases |m|
  {
    if m == multiset{} then 0
    else
      var c :| c in m;
      (if Usable(c, withDust) then c.amount else 0) + Worth(m - multiset{c}, withDust)
  }

  lemma {:induction false} WorthRemove(m: multiset<Coin>, withDust: bool, x: Coin)
    requires x in m
    ensures Worth(m, withDust) == (if Usable(x, withDust) then x.amount else 0) + Worth(m - multiset{x}, withDust)
    decreases |m|
  {
    var c :| c in m && Worth(m, withDust)
        == (if Usable(c, withDust) then c.amount else 0) + Worth(m - multiset{c}, withDust);
    if c != x {
      WorthRemove(m - multiset{c}, withDust, x);
      WorthRemove(m - multiset{x}, withDust, c);
      assert m - multiset{c} - multiset{x} == m - multiset{x} - multiset{c};
    }
  }

  lemma {:induction false} WorthOfSum(cs: seq<Coin>, withDust: bool)
    requires forall c <- cs :: Usable(c, withDust)
    ensures Worth(multiset(cs), withDust) == SumOf(cs)
  {
    if cs != [] {
      var n := |cs| - 1;
      assert cs == cs[..n] + [cs[n]];
      WorthRemove(multiset(cs), withDust, cs[n]);
      assert multiset(cs) - multiset{cs[n]} == multiset(cs[..n]);
      WorthOfSum(cs[..n], withDust);
    }
  }

  /** Worth only grows with the usable coins. */
  lemma {:induction false} WorthMonotone(m: multiset<Coin>, n: multiset<Coin>, withDust: bool)
    requires forall c: Coin :: Usable(c, withDust) ==> m[c] <= n[c]
    ensures Worth(m, withDust) <= Worth(n, withDust)
    decreases |m|
  {
    if c :| c in m {
      WorthRemove(m, withDust, c);
      if Usable(c, withDust) {
        WorthRemove(n, withDust, c);
        WorthMonotone(m - multiset{c}, n - multiset{c}, withDust);
      } else {
        WorthMonotone(m - multiset{c}, n, withDust);
      }
    } else {
      WorthNonNegative(n, withDust);
    }
  }

  lemma {:induction false} WorthNonNegative(m: multiset<Coin>, withDust: bool)
    ensures Worth(m, withDust) >= 0
    decreases |m|
  {
    if c :| c in m {
      WorthRemove(m, withDust, c);
      WorthNonNegative(m - multiset{c}, withDust);
    }
  }

  // ---- which outputs can be spent ----

  predicate Eligible(c: Coin, height: Height, time: nat, confirmed: Height) {
    c.height < confirmed && Unlocked(c.unlockTime, height, time)
  }

  function EligibleOf(us: seq<Coin>, height: Height, time: nat, confirmed: Height): multiset<Coin> {
    if us == [] then multiset{}
    else EligibleOf(us[1..], height, time, confirmed) +
         if Eligible(us[0], height, time, confirmed) then multiset{us[0]} else multiset{}
  }

  /** The stacks that the outputs are put on, the last output first. */
  function Filed(us: seq<Coin>, dust: bool, height: Height, time: nat, confirmed: Height): Stacks {
    if us == [] then map[]
    else if Eligible(us[0], height, time, confirmed) && IsDust(us[0].amount) == dust
    then With(Filed(us[1..], dust, height, time, confirmed), us[0])
    else Filed(us[1..], dust, height, time, confirmed)
  }

  lemma {:induction false} FiledCounts(us: seq<Coin>, height: Height, time: nat, confirmed: Height)
    ensures forall dust: bool :: Stacked(Filed(us, dust, height, time, confirmed), dust)
    ensures forall c: Coin :: EligibleOf(us, height, time, confirmed)[c] ==
              CountIn(Filed(us, false, height, time, confirmed), c)
                  + CountIn(Filed(us, true, height, time, confirmed), c)
  {
    if us != [] {
      FiledCounts(us[1..], height, time, confirmed);
      if Eligible(us[0], height, time, confirmed) {
        var dust := IsDust(us[0].amount);
        WithCounts(Filed(us[1..], dust, height, time, confirmed), us[0], dust);
      }
    }
  }
}
