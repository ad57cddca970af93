/** What blocks change in the chain database: the set of spent key images and, for every amount, a stack of
    outputs addressed by global index. */
module Ledgers {
  import opened ChainTypes

  datatype Entry = Entry(unlockTime: nat, key: PublicKey, height: Height, spent: bool)

  datatype Ledger = Ledger(keyImages: map<KeyImage, Height>, stacks: map<Amount, seq<Entry>>)

  const EMPTY := Ledger(map[], map[])

  function Stack(l: Ledger, a: Amount): seq<Entry> {
    if a in l.stacks then l.stacks[a] else []
  }

  /** No empty stack is stored, so that a ledger is determined by what can be read from it. */
  ghost predicate Normal(l: Ledger) {
    forall a <- l.stacks :: l.stacks[a] != []
  }

  lemma {:induction false} SameReads(l: Ledger, m: Ledger)
    requires Normal(l) && Normal(m)
    requires l.keyImages == m.keyImages
    requires forall a :: Stack(l, a) == Stack(m, a)
    ensures l == m
  {
    forall a
      ensures a in l.stacks <==> a in m.stacks
    {
      assert Stack(l, a) == Stack(m, a);
    }
    assert l.stacks.Keys == m.stacks.Keys;
    forall a | a in l.stacks
      ensures l.stacks[a] == m.stacks[a]
    {
      assert Stack(l, a) == Stack(m, a);
    }
    assert l.stacks == m.stacks;
  }

  function WithStack(l: Ledger, a: Amount, s: seq<Entry>): (r: Ledger)
    ensures Normal(l) ==> Normal(r)
    ensures Stack(r, a) == s && forall b :: b != a ==> Stack(r, b) == Stack(l, b)
  {
    if s == [] then l.(stacks := l.stacks - {a}) else l.(stacks := l.stacks[a := s])
  }

  function WithKeyImage(l: Ledger, ki: KeyImage, h: Height): Ledger {
    l.(keyImages := l.keyImages[ki := h])
  }

  function WithoutKeyImage(l: Ledger, ki: KeyImage): Ledger {
    l.(keyImages := l.keyImages - {ki})
  }

  function Push(l: Ledger, a: Amount, e: Entry): Ledger {
    WithStack(l, a, Stack(l, a) + [e])
  }

  function Pop(l: Ledger, a: Amount): Ledger
    requires Stack(l, a) != []
  {
    WithStack(l, a, Stack(l, a)[..|Stack(l, a)| - 1])
  }

  function Has(l: Ledger, a: Amount, g: nat): bool {
    g < |Stack(l, a)|
  }

  /** Sets the spent flag of an existing output; an index that is not there is ignored. */
  function Mark(l: Ledger, a: Amount, g: nat, flag: bool): Ledger {
    if Has(l, a, g) then WithStack(l, a, Stack(l, a)[g := Stack(l, a)[g].(spent := flag)]) else l
  }
}
