/** Finite sets of numbers have a first and a last element. */
module Orders {
  lemma {:induction false} LeastExists(s: set<nat>)
    requires s != {}
    ensures exists a <- s :: forall b <- s :: a <= b
  {
    var a := Least(s);
  }

  lemma {:induction false} Least(s: set<nat>) returns (a: nat)
    requires s != {}
    ensures a in s && forall b <- s :: a <= b
    decreases |s|
  {
    a :| a in s;
    if s != {a} {
      var b := Least(s - {a});
      forall c | c in s
        ensures b <= c || a == c
      {
        assert c == a || c in s - {a};
      }
      a := if a <= b then a else b;
    }
  }

  lemma {:induction false} GreatestExists(s: set<nat>)
    requires s != {}
    ensures exists a <- s :: forall b <- s :: b <= a
  {
    var a := Greatest(s);
  }

  lemma {:induction false} Greatest(s: set<nat>) returns (a: nat)
    requires s != {}
    ensures a in s && forall b <- s :: b <= a
    decreases |s|
  {
    a :| a in s;
    if s != {a} {
      var b := Greatest(s - {a});
      forall c | c in s
        ensures c <= b || a == c
      {
        assert c == a || c in s - {a};
      }
      a := if b <= a then a else b;
    }
  }
}
