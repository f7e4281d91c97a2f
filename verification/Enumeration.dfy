/** `itertools.product`: every choice of one element per pool, the last pool varying fastest. */
module Enumeration {

  function PrefixAll<T>(x: T, tails: seq<seq<T>>): seq<seq<T>>
  {
    if tails == [] then [] else [[x] + tails[0]] + PrefixAll(x, tails[1..])
  }

  function PrefixEach<T>(xs: seq<T>, tails: seq<seq<T>>): seq<seq<T>>
  {
    if xs == [] then [] else PrefixAll(xs[0], tails) + PrefixEach(xs[1..], tails)
  }

  function Product<T>(pools: seq<seq<T>>): seq<seq<T>>
  {
    if pools == [] then [[]] else PrefixEach(pools[0], Product(pools[1..]))
  }

  /** `choice` picks one member of each pool. */
  ghost predicate Picks<T>(choice: seq<T>, pools: seq<seq<T>>)
  {
    |choice| == |pools| && forall i :: 0 <= i < |pools| ==> choice[i] in pools[i]
  }

  lemma {:induction false} PrefixAllMembers<T>(x: T, tails: seq<seq<T>>, choice: seq<T>)
    ensures choice in PrefixAll(x, tails) <==> choice != [] && choice[0] == x && choice[1..] in tails
  {
    if tails != [] {
      PrefixAllMembers(x, tails[1..], choice);
      assert choice in tails[1..] || choice == tails[0] <==> choice in tails;
      if choice != [] && choice[0] == x && choice[1..] == tails[0] {
        assert choice == [x] + tails[0];
      }
    }
  }

  lemma {:induction false} PrefixEachMembers<T>(xs: seq<T>, tails: seq<seq<T>>, choice: seq<T>)
    ensures choice in PrefixEach(xs, tails) <==> choice != [] && choice[0] in xs && choice[1..] in tails
  {
    if xs != [] {
      PrefixAllMembers(xs[0], tails, choice);
      PrefixEachMembers(xs[1..], tails, choice);
      assert xs == [xs[0]] + xs[1..];
    }
  }

  /** The enumeration contains exactly the choices of one element per pool. */
  lemma {:induction false} ProductMembers<T>(pools: seq<seq<T>>, choice: seq<T>)
    ensures choice in Product(pools) <==> Picks(choice, pools)
  {
    if pools != [] {
      PrefixEachMembers(pools[0], Product(pools[1..]), choice);
      if choice != [] {
        ProductMembers(pools[1..], choice[1..]);
        if Picks(choice, pools) {
          assert forall i :: 0 <= i < |pools[1..]| ==> choice[1..][i] in pools[1..][i];
        }
      }
    }
  }

  // ---------------------------------------------------------------- the order of the enumeration

  /** The order of tuples of numbers, first entry first. */
  predicate LexBelow(a: seq<int>, b: seq<int>)
  {
    a != [] && b != [] && (a[0] < b[0] || (a[0] == b[0] && LexBelow(a[1..], b[1..])))
  }

  ghost predicate Rising(xs: seq<int>)
  {
    forall i, j :: 0 <= i < j < |xs| ==> xs[i] < xs[j]
  }

  ghost predicate LexRising(tuples: seq<seq<int>>)
  {
    forall i, j :: 0 <= i < j < |tuples| ==> LexBelow(tuples[i], tuples[j])
  }

  lemma {:induction false} PrefixAllRises(x: int, tails: seq<seq<int>>)
    requires LexRising(tails)
    ensures LexRising(PrefixAll(x, tails)) && forall t :: t in PrefixAll(x, tails) ==> t != [] && t[0] == x
  {
    PrefixAllAt(x, tails);
    var all := PrefixAll(x, tails);
    forall i, j | 0 <= i < j < |all| ensures LexBelow(all[i], all[j]) {
      assert all[i][1..] == tails[i] && all[j][1..] == tails[j];
    }
  }

  lemma {:induction false} PrefixAllAt<T>(x: T, tails: seq<seq<T>>)
    ensures |PrefixAll(x, tails)| == |tails|
    ensures forall i :: 0 <= i < |tails| ==> PrefixAll(x, tails)[i] == [x] + tails[i]
  {
    if tails != [] {
      PrefixAllAt(x, tails[1..]);
    }
  }

  lemma {:induction false} PrefixEachRises(xs: seq<int>, tails: seq<seq<int>>)
    requires Rising(xs) && LexRising(tails)
    ensures LexRising(PrefixEach(xs, tails))
  {
    if xs != [] {
      var first, rest := PrefixAll(xs[0], tails), PrefixEach(xs[1..], tails);
      PrefixAllRises(xs[0], tails);
      PrefixEachRises(xs[1..], tails);
      forall a, b | a in first && b in rest ensures LexBelow(a, b) {
        PrefixEachMembers(xs[1..], tails, b);
      }
    }
  }

  /** Over rising pools the tuples come in lexicographic order, each once. */
  lemma {:induction false} ProductRises(pools: seq<seq<int>>)
    requires forall i :: 0 <= i < |pools| ==> Rising(pools[i])
    ensures LexRising(Product(pools))
  {
    if pools != [] {
      ProductRises(pools[1..]);
      PrefixEachRises(pools[0], Product(pools[1..]));
    }
  }
}
