/** The order in which Python's `sorted` lists strings, and the sorting of finite sets of names. */
module Ordering {

  datatype Option<+T> = None | Some(value: T)

  /** Strict lexicographic order by code point. */
  predicate Below(a: string, b: string)
  {
    b != "" && (a == "" || a[0] < b[0] || (a[0] == b[0] && Below(a[1..], b[1..])))
  }

  lemma BelowTotal(a: string, b: string)
    ensures a == b || Below(a, b) || Below(b, a)
    ensures !(Below(a, b) && Below(b, a))
    ensures !Below(a, a)
  {
    if a != "" && b != "" && a[0] == b[0] {
      BelowTotal(a[1..], b[1..]);
      assert a == [a[0]] + a[1..] && b == [b[0]] + b[1..];
    }
    if a != "" {
      BelowTotal(a[1..], a[1..]);
    }
  }

  lemma {:induction false} BelowTransitive(a: string, b: string, c: string)
    requires Below(a, b) && Below(b, c)
    ensures Below(a, c)
  {
    if a != "" && a[0] == b[0] == c[0] {
      BelowTransitive(a[1..], b[1..], c[1..]);
    }
  }

  /** Strictly ascending, hence free of repetitions. */
  ghost predicate Ascending(names: seq<string>)
  {
    forall i, j :: 0 <= i < j < |names| ==> Below(names[i], names[j])
  }

  predicate IsLeast(least: string, names: set<string>)
  {
    least in names && forall other :: other in names ==> other == least || Below(least, other)
  }

  lemma {:induction false} LeastExists(names: set<string>)
    requires names != {}
    ensures exists least :: IsLeast(least, names)
    decreases |names|
  {
    var one :| one in names;
    var rest := names - {one};
    if rest != {} {
      LeastExists(rest);
      var least :| IsLeast(least, rest);
      BelowTotal(one, least);
      if Below(one, least) {
        forall other | other in names ensures other == one || Below(one, other) {
          if other != one && other != least {
            BelowTransitive(one, least, other);
          }
        }
        assert IsLeast(one, names);
      } else {
        assert IsLeast(least, names);
      }
    } else {
      assert names == {one};
      assert IsLeast(one, names);
    }
  }

  lemma LeastUnique(a: string, b: string, names: set<string>)
    requires IsLeast(a, names) && IsLeast(b, names)
    ensures a == b
  {
    BelowTotal(a, b);
  }

  function Least(names: set<string>): (least: string)
    requires names != {}
    ensures IsLeast(least, names)
  {
    LeastExists(names);
    assert forall a, b | IsLeast(a, names) && IsLeast(b, names) :: a == b by {
      forall a, b | IsLeast(a, names) && IsLeast(b, names) ensures a == b {
        LeastUnique(a, b, names);
      }
    }
    var least :| IsLeast(least, names);
    least
  }

  /** `sorted(names)` for a set of names: the one ascending sequence with these members. */
  function SortNames(names: set<string>): (sorted: seq<string>)
    ensures Ascending(sorted)
    ensures forall name :: name in sorted <==> name in names
    ensures |sorted| == |names|
    decreases |names|
  {
    if names == {} then []
    else
      var least := Least(names);
      var tail := SortNames(names - {least});
      assert forall i :: 0 <= i < |tail| ==> Below(least, tail[i]) by {
        forall i | 0 <= i < |tail| ensures Below(least, tail[i]) {
          assert tail[i] in tail;
          assert tail[i] in names - {least};
        }
      }
      [least] + tail
  }

  /** Two ascending sequences with the same members are equal. */
  lemma {:induction false} AscendingUnique(a: seq<string>, b: seq<string>)
    requires Ascending(a) && Ascending(b)
    requires forall name :: name in a <==> name in b
    ensures a == b
  {
    assert forall i :: 0 <= i < |a| ==> a[i] in b;
    assert forall i :: 0 <= i < |b| ==> b[i] in a;
    if a != [] && b != [] {
      HeadIsLeast(a);
      HeadIsLeast(b);
      BelowTotal(a[0], b[0]);
      assert a[0] in b && b[0] in a;
      forall name ensures name in a[1..] <==> name in b[1..] {
        assert name in a <==> name == a[0] || name in a[1..];
        assert name in b <==> name == b[0] || name in b[1..];
      }
      AscendingUnique(a[1..], b[1..]);
    }
  }

  lemma HeadIsLeast(a: seq<string>)
    requires Ascending(a) && a != []
    ensures forall name :: name in a ==> name == a[0] || Below(a[0], name)
    ensures a[0] !in a[1..]
  {
    BelowTotal(a[0], a[0]);
    forall name | name in a ensures name == a[0] || Below(a[0], name) {
      var i :| 0 <= i < |a| && a[i] == name;
    }
  }

  /** The members of `keep`, in the order of `names`. */
  function Among(names: seq<string>, keep: set<string>): (r: seq<string>)
    ensures forall x :: x in r <==> x in names && x in keep
  {
    if names == [] then []
    else (if names[0] in keep then [names[0]] else []) + Among(names[1..], keep)
  }

  /** Seeing one more key leaves fewer keys unseen. */
  lemma Fewer(keys: set<string>, seen: set<string>, x: string)
    requires x in keys && x !in seen
    ensures |keys - (seen + {x})| < |keys - seen|
  {
    assert keys - seen == (keys - (seen + {x})) + {x};
  }
}
