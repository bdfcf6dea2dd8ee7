/** Lists of lists, and sizes of sets and lists. */
module Lists {
  function Flatten<T>(parts: seq<seq<T>>): seq<T> {
    if parts == [] then [] else parts[0] + Flatten(parts[1..])
  }

  lemma {:induction false} SubsetIsSmaller<T>(a: set<T>, b: set<T>)
    requires a <= b
    ensures |a| <= |b|
    decreases |a|
  {
    if a != {} {
      var x :| x in a;
      SubsetIsSmaller(a - {x}, b - {x});
    }
  }

  lemma {:induction false} SizeOfElements<T>(list: seq<T>)
    ensures |set x | x in list| <= |list|
    ensures (forall i, j :: 0 <= i < j < |list| ==> list[i] != list[j]) ==> |set x | x in list| == |list|
  {
    if list == [] {
      assert (set x | x in list) == {};
    } else {
      SizeOfElements(list[1..]);
      assert list == [list[0]] + list[1..];
      assert (set x | x in list) == (set x | x in list[1..]) + {list[0]};
      assert forall j :: 0 <= j < |list[1..]| ==> list[1..][j] == list[j + 1];
    }
  }

  /** A list without repeats is no longer than one that has all its elements, and shorter if that has others too. */
  lemma FewerElements<T>(list: seq<T>, more: seq<T>)
    requires forall i, j :: 0 <= i < j < |list| ==> list[i] != list[j]
    requires forall i :: 0 <= i < |list| ==> list[i] in more
    ensures |list| <= |more|
    ensures (exists i :: 0 <= i < |more| && more[i] !in list) ==> |list| < |more|
  {
    var a, b := set x | x in list, set x | x in more;
    SizeOfElements(list);
    SizeOfElements(more);
    SubsetIsSmaller(a, b);
    if i :| 0 <= i < |more| && more[i] !in list {
      SubsetIsSmaller(a, b - {more[i]});
    }
  }
}
