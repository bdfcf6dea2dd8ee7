/** JSON objects are maps without an order; the compiler walks their keys sorted. */
module Keys {
  import opened Text

  ghost predicate IsLeast(keys: set<string>, k: string) {
    k in keys && forall j :: j in keys ==> AtMost(k, j)
  }

  lemma {:induction false} LeastExists(keys: set<string>)
    requires keys != {}
    ensures exists k :: IsLeast(keys, k)
    decreases |keys|
  {
    var c :| c in keys;
    AtMostIsTotal(c, c);
    if keys == {c} {
      assert IsLeast(keys, c);
    } else {
      LeastExists(keys - {c});
      var rest :| IsLeast(keys - {c}, rest);
      AtMostIsTotal(c, rest);
      if AtMost(rest, c) {
        assert IsLeast(keys, rest);
      } else {
        forall j | j in keys ensures AtMost(c, j) {
          if j != c {
            AtMostIsTransitive(c, rest, j);
          }
        }
        assert IsLeast(keys, c);
      }
    }
  }

  ghost function Least(keys: set<string>): (k: string)
    requires keys != {}
    ensures IsLeast(keys, k)
  {
    LeastExists(keys);
    var k :| IsLeast(keys, k);
    k
  }

  /** `sorted(keys)`. */
  ghost function Sorted(keys: set<string>): seq<string>
    decreases |keys|
  {
    if keys == {} then [] else [Least(keys)] + Sorted(keys - {Least(keys)})
  }

  lemma {:induction false} SortedIsSorted(keys: set<string>)
    ensures Ascending(Sorted(keys))
    ensures forall k :: k in Sorted(keys) <==> k in keys
    decreases |keys|
  {
    if keys != {} {
      var least, rest := Least(keys), Sorted(keys - {Least(keys)});
      SortedIsSorted(keys - {least});
      assert forall j :: 0 <= j < |rest| ==> rest[j] in rest;
      hide AtMost;
    }
  }

  /** There is only one way to put a set of keys in order. */
  lemma {:induction false} AscendingIsUnique(a: seq<string>, b: seq<string>)
    requires Ascending(a) && Ascending(b) && forall k :: k in a <==> k in b
    ensures a == b
  {
    hide AtMost;
    assert (a != [] ==> a[0] in b) && (b != [] ==> b[0] in a);
    if a != [] {
      FirstOfAscending(a, b[0]);
      FirstOfAscending(b, a[0]);
      AtMostIsTotal(a[0], b[0]);
      forall k ensures k in a[1..] <==> k in b[1..] {
        TailOfAscending(a, k);
        TailOfAscending(b, k);
      }
      AscendingIsUnique(a[1..], b[1..]);
      assert a == [a[0]] + a[1..] && b == [b[0]] + b[1..];
    }
  }

  lemma FirstOfAscending(a: seq<string>, k: string)
    requires Ascending(a) && k in a
    ensures AtMost(a[0], k)
  {
    AtMostIsTotal(k, k);
    hide AtMost;
  }

  lemma TailOfAscending(a: seq<string>, k: string)
    requires Ascending(a) && a != []
    ensures k in a[1..] <==> k in a && k != a[0]
  {
    hide AtMost;
    assert forall i :: 0 <= i < |a[1..]| ==> a[1..][i] == a[i + 1];
    if k in a && k != a[0] {
      var i :| 0 <= i < |a| && a[i] == k;
      assert a[1..][i - 1] == k;
    }
  }

  function Insert(k: string, sorted: seq<string>): seq<string> {
    if sorted == [] || AtMost(k, sorted[0]) then [k] + sorted else [sorted[0]] + Insert(k, sorted[1..])
  }

  lemma {:induction false} InsertKeepsOrder(k: string, sorted: seq<string>)
    requires Ascending(sorted) && k !in sorted
    ensures Ascending(Insert(k, sorted))
    ensures forall j :: j in Insert(k, sorted) <==> j == k || j in sorted
  {
    if sorted == [] {
    } else if AtMost(k, sorted[0]) {
      hide AtMost;
      forall j | 0 <= j < |sorted| ensures Before(k, sorted[j]) {
        AtMostIsTotal(k, k);
        FirstOfAscending(sorted, sorted[j]);
        AtMostIsTransitive(k, sorted[0], sorted[j]);
      }
      assert forall j :: j in [k] + sorted <==> j == k || j in sorted;
    } else {
      AtMostIsTotal(k, sorted[0]);
      hide AtMost;
      var rest := Insert(k, sorted[1..]);
      InsertKeepsOrder(k, sorted[1..]);
      assert sorted == [sorted[0]] + sorted[1..];
      forall j | 0 <= j < |rest| ensures Before(sorted[0], rest[j]) {
        assert rest[j] in rest;
        if rest[j] != k {
          assert rest[j] in sorted[1..];
          TailOfAscending(sorted, rest[j]);
          FirstOfAscending(sorted, rest[j]);
        }
      }
    }
  }

  method Sort(keys: set<string>) returns (sorted: seq<string>)
    ensures sorted == Sorted(keys)
  {
    hide Insert, AtMost;
    sorted := [];
    var rest := keys;
    while rest != {}
      invariant rest <= keys && Ascending(sorted)
      invariant forall k :: k in sorted <==> k in keys && k !in rest
    {
      var k :| k in rest;
      InsertKeepsOrder(k, sorted);
      sorted, rest := Insert(k, sorted), rest - {k};
    }
    SortedIsSorted(keys);
    AscendingIsUnique(sorted, Sorted(keys));
  }
}
