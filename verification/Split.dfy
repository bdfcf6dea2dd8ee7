/**
 The greedy splitter of `supervisor.py` for a `bridge/devices` inventory that is too large for one
 packet. A device is its own JSON document, already serialised.
 */
module Split {
  import opened Lists

  type Document = string

  function Joined(docs: seq<Document>): Document {
    if docs == [] then ""
    else if |docs| == 1 then docs[0]
    else docs[0] + "," + Joined(docs[1..])
  }

  /** `orjson.dumps` of a list: the documents in brackets, separated by commas without spaces. */
  function Dumps(docs: seq<Document>): Document {
    "[" + Joined(docs) + "]"
  }

  lemma {:induction false} JoinedConcat(a: seq<Document>, b: seq<Document>)
    ensures Joined(a + b) == if a == [] then Joined(b) else if b == [] then Joined(a) else Joined(a) + "," + Joined(b)
  {
    if a == [] {
      assert a + b == b;
    } else if b == [] {
      assert a + b == a;
    } else if |a| == 1 {
      assert (a + b)[1..] == b;
    } else {
      assert (a + b)[1..] == a[1..] + b;
      JoinedConcat(a[1..], b);
      assert a[0] + "," + (Joined(a[1..]) + "," + Joined(b)) == a[0] + "," + Joined(a[1..]) + "," + Joined(b);
    }
  }

  function SizeOf(docs: seq<Document>): nat {
    if docs == [] then 0 else SizeOf(docs[..|docs| - 1]) + |docs[|docs| - 1]|
  }

  /** A part is the documents in order, in brackets, with one comma between neighbours and nothing else. */
  lemma {:induction false} DumpsShape(docs: seq<Document>, i: nat)
    requires i < |docs|
    ensures |Dumps(docs)| == 2 + SizeOf(docs) + |docs| - 1
    ensures Dumps(docs)[0] == '[' && Dumps(docs)[|Dumps(docs)| - 1] == ']'
    ensures var at := 1 + SizeOf(docs[..i]) + i;
            && at + |docs[i]| < |Dumps(docs)| && Dumps(docs)[at..at + |docs[i]|] == docs[i]
            && (i + 1 < |docs| ==> Dumps(docs)[at + |docs[i]|] == ',')
  {
    JoinedShape(docs, i);
    JoinedSize(docs);
    var at := SizeOf(docs[..i]) + i;
    assert Dumps(docs)[1 + at..1 + at + |docs[i]|] == Joined(docs)[at..at + |docs[i]|];
  }

  lemma {:induction false} JoinedSize(docs: seq<Document>)
    ensures |Joined(docs)| == SizeOf(docs) + if docs == [] then 0 else |docs| - 1
  {
    if docs != [] {
      var last := |docs| - 1;
      assert docs == docs[..last] + [docs[last]];
      JoinedConcat(docs[..last], [docs[last]]);
      JoinedSize(docs[..last]);
    }
  }

  lemma {:induction false} JoinedShape(docs: seq<Document>, i: nat)
    requires i < |docs|
    ensures var at := SizeOf(docs[..i]) + i;
            && at + |docs[i]| <= |Joined(docs)| && Joined(docs)[at..at + |docs[i]|] == docs[i]
            && (i + 1 < |docs| ==> at + |docs[i]| < |Joined(docs)| && Joined(docs)[at + |docs[i]|] == ',')
  {
    var before, d, after := docs[..i], docs[i], docs[i + 1..];
    assert docs == before + ([d] + after);
    JoinedSize(before);
    JoinedConcat(before, [d] + after);
    JoinedConcat([d], after);
    hide Joined, SizeOf;
    OneJoined(d);
    var lead := if before == [] then "" else Joined(before) + ",";
    var tail := if after == [] then "" else "," + Joined(after);
    NothingJoined();
    assert Joined(docs) == lead + (d + tail);
    assert |lead| == SizeOf(before) + i;
  }

  lemma OneJoined(d: Document)
    ensures Joined([d]) == d
  {
  }

  lemma NothingJoined()
    ensures Joined([]) == "" && SizeOf([]) == 0
  {
  }

  predicate Fits(docs: seq<Document>, maxSize: int) {
    |Dumps(docs)| <= maxSize
  }

  /** What fits: the documents, a comma between neighbours and two brackets, within the limit. */
  lemma FitsMeans(docs: seq<Document>, maxSize: int)
    requires docs != []
    ensures Fits(docs, maxSize) <==> 2 + SizeOf(docs) + |docs| - 1 <= maxSize
  {
    DumpsShape(docs, 0);
    hide Dumps;
  }

  function Rendered(groups: seq<seq<Document>>): (parts: seq<Document>)
    ensures |parts| == |groups|
    ensures forall i :: 0 <= i < |groups| ==> parts[i] == Dumps(groups[i])
  {
    if groups == [] then [] else [Dumps(groups[0])] + Rendered(groups[1..])
  }

  /** The groups the loop still forms, given the group it is filling and the devices it has not seen. */
  function Groups(current: seq<Document>, rest: seq<Document>, maxSize: int): seq<seq<Document>>
    decreases |rest|
  {
    if rest == [] then [current]
    else if !Fits(current + [rest[0]], maxSize) && current != [] then
      [current] + Groups([rest[0]], rest[1..], maxSize)
    else
      Groups(current + [rest[0]], rest[1..], maxSize)
  }

  /** Only a part that holds a single device may be larger than a packet. */
  predicate Acceptable(groups: seq<seq<Document>>, maxSize: int) {
    forall g :: g in groups && |g| >= 2 ==> Fits(g, maxSize)
  }

  lemma {:induction false} RenderedConcat(a: seq<seq<Document>>, b: seq<seq<Document>>)
    ensures Rendered(a + b) == Rendered(a) + Rendered(b)
  {
    if a == [] {
      assert a + b == b;
    } else {
      assert (a + b)[1..] == a[1..] + b;
      RenderedConcat(a[1..], b);
    }
  }

  method SplitDevicesPayload(devices: seq<Document>, maxSize: int) returns (parts: seq<Document>)
    ensures parts == Rendered(Groups([], devices, maxSize))
  {
    parts := [];
    var current: seq<Document> := [];
    ghost var closed: seq<seq<Document>> := [];
    for i := 0 to |devices|
      invariant parts == Rendered(closed)
      invariant Groups([], devices, maxSize) == closed + Groups(current, devices[i..], maxSize)
    {
      var candidate := current + [devices[i]];
      assert devices[i..][1..] == devices[i + 1..];
      if |Dumps(candidate)| > maxSize && current != [] {
        RenderedConcat(closed, [current]);
        closed := closed + [current];
        parts := parts + [Dumps(current)];
        current := [devices[i]];
      } else {
        current := candidate;
      }
    }
    RenderedConcat(closed, [current]);
    parts := parts + [Dumps(current)];
  }

  // ---------------------------------------------------------------- the parts are a partition

  /** No device is lost, repeated or moved. */
  lemma {:induction false} GroupsPartition(current: seq<Document>, rest: seq<Document>, maxSize: int)
    ensures Flatten(Groups(current, rest, maxSize)) == current + rest
    decreases |rest|
  {
    if rest != [] {
      if !Fits(current + [rest[0]], maxSize) && current != [] {
        GroupsPartition([rest[0]], rest[1..], maxSize);
      } else {
        GroupsPartition(current + [rest[0]], rest[1..], maxSize);
      }
      assert [rest[0]] + rest[1..] == rest;
      assert current + [rest[0]] + rest[1..] == current + rest;
    }
  }

  /** Every part with two or more devices fits, and no part is empty unless there is no device. */
  lemma {:induction false} GroupsFit(current: seq<Document>, rest: seq<Document>, maxSize: int)
    requires |current| >= 2 ==> Fits(current, maxSize)
    ensures Acceptable(Groups(current, rest, maxSize), maxSize)
    ensures current + rest != [] ==> [] !in Groups(current, rest, maxSize)
    decreases |rest|
  {
    if rest != [] {
      if !Fits(current + [rest[0]], maxSize) && current != [] {
        GroupsFit([rest[0]], rest[1..], maxSize);
      } else {
        GroupsFit(current + [rest[0]], rest[1..], maxSize);
      }
    }
  }

  // ---------------------------------------------------------------- no partition has fewer parts

  lemma {:induction false} JoinedAppend(docs: seq<Document>, more: seq<Document>)
    ensures |Joined(docs)| <= |Joined(docs + more)| && |Joined(more)| <= |Joined(docs + more)|
  {
    if docs == [] {
      assert docs + more == more;
    } else if more == [] {
      assert docs + more == docs;
    } else {
      assert (docs + more)[1..] == docs[1..] + more;
      JoinedAppend(docs[1..], more);
    }
  }

  lemma SublistFits(before: seq<Document>, docs: seq<Document>, after: seq<Document>, maxSize: int)
    requires Fits(before + docs + after, maxSize)
    ensures Fits(docs, maxSize)
  {
    JoinedAppend(before, docs);
    JoinedAppend(before + docs, after);
  }

  /** A part that fits cannot reach past a point where the loop had to close its part. */
  lemma FirstPartEnds(first: seq<Document>, whole: seq<Document>, head: seq<Document>, current: seq<Document>,
                      rest: seq<Document>, maxSize: int)
    requires first <= whole && whole == head + current + rest && rest != [] && current != []
    requires |first| >= 2 ==> Fits(first, maxSize)
    requires !Fits(current + [rest[0]], maxSize)
    ensures |first| <= |head + current|
  {
    if |first| > |head + current| {
      assert first == head + (current + [rest[0]]) + first[|head + current| + 1..];
      SublistFits(head, current + [rest[0]], first[|head + current| + 1..], maxSize);
      assert false;
    }
  }

  lemma FirstPartLeads(other: seq<seq<Document>>)
    requires other != []
    ensures other[0] <= Flatten(other)
  {
  }

  lemma DropFirstPart(other: seq<seq<Document>>, seen: seq<Document>, rest: seq<Document>)
    requires other != [] && Flatten(other) == seen + rest && |other[0]| <= |seen|
    ensures Flatten(other[1..]) == seen[|other[0]|..] + rest
    ensures rest != [] ==> other[1..] != []
  {
    assert Flatten(other)[|other[0]|..] == Flatten(other[1..]);
  }

  /**
   Greedy stays ahead: whenever the loop is filling `current`, any acceptable way to cut the same
   devices, even one whose current part began earlier, still needs as many parts.
   */
  lemma {:induction false} GreedyStaysAhead(
    head: seq<Document>, current: seq<Document>, rest: seq<Document>, other: seq<seq<Document>>, maxSize: int)
    requires other != [] && Acceptable(other, maxSize) && Flatten(other) == head + current + rest
    ensures |Groups(current, rest, maxSize)| <= |other|
    decreases |rest|
  {
    hide Fits, Flatten;
    if rest != [] {
      var next := [rest[0]];
      if !Fits(current + next, maxSize) && current != [] {
        var seen := head + current;
        assert other[0] in other && forall g :: g in other[1..] ==> g in other;
        FirstPartLeads(other);
        FirstPartEnds(other[0], Flatten(other), head, current, rest, maxSize);
        DropFirstPart(other, seen, rest);
        var late := seen[|other[0]|..];
        assert late + rest == late + next + rest[1..];
        GreedyStaysAhead(late, next, rest[1..], other[1..], maxSize);
      } else {
        assert head + (current + next) + rest[1..] == head + current + rest;
        GreedyStaysAhead(head, current + next, rest[1..], other, maxSize);
      }
    }
  }

  /**
   The split keeps every device in order, lets only single devices exceed the limit, and no other
   split into at least one part that does so has fewer parts.
   */
  lemma {:induction false} SplitIsOptimal(devices: seq<Document>, maxSize: int, other: seq<seq<Document>>)
    requires other != [] && Acceptable(other, maxSize) && Flatten(other) == devices
    ensures var groups := Groups([], devices, maxSize);
            Flatten(groups) == devices && Acceptable(groups, maxSize) && |groups| <= |other|
  {
    GroupsPartition([], devices, maxSize);
    GroupsFit([], devices, maxSize);
    assert [] + [] + devices == devices;
    GreedyStaysAhead([], [], devices, other, maxSize);
  }
}
