/** Strings as the source's language handles them: code point order, and cutting at a slash. */
module Text {
  // ---------------------------------------------------------------- order

  predicate AtMost(a: string, b: string) {
    a == "" || (b != "" && (a[0] < b[0] || (a[0] == b[0] && AtMost(a[1..], b[1..]))))
  }

  predicate Before(a: string, b: string) {
    a != b && AtMost(a, b)
  }

  lemma {:induction false} AtMostIsTotal(a: string, b: string)
    ensures AtMost(a, b) || AtMost(b, a)
    ensures AtMost(a, b) && AtMost(b, a) ==> a == b
  {
    if a != "" && b != "" && a[0] == b[0] {
      AtMostIsTotal(a[1..], b[1..]);
      assert [a[0]] + a[1..] == a && [b[0]] + b[1..] == b;
    }
  }

  lemma {:induction false} AtMostIsTransitive(a: string, b: string, c: string)
    requires AtMost(a, b) && AtMost(b, c)
    ensures AtMost(a, c)
  {
    if a != "" && a[0] == b[0] == c[0] {
      AtMostIsTransitive(a[1..], b[1..], c[1..]);
    }
  }

  lemma BeforeIsTransitive(a: string, b: string, c: string)
    requires Before(a, b) && Before(b, c)
    ensures Before(a, c)
  {
    AtMostIsTransitive(a, b, c);
    AtMostIsTotal(a, b);
  }

  /** Code point order: a prefix comes first, and else the first difference decides. */
  lemma {:induction false} AtMostMeans(a: string, b: string)
    ensures AtMost(a, b) <==>
            a <= b || exists i :: 0 <= i < |a| && i < |b| && a[..i] == b[..i] && a[i] < b[i]
  {
    if a != "" && b != "" && a[0] == b[0] {
      AtMostMeans(a[1..], b[1..]);
      assert a <= b <==> a[1..] <= b[1..] by {
        assert a == [a[0]] + a[1..] && b == [b[0]] + b[1..];
      }
      forall i | 0 <= i < |a[1..]| && i < |b[1..]| && a[1..][..i] == b[1..][..i] && a[1..][i] < b[1..][i]
        ensures a[..i + 1] == b[..i + 1] && a[i + 1] < b[i + 1]
      {
        assert a[..i + 1] == [a[0]] + a[1..][..i] && b[..i + 1] == [b[0]] + b[1..][..i];
      }
      forall i | 0 <= i < |a| && i < |b| && a[..i] == b[..i] && a[i] < b[i]
        ensures i > 0 && a[1..][..i - 1] == b[1..][..i - 1] && a[1..][i - 1] < b[1..][i - 1]
      {
        assert a[1..][..i - 1] == a[..i][1..] && b[1..][..i - 1] == b[..i][1..];
      }
    } else if a != "" && b != "" {
      assert a[0] < b[0] ==> a[..0] == b[..0];
      forall i | 0 < i <= |a| && i <= |b| ensures a[..i] != b[..i] {
        assert a[..i][0] == a[0] && b[..i][0] == b[0];
      }
    }
  }

  predicate Ascending(keys: seq<string>) {
    forall i, j :: 0 <= i < j < |keys| ==> Before(keys[i], keys[j])
  }

  // ---------------------------------------------------------------- cutting at a slash

  /** `text.split("/")`. */
  function Split(text: string): (parts: seq<string>)
    ensures parts != []
  {
    if text == "" then [""]
    else
      var rest := Split(text[1..]);
      if text[0] == '/' then [""] + rest else [[text[0]] + rest[0]] + rest[1..]
  }

  function Join(parts: seq<string>): string {
    if parts == [] then ""
    else if |parts| == 1 then parts[0]
    else parts[0] + "/" + Join(parts[1..])
  }

  predicate SlashFree(parts: seq<string>) {
    forall p :: p in parts ==> '/' !in p
  }

  lemma {:induction false} SplitThenJoin(text: string)
    ensures Join(Split(text)) == text && SlashFree(Split(text))
  {
    if text != "" {
      SplitThenJoin(text[1..]);
      var rest := Split(text[1..]);
      var parts := Split(text);
      if text[0] == '/' {
        assert parts[1..] == rest;
      } else {
        assert parts[1..] == rest[1..];
        forall p | p in parts ensures '/' !in p {
          assert p == [text[0]] + rest[0] || p in rest[1..];
          assert rest[0] in rest;
        }
      }
      assert text == [text[0]] + text[1..];
    }
  }

  lemma {:induction false} SplitHead(head: string, rest: string)
    requires '/' !in head
    ensures Split(head) == [head]
    ensures Split(head + "/" + rest) == [head] + Split(rest)
  {
    var text := head + "/" + rest;
    if head == "" {
      assert text[1..] == rest;
    } else {
      SplitHead(head[1..], rest);
      assert text[1..] == head[1..] + "/" + rest;
      assert [head[0]] + head[1..] == head;
    }
  }

  lemma {:induction false} JoinThenSplit(parts: seq<string>)
    requires parts != [] && SlashFree(parts)
    ensures Split(Join(parts)) == parts
  {
    assert parts[0] in parts;
    if |parts| == 1 {
      SplitHead(parts[0], "");
    } else {
      assert forall p :: p in parts[1..] ==> p in parts;
      JoinThenSplit(parts[1..]);
      SplitHead(parts[0], Join(parts[1..]));
    }
  }

  lemma SplitInTwo(text: string, a: string, b: string)
    requires Split(text) == [a, b]
    ensures text == a + "/" + b && '/' !in a && '/' !in b
  {
    SplitThenJoin(text);
    hide Split;
    var parts := [a, b];
    assert a in parts && b in parts;
    assert parts[1..] == [b];
  }

  lemma SplitInThree(text: string, a: string, b: string, c: string)
    requires Split(text) == [a, b, c]
    ensures text == a + "/" + (b + "/" + c) && '/' !in a && '/' !in b && '/' !in c
  {
    SplitThenJoin(text);
    hide Split;
    var parts := [a, b, c];
    assert a in parts && b in parts && c in parts;
    assert parts[1..] == [b, c] && parts[1..][1..] == [c];
    assert Join(parts[1..]) == b + "/" + Join(parts[1..][1..]);
  }

  lemma JoinIsInjective(a: seq<string>, b: seq<string>)
    requires a != [] && b != [] && SlashFree(a) && SlashFree(b) && Join(a) == Join(b)
    ensures a == b
  {
    JoinThenSplit(a);
    JoinThenSplit(b);
  }
}
