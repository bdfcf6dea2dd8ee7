/**
 What `slugify` does to names that are not slugs yet: which letters it spells out, and that the runs of
 [a-z0-9] in a name are kept, in order, with one underscore between neighbours.
 */
module Words {
  import opened Lists
  import opened Naming

  // ---------------------------------------------------------------- the runs of a text

  /** A run of [a-z0-9] begins at `i`. */
  predicate Begins(text: string, i: nat) {
    i < |text| && IsAlnum(text[i]) && (i == 0 || !IsAlnum(text[i - 1]))
  }

  /** A maximal run of [a-z0-9], from `i` up to but not including `j`. */
  predicate IsRun(text: string, i: nat, j: nat) {
    && i < j <= |text| && (forall k :: i <= k < j ==> IsAlnum(text[k]))
    && (i == 0 || !IsAlnum(text[i - 1])) && (j == |text| || !IsAlnum(text[j]))
  }

  function BeginsBefore(text: string, n: nat): set<nat> {
    set i: nat | i < n && Begins(text, i)
  }

  predicate EndsInWord(text: string) {
    text != "" && IsAlnum(text[|text| - 1])
  }

  /** The maximal runs of [a-z0-9], in order. */
  function Words(text: string): (words: seq<string>)
    ensures EndsInWord(text) ==> words != []
  {
    if text == "" then []
    else
      var last := |text| - 1;
      var before := Words(text[..last]);
      if !IsAlnum(text[last]) then before
      else if EndsInWord(text[..last]) then before[..|before| - 1] + [before[|before| - 1] + [text[last]]]
      else before + [[text[last]]]
  }

  lemma BeginsInPrefix(text: string)
    requires text != ""
    ensures var last := |text| - 1;
            BeginsBefore(text, |text|) == BeginsBefore(text[..last], last) + if Begins(text, last) then {last} else {}
  {
    var last := |text| - 1;
    forall i: nat | i < last ensures Begins(text, i) <==> Begins(text[..last], i) {
    }
  }

  /** There are as many words as runs. */
  lemma {:induction false} WordsAreCounted(text: string)
    ensures |Words(text)| == |BeginsBefore(text, |text|)|
  {
    if text != "" {
      var last := |text| - 1;
      WordsAreCounted(text[..last]);
      BeginsInPrefix(text);
      assert last !in BeginsBefore(text[..last], last);
      hide BeginsBefore;
    }
  }

  lemma BeginsInHead(text: string, i: nat)
    requires text != "" && i < |text|
    ensures BeginsBefore(text, i) == BeginsBefore(text[..|text| - 1], i)
  {
    forall n: nat | n < i ensures Begins(text, n) <==> Begins(text[..|text| - 1], n) {
    }
  }

  lemma RunInHead(text: string, i: nat, j: nat)
    requires IsRun(text, i, j)
    ensures var head := text[..|text| - 1];
            && (j < |text| ==> IsRun(head, i, j) && head[i..j] == text[i..j])
            && (j == |text| && i + 1 < |text| ==>
                  IsRun(head, i, |head|) && EndsInWord(head) && text[i..j] == head[i..|head|] + [text[|head|]])
            && (j == |text| && i + 1 == |text| ==> text[i..j] == [text[i]] && !EndsInWord(head))
  {
  }

  lemma WordsOfHead(text: string)
    requires text != ""
    ensures var last := |text| - 1;
            var before := Words(text[..last]);
            Words(text) ==
            if !IsAlnum(text[last]) then before
            else if EndsInWord(text[..last]) then before[..|before| - 1] + [before[|before| - 1] + [text[last]]]
            else before + [[text[last]]]
  {
  }

  /** Word `k` is the run with `k` runs before it. */
  lemma {:induction false} WordOfRun(text: string, i: nat, j: nat)
    requires IsRun(text, i, j)
    ensures var k := |BeginsBefore(text, i)|; k < |Words(text)| && Words(text)[k] == text[i..j]
  {
    hide Words, BeginsBefore, Begins;
    var head := text[..|text| - 1];
    RunInHead(text, i, j);
    BeginsInHead(text, i);
    WordsOfHead(text);
    if j < |text| {
      hide IsRun;
      WordOfRun(head, i, j);
      WordStays(text, i, j);
    } else if i == |head| {
      assert IsAlnum(text[i]);
      hide IsRun;
      WordsAreCounted(head);
    } else {
      assert IsAlnum(text[|head|]);
      hide IsRun;
      WordOfRun(head, i, |head|);
      LastRunIsLastWord(head, i);
    }
  }

  /** The words of a text that ends in a run end with that run. */
  lemma {:induction false} LastRunIsLastWord(text: string, i: nat)
    requires IsRun(text, i, |text|)
    ensures |BeginsBefore(text, i)| + 1 == |Words(text)|
  {
    hide Words;
    WordsAreCounted(text);
    assert BeginsBefore(text, |text|) == BeginsBefore(text, i) + {i};
    assert i !in BeginsBefore(text, i);
  }

  /** An earlier run has fewer runs before it. */
  lemma EarlierRun(text: string, i: nat, b: nat)
    requires Begins(text, i) && i < b
    ensures |BeginsBefore(text, i)| < |BeginsBefore(text, b)|
  {
    var more := BeginsBefore(text, i) + {i};
    assert i !in BeginsBefore(text, i);
    SubsetIsSmaller(more, BeginsBefore(text, b));
  }

  /** A run that ends before the last character is a word that the last character does not extend. */
  lemma {:induction false} WordStays(text: string, i: nat, j: nat)
    requires IsRun(text, i, j) && j < |text|
    requires var k := |BeginsBefore(text, i)|; k < |Words(text[..|text| - 1])|
    ensures var k := |BeginsBefore(text, i)|;
            k < |Words(text)| && Words(text)[k] == Words(text[..|text| - 1])[k]
  {
    hide Words, BeginsBefore;
    var head := text[..|text| - 1];
    BeginsInHead(text, i);
    WordsOfHead(text);
    if IsAlnum(text[|head|]) && EndsInWord(head) {
      assert !IsAlnum(text[j]) && j < |head|;
      var b := StartOfLastRun(head);
      assert head[j] == text[j] && i < b && Begins(head, i);
      hide IsRun, Begins;
      LastRunIsLastWord(head, b);
      EarlierRun(head, i, b);
    }
  }

  lemma {:induction false} StartOfLastRun(text: string) returns (i: nat)
    requires EndsInWord(text)
    ensures IsRun(text, i, |text|)
  {
    var last := |text| - 1;
    if EndsInWord(text[..last]) {
      i := StartOfLastRun(text[..last]);
    } else {
      i := last;
    }
  }

  // ---------------------------------------------------------------- what collapsing does to them

  /** The words with one underscore between neighbours. */
  function Joined(words: seq<string>): string {
    if words == [] then ""
    else if |words| == 1 then words[0]
    else Joined(words[..|words| - 1]) + "_" + words[|words| - 1]
  }

  /** Words are not empty and have no separator in them. */
  predicate AreWords(words: seq<string>) {
    forall i :: 0 <= i < |words| ==> words[i] != "" && forall k :: 0 <= k < |words[i]| ==> IsAlnum(words[i][k])
  }

  lemma {:induction false} WordsAreWords(text: string)
    ensures AreWords(Words(text))
  {
    if text != "" {
      WordsAreWords(text[..|text| - 1]);
    }
  }

  lemma JoinedByWord(words: seq<string>, w: string)
    ensures Joined(words + [w]) == Joined(words) + (if words == [] then "" else "_") + w
  {
    assert (words + [w])[..|words|] == words;
  }

  lemma Regrouped(a: string, b: string, c: string)
    ensures a + (b + c) == a + b + c
  {
  }

  lemma JoinedByLetter(words: seq<string>, c: char)
    requires words != []
    ensures Joined(words[..|words| - 1] + [words[|words| - 1] + [c]]) == Joined(words) + [c]
  {
    hide Joined;
    var last := |words| - 1;
    var rest, w := words[..last], words[last];
    assert words == rest + [w];
    hide *;
    JoinedByWord(rest, w + [c]);
    JoinedByWord(rest, w);
    Regrouped(Joined(rest) + (if rest == [] then "" else "_"), w, [c]);
  }

  /** A character more is kept, is the first of a run of separators, or continues one. */
  lemma {:induction false} CollapseGrows(text: string, c: char, inRun: bool)
    ensures Collapse(text + [c], inRun) ==
            Collapse(text, inRun) +
            (if IsAlnum(c) then [c] else if (if text == "" then inRun else !EndsInWord(text)) then "" else "_")
  {
    if text == "" {
      assert (text + [c])[1..] == "";
      assert [c] + "" == [c] && "_" + "" == "_";
    } else {
      assert (text + [c])[1..] == text[1..] + [c];
      CollapseGrows(text[1..], c, !IsAlnum(text[0]));
    }
  }

  /** The words of the text joined, and one underscore for the separators at either edge. */
  function Edged(text: string): string {
    if Words(text) == [] then (if text == "" then "" else "_")
    else (if IsAlnum(text[0]) then "" else "_") + Joined(Words(text)) + (if EndsInWord(text) then "" else "_")
  }

  lemma EdgedBySeparator(head: string, c: char)
    requires !IsAlnum(c)
    ensures Edged(head + [c]) == Edged(head) + if head == "" || EndsInWord(head) then "_" else ""
  {
    hide Joined;
    var text := head + [c];
    assert text[..|head|] == head && Words(text) == Words(head);
    hide Words;
    if Words(head) != [] {
      NoWordOfNothing();
      assert text[0] == head[0];
    }
  }

  lemma NoWordOfNothing()
    ensures Words("") == []
  {
  }

  lemma WordsByLetter(head: string, c: char)
    requires IsAlnum(c)
    ensures var before := Words(head);
            && Words(head + [c]) == (if EndsInWord(head) then
                                       before[..|before| - 1] + [before[|before| - 1] + [c]]
                                     else before + [[c]])
            && EndsInWord(head + [c]) && (head + [c])[0] == if head == "" then c else head[0]
  {
    assert (head + [c])[..|head|] == head;
  }

  lemma EdgedInWord(head: string, c: char)
    requires IsAlnum(c) && EndsInWord(head)
    ensures Edged(head + [c]) == Edged(head) + [c]
  {
    hide Joined, Words;
    WordsByLetter(head, c);
    JoinedByLetter(Words(head), c);
    Regrouped(if IsAlnum(head[0]) then "" else "_", Joined(Words(head)), [c]);
  }

  lemma EdgedByNewWord(head: string, c: char)
    requires IsAlnum(c) && !EndsInWord(head)
    ensures Edged(head + [c]) == Edged(head) + [c]
  {
    hide Joined, Words;
    WordsByLetter(head, c);
    JoinedByWord(Words(head), [c]);
    if Words(head) == [] {
      NothingJoined();
      NoWordsNoLetters(head);
    } else {
      NoWordOfNothing();
      var lead := if IsAlnum(head[0]) then "" else "_";
      Regrouped(lead, Joined(Words(head)) + "_", [c]);
      Regrouped(lead, Joined(Words(head)), "_");
    }
  }

  lemma EdgedByLetter(head: string, c: char)
    requires IsAlnum(c)
    ensures Edged(head + [c]) == Edged(head) + [c]
  {
    hide *;
    if EndsInWord(head) {
      EdgedInWord(head, c);
    } else {
      EdgedByNewWord(head, c);
    }
  }

  lemma NothingJoined()
    ensures Joined([]) == ""
  {
  }

  /** Collapsing keeps the words, and puts one underscore for every run of separators, at the edges too. */
  lemma {:induction false} CollapsedIsJoined(text: string)
    ensures Collapse(text, false) == Edged(text)
  {
    if text != "" {
      hide Edged, Collapse;
      var last := |text| - 1;
      var head, c := text[..last], text[last];
      assert text == head + [c];
      CollapseGrows(head, c, false);
      CollapsedIsJoined(head);
      if IsAlnum(c) {
        EdgedByLetter(head, c);
      } else {
        EdgedBySeparator(head, c);
      }
    } else {
      NoWordOfNothing();
    }
  }

  lemma {:induction false} NoWordsNoLetters(text: string)
    requires Words(text) == []
    ensures forall i :: 0 <= i < |text| ==> !IsAlnum(text[i])
  {
    if text != "" {
      NoWordsNoLetters(text[..|text| - 1]);
    }
  }

  /** The joined words begin and end with a letter or digit, and underscores stand alone between them. */
  lemma {:induction false} JoinedShape(words: seq<string>)
    requires AreWords(words) && words != []
    ensures var s := Joined(words); s != "" && IsAlnum(s[0]) && IsAlnum(s[|s| - 1])
  {
    if |words| > 1 {
      JoinedShape(words[..|words| - 1]);
    }
  }

  /** Nothing but the underscores at the edges is stripped. */
  lemma StripEdges(core: string, before: string, after: string)
    requires before in {"", "_"} && after in {"", "_"}
    requires core != "" && IsAlnum(core[0]) && IsAlnum(core[|core| - 1])
    ensures Strip(before + core + after) == core
  {
    var text := before + core + after;
    if before == "_" {
      assert text[0] == '_' && text[1..] == core + after;
    } else {
      assert text == core + after;
    }
    assert (core + after)[0] == core[0];
    assert StripLeft(text) == core + after;
    assert StripRight(core) == core;
    if after == "_" {
      assert (core + after)[|core|] == '_' && (core + after)[..|core|] == core;
      assert StripRight(core + after) == StripRight(core);
    } else {
      assert core + after == core;
    }
  }

  /** Before it is cut to length, a slug is the words of the text with one underscore between neighbours. */
  lemma StrippedIsJoined(text: string)
    ensures Strip(Collapse(text, false)) == Joined(Words(text))
  {
    CollapsedIsJoined(text);
    if Words(text) == [] {
      assert ("_")[1..] == "";
    } else {
      WordsAreWords(text);
      JoinedShape(Words(text));
      hide Joined, Words, Collapse;
      StripEdges(Joined(Words(text)), if IsAlnum(text[0]) then "" else "_", if EndsInWord(text) then "" else "_");
    }
  }

  // ---------------------------------------------------------------- the slug of a name

  /** The first 64 characters, without the underscore that the cut may leave at the end. */
  function CutToLength(slug: string): string {
    if |slug| <= 64 then slug else if slug[63] == '_' then slug[..63] else slug[..64]
  }

  lemma StripEnd(text: string)
    requires |text| > 1 && IsAlnum(text[0]) && (text[|text| - 1] == '_' ==> IsAlnum(text[|text| - 2]))
    requires IsAlnum(text[|text| - 1]) || text[|text| - 1] == '_'
    ensures Strip(text) == if text[|text| - 1] == '_' then text[..|text| - 1] else text
  {
    assert StripLeft(text) == text;
    var short := text[..|text| - 1];
    assert short[|text| - 2] == text[|text| - 2];
    assert text[|text| - 1] == '_' ==> StripRight(short) == short;
  }

  lemma TruncatedIsCut(slug: string)
    requires |slug| > 64 && IsAlnum(slug[0]) && SlugChars(slug) && SingleUnderscores(slug)
    ensures Strip(Truncate(slug)) == CutToLength(slug)
  {
    var cut := slug[..64];
    assert Truncate(slug) == cut;
    assert cut[63] == slug[63] && cut[62] == slug[62] && cut[0] == slug[0];
    assert slug[62] != '_' || slug[63] != '_';
    StripEnd(cut);
    assert cut[..63] == slug[..63];
  }

  lemma ShortIsKept(slug: string)
    requires slug != "" && |slug| <= 64 && IsAlnum(slug[0]) && IsAlnum(slug[|slug| - 1])
    ensures Strip(Truncate(slug)) == slug
  {
    assert "" + slug + "" == slug;
    StripEdges(slug, "", "");
  }

  /** What `slugify` makes of the text after transliteration: its words, joined, cut to length, or `unnamed`. */
  lemma SlugIsItsWords(text: string)
    ensures SlugTail(text) == if Words(text) == [] then "unnamed" else CutToLength(Joined(Words(text)))
  {
    StrippedIsJoined(text);
    CollapseShape(text, false);
    StripShape(Collapse(text, false));
    WordsAreWords(text);
    var core := Joined(Words(text));
    if Words(text) != [] {
      JoinedShape(Words(text));
      hide Words, Joined, Collapse, Strip, SingleUnderscores, SlugChars;
      if |core| > 64 {
        TruncatedIsCut(core);
        assert core[0] == CutToLength(core)[0];
      } else {
        ShortIsKept(core);
      }
    }
  }

  lemma SeparatorAddsNoWord(text: string)
    ensures Words(text + "_") == Words(text) && !EndsInWord(text + "_")
  {
    assert (text + "_")[..|text|] == text && (text + "_")[|text|] == '_';
  }

  /** Joining loses nothing: the words of the joined words are those words. */
  lemma {:induction false} WordsOfJoined(words: seq<string>)
    requires AreWords(words)
    ensures Words(Joined(words)) == words
  {
    hide Words, Joined;
    NoWordOfNothing();
    NothingJoined();
    if words != [] {
      var last := |words| - 1;
      var w, joined := words[last], Joined(words[..last]);
      assert words == words[..last] + [w];
      WordsOfJoined(words[..last]);
      JoinedByWord(words[..last], w);
      if last == 0 {
        assert "" + "" + w == w && "" + w == w;
        WordsOfMore("", w);
      } else {
        SeparatorAddsNoWord(joined);
        WordsOfMore(joined + "_", w);
      }
    }
  }

  /** A word after a separator is one word more. */
  lemma {:induction false} WordsOfMore(text: string, w: string)
    requires !EndsInWord(text) && w != "" && forall k :: 0 <= k < |w| ==> IsAlnum(w[k])
    ensures Words(text + w) == Words(text) + [w]
  {
    var last := |w| - 1;
    assert (text + w)[..|text + w| - 1] == text + w[..last];
    assert w == w[..last] + [w[last]];
    if last == 0 {
      assert text + w[..0] == text;
    } else {
      WordsOfMore(text, w[..last]);
      assert EndsInWord(text + w[..last]);
    }
  }

  /** A slug that is not cut has exactly the words of its text. */
  lemma SlugKeepsWords(text: string)
    requires Words(text) != [] && |Joined(Words(text))| <= 64
    ensures Words(SlugTail(text)) == Words(text)
  {
    SlugIsItsWords(text);
    WordsAreWords(text);
    WordsOfJoined(Words(text));
  }

  // ---------------------------------------------------------------- transliteration

  lemma {:induction false} ReplaceConcat(a: string, b: string, from: char, to: string)
    ensures ReplaceChar(a + b, from, to) == ReplaceChar(a, from, to) + ReplaceChar(b, from, to)
  {
    if a == "" {
      assert a + b == b;
    } else {
      assert (a + b)[1..] == a[1..] + b;
      ReplaceConcat(a[1..], b, from, to);
    }
  }

  lemma {:induction false} TransliterateConcat(a: string, b: string, table: seq<(char, string)>)
    ensures Transliterate(a + b, table) == Transliterate(a, table) + Transliterate(b, table)
    decreases |table|
  {
    if table != [] {
      ReplaceConcat(a, b, table[0].0, table[0].1);
      hide ReplaceChar;
      TransliterateConcat(ReplaceChar(a, table[0].0, table[0].1), ReplaceChar(b, table[0].0, table[0].1), table[1..]);
    }
  }

  /** Each letter on its own: the three umlauts and the sharp s are spelled out, all else is kept. */
  lemma TransliterateSpells(c: char, rest: string)
    ensures Transliterate("", UMLAUT_TABLE) == ""
    ensures Transliterate([c] + rest, UMLAUT_TABLE) ==
            (if c == '\U{00e4}' then "ae" else if c == '\U{00f6}' then "oe" else if c == '\U{00fc}' then "ue"
             else if c == '\U{00df}' then "ss" else [c]) + Transliterate(rest, UMLAUT_TABLE)
  {
    TransliterateConcat([c], rest, UMLAUT_TABLE);
    SpellOne(c);
    NothingToSpell(UMLAUT_TABLE);
    hide Transliterate;
  }

  lemma {:induction false} NothingToSpell(table: seq<(char, string)>)
    ensures Transliterate("", table) == ""
    decreases |table|
  {
    if table != [] {
      NothingToSpell(table[1..]);
    }
  }

  lemma ReplaceTwo(c: char, d: char, from: char, to: string)
    ensures ReplaceChar([c], from, to) == if c == from then to else [c]
    ensures c != from && d != from ==> ReplaceChar([c, d], from, to) == [c, d]
  {
    assert [c][1..] == "" && [c, d][1..] == [d] && [d][1..] == "";
  }

  lemma TransliterateIsFour(text: string)
    ensures var t := UMLAUT_TABLE;
            Transliterate(text, t) ==
            ReplaceChar(ReplaceChar(ReplaceChar(ReplaceChar(text, t[0].0, t[0].1), t[1].0, t[1].1), t[2].0, t[2].1),
              t[3].0, t[3].1)
  {
    hide ReplaceChar;
    var t := UMLAUT_TABLE;
    var u, v, w := t[1..], t[1..][1..], t[1..][1..][1..];
    assert u[0] == t[1] && v[0] == t[2] && w[0] == t[3] && w[1..] == [];
    var a := ReplaceChar(text, t[0].0, t[0].1);
    var b := ReplaceChar(a, t[1].0, t[1].1);
    var c := ReplaceChar(b, t[2].0, t[2].1);
    var d := ReplaceChar(c, t[3].0, t[3].1);
    assert Transliterate(d, []) == d;
    assert Transliterate(c, w) == d;
    assert Transliterate(b, v) == Transliterate(c, w);
    assert Transliterate(a, u) == Transliterate(b, v);
  }

  lemma SpellOne(c: char)
    ensures Transliterate([c], UMLAUT_TABLE) ==
            if c == '\U{00e4}' then "ae" else if c == '\U{00f6}' then "oe" else if c == '\U{00fc}' then "ue"
            else if c == '\U{00df}' then "ss" else [c]
  {
    hide Transliterate, ReplaceChar;
    TransliterateIsFour([c]);
    ReplaceTwo(c, c, '\U{00e4}', "ae");
    ReplaceTwo(c, c, '\U{00f6}', "oe");
    ReplaceTwo(c, c, '\U{00fc}', "ue");
    ReplaceTwo(c, c, '\U{00df}', "ss");
    if c == '\U{00e4}' {
      ReplaceTwo('a', 'e', '\U{00f6}', "oe");
      ReplaceTwo('a', 'e', '\U{00fc}', "ue");
      ReplaceTwo('a', 'e', '\U{00df}', "ss");
    } else if c == '\U{00f6}' {
      ReplaceTwo('o', 'e', '\U{00fc}', "ue");
      ReplaceTwo('o', 'e', '\U{00df}', "ss");
    } else if c == '\U{00fc}' {
      ReplaceTwo('u', 'e', '\U{00df}', "ss");
    }
  }

  /** The slug of a name: lower-cased, spelled out, decomposed, and then its words. */
  lemma SlugOfName(u: Unicode, name: string)
    ensures var text := u.decompose(Transliterate(u.lower(name), UMLAUT_TABLE));
            Slug(u, name) == if Words(text) == [] then "unnamed" else CutToLength(Joined(Words(text)))
  {
    SlugIsItsWords(u.decompose(Transliterate(u.lower(name), UMLAUT_TABLE)));
  }
}
