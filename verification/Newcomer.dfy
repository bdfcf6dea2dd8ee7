/**
 When a new entity leaves the slugs of the others alone. The resolution is first given a definition that
 does not mention its loop: everyone holds the first eligible option that no smaller id holds.
 */
module Newcomer {
  import opened Wrappers
  import opened Text
  import opened Claims
  import opened Naming

  // ---------------------------------------------------------------- the resolution without its loop

  /** The slugs held by the claims whose id comes before `id`. */
  function HeldBefore(cs: seq<Claim>, slugs: map<string, string>, id: string): set<string> {
    set c | c in cs && c.id in slugs && Before(c.id, id) :: slugs[c.id]
  }

  /** Every claim holds its first eligible option that is neither gone nor held by a smaller id. */
  ghost predicate SettledFrom(all: seq<Claim>, cs: seq<Claim>, claimed: set<string>, slugs: map<string, string>) {
    slugs.Keys == Ids(cs) &&
    forall c :: c in cs ==> c.id in slugs && Choice(all, c, claimed + HeldBefore(cs, slugs, c.id)) == Some(slugs[c.id])
  }

  lemma HeldWithoutFirst(cs: seq<Claim>, slugs: map<string, string>, id: string)
    requires cs != [] && Ordered(cs) && cs[0].id in slugs && Before(cs[0].id, id)
    ensures HeldBefore(cs, slugs, id) == {slugs[cs[0].id]} + HeldBefore(cs[1..], slugs - {cs[0].id}, id)
  {
    hide Before;
    OrderedHasDistinctIds(cs);
    MembersHaveIds(cs[1..]);
    assert cs == [cs[0]] + cs[1..];
  }

  lemma NobodyBeforeFirst(cs: seq<Claim>, slugs: map<string, string>)
    requires cs != [] && Ordered(cs)
    ensures HeldBefore(cs, slugs, cs[0].id) == {}
  {
    forall c | c in cs ensures !Before(c.id, cs[0].id) {
      assert cs == [cs[0]] + cs[1..];
      AtMostIsTotal(c.id, cs[0].id);
    }
  }

  lemma {:induction false} AssignSettles(
    all: seq<Claim>, cs: seq<Claim>, claimed: set<string>, slugs: map<string, string>)
    requires Ordered(cs)
    ensures Assign(all, cs, claimed) == Resolved(slugs) <==> SettledFrom(all, cs, claimed, slugs)
  {
    if cs != [] {
      var first, rest := cs[0], cs[1..];
      var chosen := Choice(all, first, claimed);
      assert cs == [first] + rest;
      NobodyBeforeFirst(cs, slugs);
      OrderedHasDistinctIds(cs);
      assert claimed + HeldBefore(cs, slugs, first.id) == claimed;
      if chosen.Some? && first.id in slugs && slugs[first.id] == chosen.value {
        var others := slugs - {first.id};
        AssignSettles(all, rest, claimed + {chosen.value}, others);
        RestSettles(all, cs, claimed, slugs);
        if Assign(all, rest, claimed + {chosen.value}).Resolved? {
          AssignNamesEveryone(all, rest, claimed + {chosen.value});
        }
        hide SettledFrom;
        PutBack(first.id, chosen.value, Assign(all, rest, claimed + {chosen.value}), slugs);
      } else {
        FirstIsNamed(all, cs, claimed, slugs);
        hide Assign, Choice;
      }
    }
  }

  lemma RestSettles(all: seq<Claim>, cs: seq<Claim>, claimed: set<string>, slugs: map<string, string>)
    requires cs != [] && Ordered(cs) && cs[0].id in slugs && Choice(all, cs[0], claimed) == Some(slugs[cs[0].id])
    ensures SettledFrom(all, cs, claimed, slugs) <==>
            SettledFrom(all, cs[1..], claimed + {slugs[cs[0].id]}, slugs - {cs[0].id})
  {
    hide Choice, Before;
    var first, rest := cs[0], cs[1..];
    var mine, others := slugs[first.id], slugs - {first.id};
    assert cs == [first] + rest;
    NobodyBeforeFirst(cs, slugs);
    assert claimed + HeldBefore(cs, slugs, first.id) == claimed;
    OrderedHasDistinctIds(cs);
    MembersHaveIds(rest);
    forall c | c in rest
      ensures claimed + HeldBefore(cs, slugs, c.id) == claimed + {mine} + HeldBefore(rest, others, c.id)
      ensures c.id != first.id
    {
      HeldWithoutFirst(cs, slugs, c.id);
    }
    assert Ids(cs) == {first.id} + Ids(rest) && first.id !in Ids(rest);
    assert slugs.Keys == Ids(cs) <==> others.Keys == Ids(rest);
    hide HeldBefore, Ordered, Ids;
  }

  lemma FirstIsNamed(all: seq<Claim>, cs: seq<Claim>, claimed: set<string>, slugs: map<string, string>)
    requires cs != [] && DistinctIds(cs)
    ensures Assign(all, cs, claimed) == Resolved(slugs) ==>
              cs[0].id in slugs && Choice(all, cs[0], claimed) == Some(slugs[cs[0].id])
  {
    if Assign(all, cs, claimed) == Resolved(slugs) {
      AssignNamesEveryone(all, cs[1..], claimed + {Choice(all, cs[0], claimed).value});
    }
  }

  lemma PutBack(id: string, slug: string, others: Resolution, slugs: map<string, string>)
    requires id in slugs && slugs[id] == slug && (others.Resolved? ==> id !in others.slugs)
    ensures Put(id, slug, others) == Resolved(slugs) <==> others == Resolved(slugs - {id})
  {
    if others.Resolved? {
      assert (map[id := slug] + others.slugs) - {id} == others.slugs;
      assert map[id := slug] + (slugs - {id}) == slugs;
    }
  }

  lemma {:induction false} InsertKeepsCount(c: Claim, sorted: seq<Claim>, slug: string)
    ensures PrimaryCount(InsertById(c, sorted), slug) == PrimaryCount([c] + sorted, slug)
  {
    assert ([c] + sorted)[1..] == sorted;
    if sorted != [] && !AtMost(c.id, sorted[0].id) {
      InsertKeepsCount(c, sorted[1..], slug);
      assert ([c] + sorted[1..])[1..] == sorted[1..];
    }
  }

  lemma {:induction false} SortKeepsCount(cs: seq<Claim>, slug: string)
    ensures PrimaryCount(SortById(cs), slug) == PrimaryCount(cs, slug)
  {
    if cs != [] {
      SortKeepsCount(cs[1..], slug);
      InsertKeepsCount(cs[0], SortById(cs[1..]), slug);
      assert ([cs[0]] + SortById(cs[1..]))[1..] == SortById(cs[1..]);
    }
  }

  /** The claim holds its first eligible option that no smaller id holds. */
  predicate HoldsItsChoice(cs: seq<Claim>, slugs: map<string, string>, c: Claim) {
    c.id in slugs && Choice(cs, c, HeldBefore(cs, slugs, c.id)) == Some(slugs[c.id])
  }

  predicate Settled(cs: seq<Claim>, slugs: map<string, string>) {
    slugs.Keys == Ids(cs) && forall c :: c in cs ==> HoldsItsChoice(cs, slugs, c)
  }

  lemma SettledInOrder(cs: seq<Claim>, sorted: seq<Claim>, slugs: map<string, string>)
    requires SameElements(sorted, cs) && forall slug :: PrimaryCount(sorted, slug) == PrimaryCount(cs, slug)
    ensures SettledFrom(sorted, sorted, {}, slugs) <==> Settled(cs, slugs)
  {
    SameElementsSameIds(sorted, cs);
    hide Ids, FirstFree, Before;
    forall c | c in cs && c.id in slugs
      ensures Choice(sorted, c, {} + HeldBefore(sorted, slugs, c.id)) == Choice(cs, c, HeldBefore(cs, slugs, c.id))
    {
      assert {} + HeldBefore(sorted, slugs, c.id) == HeldBefore(cs, slugs, c.id);
    }
    hide Choice, HeldBefore;
  }

  /**
   A resolution is exactly an assignment in which every claim holds its first eligible option that no
   smaller id holds. There is at most one, and the loop finds it.
   */
  lemma ResolutionIsGreedy(cs: seq<Claim>, slugs: map<string, string>)
    requires DistinctIds(cs)
    ensures Resolve(cs) == Resolved(slugs) <==> Settled(cs, slugs)
  {
    var sorted := SortById(cs);
    SortSorts(cs);
    AssignSettles(sorted, sorted, {}, slugs);
    forall slug ensures PrimaryCount(sorted, slug) == PrimaryCount(cs, slug) {
      SortKeepsCount(cs, slug);
    }
    hide SettledFrom, Settled, Assign, SortById;
    SettledInOrder(cs, sorted, slugs);
  }

  // ---------------------------------------------------------------- the choice in terms of the options

  /** The places of the claims whose bare name this is. */
  function SharersOf(cs: seq<Claim>, slug: string): set<nat> {
    set i: nat | i < |cs| && cs[i].options != [] && cs[i].options[0] == slug
  }

  lemma SharersGrow(head: seq<Claim>, c: Claim, slug: string)
    ensures SharersOf(head + [c], slug) == SharersOf(head, slug) + if Primary(c, slug) then {|head|} else {}
    ensures |head| !in SharersOf(head, slug)
  {
  }

  lemma NobodyShares(slug: string)
    ensures SharersOf([], slug) == {} && PrimaryCount([], slug) == 0
  {
  }

  lemma {:induction false} PrimariesAreCounted(cs: seq<Claim>, slug: string)
    ensures PrimaryCount(cs, slug) == |SharersOf(cs, slug)|
  {
    hide SharersOf, PrimaryCount, Primary;
    if cs == [] {
      NobodyShares(slug);
    } else {
      var head, c := cs[..|cs| - 1], cs[|cs| - 1];
      assert cs == head + [c];
      PrimariesAreCounted(head, slug);
      CountWithOneMore(head, c, slug);
      SharersGrow(head, c, slug);
    }
  }

  /** Option `k` is the first that is not gone, the bare name being closed to all who share it. */
  ghost predicate FirstOpen(all: seq<Claim>, c: Claim, gone: set<string>, k: nat) {
    && k < |c.options| && c.options[k] !in gone && (k == 0 ==> |SharersOf(all, c.options[0])| <= 1)
    && forall j :: 0 <= j < k ==> c.options[j] in gone || (j == 0 && |SharersOf(all, c.options[0])| > 1)
  }

  lemma {:induction false} FirstFreeAt(options: seq<string>, gone: set<string>, k: nat)
    requires k < |options| && options[k] !in gone && forall j :: 0 <= j < k ==> options[j] in gone
    ensures FirstFree(options, gone) == Some(options[k])
  {
    if k > 0 {
      FirstFreeAt(options[1..], gone, k - 1);
    }
  }

  lemma ContestedMeans(all: seq<Claim>, c: Claim)
    requires c.options != []
    ensures Contested(all, c) <==> |SharersOf(all, c.options[0])| > 1
  {
    hide SharersOf;
    PrimariesAreCounted(all, c.options[0]);
  }

  lemma FirstOpenIsChosen(all: seq<Claim>, c: Claim, gone: set<string>, k: nat)
    requires FirstOpen(all, c, gone, k)
    ensures Choice(all, c, gone) == Some(c.options[k])
  {
    hide SharersOf, Contested, FirstFree;
    ContestedMeans(all, c);
    if Contested(all, c) {
      assert k > 0 && forall j :: 0 <= j < |c.options[1..]| ==> c.options[1..][j] == c.options[j + 1];
      FirstFreeAt(c.options[1..], gone, k - 1);
    } else {
      FirstFreeAt(c.options, gone, k);
    }
  }

  lemma ChosenIsFirstOpen(all: seq<Claim>, c: Claim, gone: set<string>) returns (k: nat)
    requires Choice(all, c, gone).Some?
    ensures FirstOpen(all, c, gone, k)
  {
    hide SharersOf, Contested, FirstFree;
    FirstFreeIsFree(c.options, gone);
    assert c.options != [];
    ContestedMeans(all, c);
    if Contested(all, c) {
      k := FirstFreeIndex(c.options[1..], gone);
      assert forall j :: 0 <= j < |c.options[1..]| ==> c.options[1..][j] == c.options[j + 1];
      k := k + 1;
    } else {
      k := FirstFreeIndex(c.options, gone);
    }
  }

  /** A claim's choice is its first open option, if there is any. */
  lemma ChoiceMeans(all: seq<Claim>, c: Claim, gone: set<string>)
    ensures Choice(all, c, gone).None? <==> forall k: nat :: !FirstOpen(all, c, gone, k)
    ensures forall k: nat :: FirstOpen(all, c, gone, k) ==> Choice(all, c, gone) == Some(c.options[k])
  {
    hide Choice;
    forall k: nat | FirstOpen(all, c, gone, k) ensures Choice(all, c, gone) == Some(c.options[k]) {
      FirstOpenIsChosen(all, c, gone, k);
    }
    if Choice(all, c, gone).Some? {
      var k := ChosenIsFirstOpen(all, c, gone);
    }
  }

  lemma {:induction false} FirstFreeIndex(options: seq<string>, gone: set<string>) returns (k: nat)
    requires FirstFree(options, gone).Some?
    ensures k < |options| && options[k] !in gone && forall j :: 0 <= j < k ==> options[j] in gone
  {
    if options[0] !in gone {
      k := 0;
    } else {
      var n := FirstFreeIndex(options[1..], gone);
      k := n + 1;
    }
  }

  // ---------------------------------------------------------------- the newcomer

  /** Nobody's slug changes, and the resolution still succeeds. */
  ghost predicate Undisturbed(cs: seq<Claim>, newcomer: Claim)
    requires Resolve(cs).Resolved?
  {
    Resolve(cs + [newcomer]).Resolved? &&
    forall id :: id in Resolve(cs).slugs ==>
      id in Resolve(cs + [newcomer]).slugs && Resolve(cs + [newcomer]).slugs[id] == Resolve(cs).slugs[id]
  }

  predicate SharesBareName(c: Claim, newcomer: Claim) {
    newcomer.options != [] && Primary(c, newcomer.options[0])
  }

  /** The newcomer's first eligible option that no smaller id holds. */
  function Wish(cs: seq<Claim>, slugs: map<string, string>, newcomer: Claim): Option<string> {
    FirstFree(
      if exists c :: c in cs && SharesBareName(c, newcomer) then newcomer.options[1..] else newcomer.options,
      HeldBefore(cs, slugs, newcomer.id))
  }

  /** The slugs that are gone when it is the turn of `c`, once the newcomer holds `wish`. */
  function GoneFor(cs: seq<Claim>, slugs: map<string, string>, newcomer: Claim, wish: string, c: Claim): set<string> {
    HeldBefore(cs, slugs, c.id) + if Before(newcomer.id, c.id) then {wish} else {}
  }

  /** What the newcomer, once it holds `wish`, means for another claim's slug. */
  predicate Keeps(cs: seq<Claim>, slugs: map<string, string>, newcomer: Claim, wish: string, c: Claim) {
    && (Before(newcomer.id, c.id) ==> c.id in slugs && slugs[c.id] != wish)
    && (SharesBareName(c, newcomer) ==>
          c.id in slugs && FirstFree(c.options[1..], GoneFor(cs, slugs, newcomer, wish, c)) == Some(slugs[c.id]))
  }

  /** The wish is not held by a larger id, and claims that lose their bare name keep the slug they have. */
  predicate WishIsHarmless(cs: seq<Claim>, slugs: map<string, string>, newcomer: Claim) {
    Wish(cs, slugs, newcomer).Some? &&
    forall c :: c in cs ==> Keeps(cs, slugs, newcomer, Wish(cs, slugs, newcomer).value, c)
  }

  lemma {:induction false} CountWithOneMore(cs: seq<Claim>, newcomer: Claim, slug: string)
    ensures PrimaryCount(cs + [newcomer], slug) == PrimaryCount(cs, slug) + if Primary(newcomer, slug) then 1 else 0
  {
    if cs == [] {
      assert cs + [newcomer] == [newcomer] && [newcomer][1..] == [];
    } else {
      assert (cs + [newcomer])[1..] == cs[1..] + [newcomer];
      CountWithOneMore(cs[1..], newcomer, slug);
    }
  }

  lemma {:induction false} CountFinds(cs: seq<Claim>, slug: string)
    ensures PrimaryCount(cs, slug) > 0 <==> exists c :: c in cs && Primary(c, slug)
  {
    if cs != [] {
      CountFinds(cs[1..], slug);
      assert cs == [cs[0]] + cs[1..];
    }
  }

  lemma {:induction false} FreeStaysFree(options: seq<string>, claimed: set<string>, more: string)
    requires FirstFree(options, claimed).Some?
    ensures FirstFree(options, claimed + {more}) == FirstFree(options, claimed) <==>
              FirstFree(options, claimed).value != more
  {
    FirstFreeIsFree(options, claimed + {more});
    if options[0] in claimed {
      FreeStaysFree(options[1..], claimed, more);
    }
  }

  /** What the newcomer changes about the choice of another claim. */
  lemma ChoiceWithNewcomer(cs: seq<Claim>, newcomer: Claim, c: Claim, gone: set<string>)
    requires c in cs && c.options != []
    ensures Choice(cs + [newcomer], c, gone) ==
            if SharesBareName(c, newcomer) then FirstFree(c.options[1..], gone) else Choice(cs, c, gone)
  {
    CountWithOneMore(cs, newcomer, c.options[0]);
    CountFinds(cs, c.options[0]);
    hide FirstFree;
  }

  lemma ChoiceOfNewcomer(cs: seq<Claim>, slugs: map<string, string>, newcomer: Claim)
    ensures Choice(cs + [newcomer], newcomer, HeldBefore(cs, slugs, newcomer.id)) == Wish(cs, slugs, newcomer)
  {
    if newcomer.options != [] {
      CountWithOneMore(cs, newcomer, newcomer.options[0]);
      CountFinds(cs, newcomer.options[0]);
    }
    hide FirstFree, HeldBefore;
  }

  lemma {:induction false} IdsWithOneMore(cs: seq<Claim>, newcomer: Claim)
    requires DistinctIds(cs + [newcomer])
    ensures Ids(cs + [newcomer]) == Ids(cs) + {newcomer.id} && newcomer.id !in Ids(cs) && DistinctIds(cs)
  {
    DistinctParts(cs, [newcomer]);
    assert [newcomer][1..] == [];
    assert Ids([newcomer]) == {newcomer.id};
  }

  lemma HeldWithNewcomer(cs: seq<Claim>, newcomer: Claim, slugs: map<string, string>, wish: string, id: string)
    requires newcomer.id !in Ids(cs)
    ensures HeldBefore(cs + [newcomer], slugs[newcomer.id := wish], id) ==
            HeldBefore(cs, slugs, id) + if Before(newcomer.id, id) then {wish} else {}
  {
    MembersHaveIds(cs);
    hide Before;
  }

  lemma OthersHold(cs: seq<Claim>, newcomer: Claim, slugs: map<string, string>, wish: string, c: Claim)
    requires newcomer.id !in Ids(cs) && c in cs && HoldsItsChoice(cs, slugs, c)
    ensures HoldsItsChoice(cs + [newcomer], slugs[newcomer.id := wish], c) <==> Keeps(cs, slugs, newcomer, wish, c)
  {
    MembersHaveIds(cs);
    HeldWithNewcomer(cs, newcomer, slugs, wish, c.id);
    OneChoice(cs, newcomer, slugs, wish, c);
    FirstFreeIsFree(c.options[1..], GoneFor(cs, slugs, newcomer, wish, c));
    hide HeldBefore, Before, Choice, FirstFree, Ids;
  }

  lemma NewcomerHolds(cs: seq<Claim>, newcomer: Claim, slugs: map<string, string>, wish: string)
    requires newcomer.id !in Ids(cs)
    ensures HoldsItsChoice(cs + [newcomer], slugs[newcomer.id := wish], newcomer) <==>
              Wish(cs, slugs, newcomer) == Some(wish)
  {
    HeldWithNewcomer(cs, newcomer, slugs, wish, newcomer.id);
    ChoiceOfNewcomer(cs, slugs, newcomer);
    assert !Before(newcomer.id, newcomer.id);
    assert HeldBefore(cs, slugs, newcomer.id) + {} == HeldBefore(cs, slugs, newcomer.id);
    hide HeldBefore, Before, Choice, Wish, Ids;
  }

  /** The old slugs together with `wish` are the new resolution exactly if the wish is the newcomer's and harmless. */
  lemma SettledWithNewcomer(cs: seq<Claim>, newcomer: Claim, slugs: map<string, string>, wish: string)
    requires DistinctIds(cs + [newcomer]) && Settled(cs, slugs)
    ensures Settled(cs + [newcomer], slugs[newcomer.id := wish]) <==>
            Wish(cs, slugs, newcomer) == Some(wish) && forall c :: c in cs ==> Keeps(cs, slugs, newcomer, wish, c)
  {
    IdsWithOneMore(cs, newcomer);
    NewcomerHolds(cs, newcomer, slugs, wish);
    hide HoldsItsChoice, Wish, Keeps, Ids, DistinctIds;
    forall c | c in cs
      ensures HoldsItsChoice(cs + [newcomer], slugs[newcomer.id := wish], c) <==> Keeps(cs, slugs, newcomer, wish, c)
    {
      OthersHold(cs, newcomer, slugs, wish, c);
    }
    assert slugs[newcomer.id := wish].Keys == slugs.Keys + {newcomer.id};
  }

  lemma OneChoice(cs: seq<Claim>, newcomer: Claim, slugs: map<string, string>, wish: string, c: Claim)
    requires c in cs && HoldsItsChoice(cs, slugs, c)
    ensures Choice(cs + [newcomer], c, GoneFor(cs, slugs, newcomer, wish, c)) == Some(slugs[c.id]) <==>
            && (Before(newcomer.id, c.id) && !SharesBareName(c, newcomer) ==> slugs[c.id] != wish)
            && (SharesBareName(c, newcomer) ==>
                  FirstFree(c.options[1..], GoneFor(cs, slugs, newcomer, wish, c)) == Some(slugs[c.id]))
  {
    var held := HeldBefore(cs, slugs, c.id);
    assert c.options != [];
    ChoiceWithNewcomer(cs, newcomer, c, GoneFor(cs, slugs, newcomer, wish, c));
    FreeStaysFree(if Contested(cs, c) then c.options[1..] else c.options, held, wish);
    hide FirstFree, HeldBefore, Contested;
    assert held + {} == held;
  }

  lemma HarmlessIsUndisturbed(cs: seq<Claim>, newcomer: Claim, slugs: map<string, string>)
    requires DistinctIds(cs + [newcomer]) && Resolve(cs) == Resolved(slugs) && Settled(cs, slugs)
    requires WishIsHarmless(cs, slugs, newcomer)
    ensures Undisturbed(cs, newcomer)
  {
    hide Resolve, Keeps, Wish, HoldsItsChoice, DistinctIds;
    IdsWithOneMore(cs, newcomer);
    var wish := Wish(cs, slugs, newcomer).value;
    SettledWithNewcomer(cs, newcomer, slugs, wish);
    ResolutionIsGreedy(cs + [newcomer], slugs[newcomer.id := wish]);
    assert newcomer.id !in slugs;
  }

  lemma UndisturbedIsHarmless(cs: seq<Claim>, newcomer: Claim, slugs: map<string, string>)
    requires DistinctIds(cs + [newcomer]) && Resolve(cs) == Resolved(slugs) && Settled(cs, slugs)
    requires Undisturbed(cs, newcomer)
    ensures WishIsHarmless(cs, slugs, newcomer)
  {
    hide Resolve, Keeps, Wish, HoldsItsChoice, DistinctIds;
    IdsWithOneMore(cs, newcomer);
    var after := Resolve(cs + [newcomer]).slugs;
    ResolutionIsGreedy(cs + [newcomer], after);
    assert after == slugs[newcomer.id := after[newcomer.id]];
    SettledWithNewcomer(cs, newcomer, slugs, after[newcomer.id]);
  }

  /** A newcomer changes no slug and breaks no resolution exactly when its wish is harmless. */
  lemma NewcomerDisturbsNobodyIff(cs: seq<Claim>, newcomer: Claim)
    requires DistinctIds(cs + [newcomer]) && Resolve(cs).Resolved?
    ensures Undisturbed(cs, newcomer) <==> WishIsHarmless(cs, Resolve(cs).slugs, newcomer)
  {
    hide *;
    var slugs := Resolve(cs).slugs;
    IdsWithOneMore(cs, newcomer);
    ResolutionIsGreedy(cs, slugs);
    if WishIsHarmless(cs, slugs, newcomer) {
      HarmlessIsUndisturbed(cs, newcomer, slugs);
    }
    if Undisturbed(cs, newcomer) {
      UndisturbedIsHarmless(cs, newcomer, slugs);
    }
  }

  predicate DistinctOptions(c: Claim) {
    forall i, j :: 0 <= i < j < |c.options| ==> c.options[i] != c.options[j]
  }

  /**
   In the terms of the slugs in use: nobody may hold, as its own bare name, the bare name of the newcomer,
   and the first of the newcomer's eligible options that no smaller id holds must exist and not be held by
   a larger id.
   */
  lemma NewcomerDisturbsNobodyInTerms(cs: seq<Claim>, newcomer: Claim)
    requires DistinctIds(cs + [newcomer]) && Resolve(cs).Resolved?
    requires forall c :: c in cs ==> DistinctOptions(c)
    ensures var slugs, wish := Resolve(cs).slugs, Wish(cs, Resolve(cs).slugs, newcomer);
            Undisturbed(cs, newcomer) <==>
            && wish.Some?
            && (forall c :: c in cs && c.id in slugs && Before(newcomer.id, c.id) ==> slugs[c.id] != wish.value)
            && (forall c :: c in cs && c.id in slugs && SharesBareName(c, newcomer) ==> slugs[c.id] != c.options[0])
  {
    NewcomerDisturbsNobodyIff(cs, newcomer);
    var slugs, wish := Resolve(cs).slugs, Wish(cs, Resolve(cs).slugs, newcomer);
    IdsWithOneMore(cs, newcomer);
    ResolutionIsGreedy(cs, slugs);
    assert forall c :: c in cs ==> HoldsItsChoice(cs, slugs, c) && c.id in slugs;
    hide Resolve, HoldsItsChoice, Settled, Wish, Undisturbed, DistinctOptions, Before, FirstFree, GoneFor;
    if wish.Some? {
      forall c | c in cs && (Before(newcomer.id, c.id) ==> slugs[c.id] != wish.value)
        ensures Keeps(cs, slugs, newcomer, wish.value, c) <==>
                (SharesBareName(c, newcomer) ==> slugs[c.id] != c.options[0])
      {
        BareNameIsNoOtherOption(cs, slugs, newcomer, wish.value, c);
      }
    }
  }

  lemma BareNameIsNoOtherOption(cs: seq<Claim>, slugs: map<string, string>, newcomer: Claim, wish: string, c: Claim)
    requires c in cs && HoldsItsChoice(cs, slugs, c)
    requires DistinctOptions(c) && (Before(newcomer.id, c.id) ==> slugs[c.id] != wish)
    ensures FirstFree(c.options[1..], GoneFor(cs, slugs, newcomer, wish, c)) == Some(slugs[c.id]) <==>
            slugs[c.id] != c.options[0]
  {
    var held, gone := HeldBefore(cs, slugs, c.id), GoneFor(cs, slugs, newcomer, wish, c);
    assert held + {} == held;
    hide HeldBefore;
    FirstFreeIsFree(c.options[1..], gone);
    if slugs[c.id] != c.options[0] {
      assert FirstFree(c.options[1..], held) == Some(slugs[c.id]);
      FreeStaysFree(c.options[1..], held, wish);
    } else {
      assert slugs[c.id] !in c.options[1..];
    }
  }

  /** The same for the candidates of a compilation, whose options are their slugs. */
  lemma NewEntityKeepsTopicsIff(u: Unicode, cs: seq<SlugCandidate>, newcomer: SlugCandidate)
    requires DistinctIds(ClaimsOf(u, cs + [newcomer])) && Resolve(ClaimsOf(u, cs)).Resolved?
    ensures ClaimsOf(u, cs + [newcomer]) == ClaimsOf(u, cs) + [ClaimOf(u, newcomer)]
    ensures Undisturbed(ClaimsOf(u, cs), ClaimOf(u, newcomer)) <==>
            WishIsHarmless(ClaimsOf(u, cs), Resolve(ClaimsOf(u, cs)).slugs, ClaimOf(u, newcomer))
  {
    hide ClaimOf, Resolve;
    assert ClaimsOf(u, cs + [newcomer]) == ClaimsOf(u, cs) + [ClaimOf(u, newcomer)];
    NewcomerDisturbsNobodyIff(ClaimsOf(u, cs), ClaimOf(u, newcomer));
  }
}
