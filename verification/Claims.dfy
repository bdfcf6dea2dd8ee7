/**
 Collision resolution, `resolve_slugs` of `model/naming.py`. It uses no more of a candidate than its
 id and its slug options, so the loop and its laws are stated for any list of options.
 */
module Claims {
  import opened Wrappers
  import opened Text

  /** One entity's wish list: the bare name first, its own slugified id last. */
  datatype Claim = Claim(id: string, options: seq<string>)

  datatype Resolution =
    | Resolved(slugs: map<string, string>)
    | Collided(id: string)

  predicate Primary(c: Claim, slug: string) {
    c.options != [] && c.options[0] == slug
  }

  function PrimaryCount(cs: seq<Claim>, slug: string): nat {
    if cs == [] then 0 else (if Primary(cs[0], slug) then 1 else 0) + PrimaryCount(cs[1..], slug)
  }

  /** A bare name that two claims share is closed to both. */
  predicate Contested(all: seq<Claim>, c: Claim) {
    c.options != [] && PrimaryCount(all, c.options[0]) > 1
  }

  function FirstFree(options: seq<string>, claimed: set<string>): Option<string> {
    if options == [] then None
    else if options[0] !in claimed then Some(options[0])
    else FirstFree(options[1..], claimed)
  }

  /** The slug a claim gets when the slugs in `claimed` are gone. */
  function Choice(all: seq<Claim>, c: Claim, claimed: set<string>): (slug: Option<string>)
    ensures slug.Some? ==> slug.value in c.options && slug.value !in claimed
  {
    var eligible := if Contested(all, c) then c.options[1..] else c.options;
    FirstFreeIsFree(eligible, claimed);
    FirstFree(eligible, claimed)
  }

  lemma {:induction false} FirstFreeIsFree(options: seq<string>, claimed: set<string>)
    ensures var f := FirstFree(options, claimed);
            if f.Some? then f.value in options && f.value !in claimed else forall o :: o in options ==> o in claimed
  {
    if options != [] {
      FirstFreeIsFree(options[1..], claimed);
    }
  }

  function Assign(all: seq<Claim>, rest: seq<Claim>, claimed: set<string>): Resolution {
    if rest == [] then Resolved(map[])
    else
      var chosen := Choice(all, rest[0], claimed);
      if chosen.None? then Collided(rest[0].id)
      else
        Put(rest[0].id, chosen.value, Assign(all, rest[1..], claimed + {chosen.value}))
  }

  /** The resolution that also gives `id` its slug, unless a later claim already has that id. */
  function Put(id: string, slug: string, others: Resolution): Resolution {
    if others.Collided? then others else Resolved(map[id := slug] + others.slugs)
  }

  /** A stable sort by entity id. */
  function SortById(cs: seq<Claim>): seq<Claim> {
    if cs == [] then [] else InsertById(cs[0], SortById(cs[1..]))
  }

  function InsertById(c: Claim, sorted: seq<Claim>): seq<Claim> {
    if sorted == [] || AtMost(c.id, sorted[0].id) then [c] + sorted
    else [sorted[0]] + InsertById(c, sorted[1..])
  }

  function Resolve(cs: seq<Claim>): Resolution {
    Assign(SortById(cs), SortById(cs), {})
  }

  /** The resolution of all claims once `result` holds those already assigned. */
  function Extend(result: map<string, string>, others: Resolution): Resolution {
    if others.Collided? then others else Resolved(result + others.slugs)
  }

  lemma ExtendByOne(result: map<string, string>, all: seq<Claim>, rest: seq<Claim>, claimed: set<string>)
    requires rest != []
    ensures var chosen := Choice(all, rest[0], claimed);
            Extend(result, Assign(all, rest, claimed)) ==
            if chosen.None? then Collided(rest[0].id)
            else Extend(result[rest[0].id := chosen.value], Assign(all, rest[1..], claimed + {chosen.value}))
  {
    var chosen := Choice(all, rest[0], claimed);
    if chosen.Some? {
      var others := Assign(all, rest[1..], claimed + {chosen.value});
      if others.Resolved? {
        assert result + (map[rest[0].id := chosen.value] + others.slugs) ==
               result[rest[0].id := chosen.value] + others.slugs;
      }
    }
  }

  lemma NothingAssigned(r: Resolution)
    ensures Extend(map[], r) == r
  {
    if r.Resolved? {
      assert map[] + r.slugs == r.slugs;
    }
  }

  method ResolveSlugs(cs: seq<Claim>) returns (r: Resolution)
    ensures r == Resolve(cs)
  {
    var ordered := SortById(cs);
    var claimedBy: map<string, string> := map[];
    var result: map<string, string> := map[];
    NothingAssigned(Resolve(cs));
    assert ordered[0..] == ordered && claimedBy.Keys == {};
    for i := 0 to |ordered|
      invariant Resolve(cs) == Extend(result, Assign(ordered, ordered[i..], claimedBy.Keys))
    {
      var claim := ordered[i];
      var chosen := Choice(ordered, claim, claimedBy.Keys);
      ExtendByOne(result, ordered, ordered[i..], claimedBy.Keys);
      assert ordered[i..][1..] == ordered[i + 1..];
      if chosen.None? {
        return Collided(claim.id);
      }
      assert claimedBy[chosen.value := claim.id].Keys == claimedBy.Keys + {chosen.value};
      claimedBy := claimedBy[chosen.value := claim.id];
      result := result[claim.id := chosen.value];
    }
    r := Resolved(result);
  }

  // ---------------------------------------------------------------- sorting

  function Ids(cs: seq<Claim>): set<string> {
    if cs == [] then {} else {cs[0].id} + Ids(cs[1..])
  }

  predicate DistinctIds(cs: seq<Claim>) {
    cs == [] || (cs[0].id !in Ids(cs[1..]) && DistinctIds(cs[1..]))
  }

  predicate Ordered(cs: seq<Claim>) {
    cs == [] || ((forall c :: c in cs[1..] ==> Before(cs[0].id, c.id)) && Ordered(cs[1..]))
  }

  ghost predicate SameElements(s: seq<Claim>, t: seq<Claim>) {
    forall c :: c in s <==> c in t
  }

  lemma {:induction false} MemberWithId(cs: seq<Claim>, id: string) returns (c: Claim)
    requires id in Ids(cs)
    ensures c in cs && c.id == id
  {
    c := cs[0];
    if c.id != id {
      c := MemberWithId(cs[1..], id);
    }
  }

  lemma {:induction false} MembersHaveIds(cs: seq<Claim>)
    ensures forall c :: c in cs ==> c.id in Ids(cs)
  {
    if cs != [] {
      assert cs == [cs[0]] + cs[1..];
      MembersHaveIds(cs[1..]);
    }
  }

  lemma IdsAreOfMembers(cs: seq<Claim>)
    ensures forall c :: c in cs ==> c.id in Ids(cs)
    ensures forall id :: id in Ids(cs) ==> exists c :: c in cs && c.id == id
  {
    MembersHaveIds(cs);
    forall id | id in Ids(cs) ensures exists c :: c in cs && c.id == id {
      var c := MemberWithId(cs, id);
    }
  }

  lemma {:induction false} InsertKeepsOrder(c: Claim, sorted: seq<Claim>)
    requires Ordered(sorted) && c.id !in Ids(sorted)
    ensures Ordered(InsertById(c, sorted)) && SameElements(InsertById(c, sorted), [c] + sorted)
  {
    if sorted != [] {
      var head, tail := sorted[0], sorted[1..];
      assert sorted == [head] + tail;
      AtMostIsTotal(c.id, head.id);
      if AtMost(c.id, head.id) {
        forall d | d in sorted ensures Before(c.id, d.id) {
          IdsAreOfMembers(sorted);
          if d != head {
            BeforeIsTransitive(c.id, head.id, d.id);
          }
        }
        assert InsertById(c, sorted)[1..] == sorted;
      } else {
        InsertKeepsOrder(c, tail);
        assert InsertById(c, sorted)[1..] == InsertById(c, tail);
      }
    }
  }

  lemma SameElementsSameIds(s: seq<Claim>, t: seq<Claim>)
    requires SameElements(s, t)
    ensures Ids(s) == Ids(t)
  {
    IdsAreOfMembers(s);
    IdsAreOfMembers(t);
  }

  lemma {:induction false} SortSorts(cs: seq<Claim>)
    requires DistinctIds(cs)
    ensures Ordered(SortById(cs)) && SameElements(SortById(cs), cs)
  {
    if cs != [] {
      SortSorts(cs[1..]);
      assert cs == [cs[0]] + cs[1..];
      SameElementsSameIds(SortById(cs[1..]), cs[1..]);
      InsertKeepsOrder(cs[0], SortById(cs[1..]));
    }
  }

  lemma {:induction false} OrderedHasDistinctIds(cs: seq<Claim>)
    requires Ordered(cs)
    ensures DistinctIds(cs)
  {
    if cs != [] {
      OrderedHasDistinctIds(cs[1..]);
      IdsAreOfMembers(cs[1..]);
    }
  }

  lemma {:induction false} OrderedIsUnique(s: seq<Claim>, t: seq<Claim>)
    requires Ordered(s) && Ordered(t) && SameElements(s, t)
    ensures s == t
  {
    var both := s + t;
    if both != [] {
      assert both[0] in both;
      assert both[0] in s && both[0] in t;
      assert s == [s[0]] + s[1..] && t == [t[0]] + t[1..];
      assert s[0] in t && t[0] in s;
      AtMostIsTotal(s[0].id, t[0].id);
      assert s[0] !in s[1..] && t[0] !in t[1..];
      forall c ensures c in s[1..] <==> c in t[1..] {
        assert c in s <==> c in t;
      }
      OrderedIsUnique(s[1..], t[1..]);
    }
  }

  /** The slugs depend on which claims there are, never on the order in which they come. */
  lemma ResolutionIgnoresOrder(cs: seq<Claim>, ds: seq<Claim>)
    requires DistinctIds(cs) && DistinctIds(ds) && SameElements(cs, ds)
    ensures Resolve(cs) == Resolve(ds)
  {
    SortSorts(cs);
    SortSorts(ds);
    OrderedIsUnique(SortById(cs), SortById(ds));
  }

  // ---------------------------------------------------------------- distinct slugs

  predicate Injective(slugs: map<string, string>) {
    forall a, b :: a in slugs && b in slugs && slugs[a] == slugs[b] ==> a == b
  }

  ghost predicate AssignsOptions(cs: seq<Claim>, slugs: map<string, string>) {
    slugs.Keys == Ids(cs) && forall c :: c in cs ==> c.id in slugs && slugs[c.id] in c.options
  }

  lemma {:induction false} AssignIsInjective(all: seq<Claim>, rest: seq<Claim>, claimed: set<string>)
    requires DistinctIds(rest) && Assign(all, rest, claimed).Resolved?
    ensures var slugs := Assign(all, rest, claimed).slugs;
            && AssignsOptions(rest, slugs)
            && Injective(slugs)
            && (forall id :: id in slugs ==> slugs[id] !in claimed)
  {
    if rest != [] {
      AssignIsInjective(all, rest[1..], claimed + {Choice(all, rest[0], claimed).value});
      IdsAreOfMembers(rest[1..]);
      assert rest == [rest[0]] + rest[1..];
    }
  }

  /** Distinct entities get distinct slugs, each of them one of the entity's own options. */
  lemma SlugsAreDistinct(cs: seq<Claim>)
    requires DistinctIds(cs) && Resolve(cs).Resolved?
    ensures AssignsOptions(cs, Resolve(cs).slugs) && Injective(Resolve(cs).slugs)
  {
    SortSorts(cs);
    OrderedHasDistinctIds(SortById(cs));
    AssignIsInjective(SortById(cs), SortById(cs), {});
    SameElementsSameIds(SortById(cs), cs);
  }

  // ---------------------------------------------------------------- totality

  /** Every claim has a last resort that no other claim could take. */
  ghost predicate LastResortsAreSafe(cs: seq<Claim>) {
    && (forall c :: c in cs ==> |c.options| > 1)
    && (forall c, d :: c in cs && d in cs && c != d ==> c.options[|c.options| - 1] !in d.options)
  }

  lemma {:induction false} FreeOptionIsFound(options: seq<string>, claimed: set<string>)
    requires options != [] && options[|options| - 1] !in claimed
    ensures FirstFree(options, claimed).Some?
  {
    if |options| > 1 {
      FreeOptionIsFound(options[1..], claimed);
    }
  }

  lemma {:induction false} AssignIsTotal(all: seq<Claim>, rest: seq<Claim>, claimed: set<string>)
    requires DistinctIds(rest) && LastResortsAreSafe(rest)
    requires forall c :: c in rest ==> c.options[|c.options| - 1] !in claimed
    ensures Assign(all, rest, claimed).Resolved?
  {
    if rest != [] {
      var c := rest[0];
      assert c in rest && forall d :: d in rest[1..] ==> d in rest;
      FreeOptionIsFound(c.options, claimed);
      FreeOptionIsFound(c.options[1..], claimed);
      IdsAreOfMembers(rest[1..]);
      AssignIsTotal(all, rest[1..], claimed + {Choice(all, c, claimed).value});
    }
  }

  /** The escalation cannot run out while nobody else's options contain an entity's last resort. */
  lemma ResolutionIsTotal(cs: seq<Claim>)
    requires DistinctIds(cs) && LastResortsAreSafe(cs)
    ensures Resolve(cs).Resolved?
  {
    SortSorts(cs);
    OrderedHasDistinctIds(SortById(cs));
    AssignIsTotal(SortById(cs), SortById(cs), {});
  }

  // ---------------------------------------------------------------- independence

  /** No option of a claim of `cs` is an option of a claim of `ds`. */
  ghost predicate NoSharedOption(cs: seq<Claim>, ds: seq<Claim>) {
    forall c, d, o :: c in cs && d in ds && o in c.options ==> o !in d.options
  }

  function Keep(cs: seq<Claim>, part: set<Claim>): seq<Claim> {
    if cs == [] then [] else if cs[0] in part then [cs[0]] + Keep(cs[1..], part) else Keep(cs[1..], part)
  }

  lemma {:induction false} KeepKeeps(cs: seq<Claim>, part: set<Claim>)
    requires Ordered(cs)
    ensures Ordered(Keep(cs, part))
    ensures forall c :: c in Keep(cs, part) <==> c in cs && c in part
  {
    if cs != [] {
      KeepKeeps(cs[1..], part);
      assert cs == [cs[0]] + cs[1..];
      assert cs[0] in part ==> Keep(cs, part)[1..] == Keep(cs[1..], part);
    }
  }

  lemma {:induction false} CountOfPart(cs: seq<Claim>, part: set<Claim>, slug: string)
    requires forall c :: c in cs && c !in part ==> !Primary(c, slug)
    ensures PrimaryCount(cs, slug) == PrimaryCount(Keep(cs, part), slug)
  {
    if cs != [] {
      assert cs == [cs[0]] + cs[1..];
      CountOfPart(cs[1..], part, slug);
      assert cs[0] in part ==> Keep(cs, part)[1..] == Keep(cs[1..], part);
    }
  }

  function Slugs(r: Resolution): Option<map<string, string>> {
    if r.Resolved? then Some(r.slugs) else None
  }

  /** Two resolutions side by side: there is one for the whole exactly when both parts have one. */
  function Union(a: Resolution, b: Resolution): Option<map<string, string>> {
    if a.Resolved? && b.Resolved? then Some(a.slugs + b.slugs) else None
  }

  lemma {:induction false} FirstFreeIgnoresOthers(options: seq<string>, mine: set<string>, theirs: set<string>)
    requires forall o :: o in options ==> o !in theirs
    ensures FirstFree(options, mine + theirs) == FirstFree(options, mine)
  {
    if options != [] {
      FirstFreeIgnoresOthers(options[1..], mine, theirs);
    }
  }

  lemma ChoiceIgnoresOthers(
    all: seq<Claim>, part: seq<Claim>, c: Claim, mine: set<string>, theirs: set<string>)
    requires Contested(all, c) == Contested(part, c)
    requires forall o :: o in c.options ==> o !in theirs
    ensures Choice(all, c, mine + theirs) == Choice(part, c, mine)
  {
    FirstFreeIgnoresOthers(if Contested(all, c) then c.options[1..] else c.options, mine, theirs);
  }

  /** What the assignment of `rest` may assume about its two parts and the slugs each has claimed. */
  ghost predicate TwoParts(
    all: seq<Claim>, us: seq<Claim>, them: seq<Claim>, rest: seq<Claim>,
    ours: set<Claim>, theirs: set<Claim>, claimedByUs: set<string>, claimedByThem: set<string>)
  {
    && (forall c :: c in rest ==> (c in ours <==> c !in theirs))
    && (forall c, o :: c in rest && c in ours && o in c.options ==> o !in claimedByThem)
    && (forall c, o :: c in rest && c in theirs && o in c.options ==> o !in claimedByUs)
    && (forall c, d, o :: c in rest && d in rest && c in ours && d in theirs && o in c.options ==> o !in d.options)
    && (forall c :: c in rest ==> Contested(all, c) == Contested(if c in ours then us else them, c))
  }

  lemma {:induction false} AssignNamesEveryone(all: seq<Claim>, rest: seq<Claim>, claimed: set<string>)
    requires Assign(all, rest, claimed).Resolved?
    ensures Assign(all, rest, claimed).slugs.Keys == Ids(rest)
  {
    if rest != [] {
      AssignNamesEveryone(all, rest[1..], claimed + {Choice(all, rest[0], claimed).value});
    }
  }

  lemma {:induction false} InsertKeepsMembers(c: Claim, sorted: seq<Claim>)
    ensures SameElements(InsertById(c, sorted), [c] + sorted)
  {
    if sorted != [] && !AtMost(c.id, sorted[0].id) {
      InsertKeepsMembers(c, sorted[1..]);
      assert sorted == [sorted[0]] + sorted[1..];
    }
  }

  lemma {:induction false} SortKeepsMembers(cs: seq<Claim>)
    ensures SameElements(SortById(cs), cs)
  {
    if cs != [] {
      SortKeepsMembers(cs[1..]);
      InsertKeepsMembers(cs[0], SortById(cs[1..]));
      assert cs == [cs[0]] + cs[1..];
    }
  }

  /** A resolution gives every claim a slug. */
  lemma ResolutionNamesEveryone(cs: seq<Claim>)
    requires Resolve(cs).Resolved?
    ensures forall c :: c in cs ==> c.id in Resolve(cs).slugs
  {
    SortKeepsMembers(cs);
    AssignNamesEveryone(SortById(cs), SortById(cs), {});
    SameElementsSameIds(SortById(cs), cs);
    MembersHaveIds(cs);
    hide Assign, SortById, Ids;
  }

  lemma {:induction false} KeptIds(cs: seq<Claim>, part: set<Claim>)
    ensures Ids(Keep(cs, part)) <= Ids(cs)
  {
    if cs != [] {
      KeptIds(cs[1..], part);
      assert cs[0] in part ==> Keep(cs, part)[1..] == Keep(cs[1..], part);
    }
  }

  lemma PutLeft(id: string, slug: string, a: Resolution, b: Resolution, whole: Resolution)
    requires Slugs(whole) == Union(a, b)
    ensures Slugs(Put(id, slug, whole)) == Union(Put(id, slug, a), b)
  {
    if whole.Resolved? {
      assert map[id := slug] + (a.slugs + b.slugs) == (map[id := slug] + a.slugs) + b.slugs;
    }
  }

  lemma PutRight(id: string, slug: string, a: Resolution, b: Resolution, whole: Resolution)
    requires Slugs(whole) == Union(a, b) && (a.Resolved? ==> id !in a.slugs)
    ensures Slugs(Put(id, slug, whole)) == Union(a, Put(id, slug, b))
  {
    if whole.Resolved? {
      assert map[id := slug] + (a.slugs + b.slugs) == a.slugs + (map[id := slug] + b.slugs);
    }
  }

  lemma {:induction false} AssignSplits(
    all: seq<Claim>, us: seq<Claim>, them: seq<Claim>, rest: seq<Claim>,
    ours: set<Claim>, theirs: set<Claim>, claimedByUs: set<string>, claimedByThem: set<string>)
    requires DistinctIds(rest) && TwoParts(all, us, them, rest, ours, theirs, claimedByUs, claimedByThem)
    ensures Slugs(Assign(all, rest, claimedByUs + claimedByThem)) ==
            Union(Assign(us, Keep(rest, ours), claimedByUs), Assign(them, Keep(rest, theirs), claimedByThem))
  {
    if rest != [] {
      var c, tail := rest[0], rest[1..];
      var we, they := Keep(tail, ours), Keep(tail, theirs);
      assert c in rest && forall d :: d in tail ==> d in rest;
      if c in ours {
        ChoiceIgnoresOthers(all, us, c, claimedByUs, claimedByThem);
        var chosen := Choice(us, c, claimedByUs);
        assert Keep(rest, ours)[1..] == we && Keep(rest, theirs) == they;
        if chosen.Some? {
          var more := claimedByUs + {chosen.value};
          assert claimedByUs + claimedByThem + {chosen.value} == more + claimedByThem;
          AssignSplits(all, us, them, tail, ours, theirs, more, claimedByThem);
          PutLeft(c.id, chosen.value, Assign(us, we, more), Assign(them, they, claimedByThem),
                  Assign(all, tail, more + claimedByThem));
        }
      } else {
        assert claimedByUs + claimedByThem == claimedByThem + claimedByUs;
        ChoiceIgnoresOthers(all, them, c, claimedByThem, claimedByUs);
        var chosen := Choice(them, c, claimedByThem);
        assert Keep(rest, theirs)[1..] == they && Keep(rest, ours) == we;
        if chosen.Some? {
          var more := claimedByThem + {chosen.value};
          assert claimedByUs + claimedByThem + {chosen.value} == claimedByUs + more;
          AssignSplits(all, us, them, tail, ours, theirs, claimedByUs, more);
          KeptIds(tail, ours);
          if Assign(us, we, claimedByUs).Resolved? {
            AssignNamesEveryone(us, we, claimedByUs);
          }
          PutRight(c.id, chosen.value, Assign(us, we, claimedByUs), Assign(them, they, more),
                   Assign(all, tail, claimedByUs + more));
        }
      }
    }
  }

  lemma {:induction false} DistinctParts(cs: seq<Claim>, ds: seq<Claim>)
    requires DistinctIds(cs + ds)
    ensures DistinctIds(cs) && DistinctIds(ds) && Ids(cs) !! Ids(ds) && Ids(cs + ds) == Ids(cs) + Ids(ds)
  {
    if cs == [] {
      assert cs + ds == ds;
    } else {
      assert (cs + ds)[1..] == cs[1..] + ds;
      DistinctParts(cs[1..], ds);
    }
  }

  lemma SortOfPart(whole: seq<Claim>, part: seq<Claim>, members: set<Claim>)
    requires DistinctIds(whole) && DistinctIds(part)
    requires forall c :: c in part <==> c in whole && c in members
    ensures SortById(part) == Keep(SortById(whole), members)
  {
    SortSorts(whole);
    SortSorts(part);
    KeepKeeps(SortById(whole), members);
    OrderedIsUnique(SortById(part), Keep(SortById(whole), members));
  }

  lemma PartsAreApart(cs: seq<Claim>, ds: seq<Claim>, all: seq<Claim>, us: seq<Claim>, them: seq<Claim>,
                      ours: set<Claim>, theirs: set<Claim>)
    requires NoSharedOption(cs, ds) && SameElements(all, cs + ds)
    requires forall c :: c in cs + ds ==> c.options != []
    requires (forall c :: c in ours <==> c in cs) && (forall c :: c in theirs <==> c in ds)
    requires us == Keep(all, ours) && them == Keep(all, theirs)
    ensures TwoParts(all, us, them, all, ours, theirs, {}, {})
  {
    forall c | c in all
      ensures c in ours <==> c !in theirs
      ensures Contested(all, c) == Contested(if c in ours then us else them, c)
    {
      assert c in cs + ds;
      assert c.options[0] in c.options;
      CountOfPart(all, if c in ours then ours else theirs, c.options[0]);
    }
  }

  /**
   Entities that share no option with the others are resolved as if the others were not there: the
   union of the two resolutions is the resolution of the union, failures included.
   */
  lemma ResolutionIsLocal(cs: seq<Claim>, ds: seq<Claim>)
    requires DistinctIds(cs + ds) && NoSharedOption(cs, ds)
    requires forall c :: c in cs + ds ==> c.options != []
    ensures Slugs(Resolve(cs + ds)) == Union(Resolve(cs), Resolve(ds))
  {
    var ours, theirs := set c | c in cs, set c | c in ds;
    var all, us, them := SortById(cs + ds), SortById(cs), SortById(ds);
    DistinctParts(cs, ds);
    SortOfPart(cs + ds, cs, ours);
    SortOfPart(cs + ds, ds, theirs);
    SortSorts(cs + ds);
    OrderedHasDistinctIds(all);
    PartsAreApart(cs, ds, all, us, them, ours, theirs);
    var nobody: set<string> := {};
    AssignSplits(all, us, them, all, ours, theirs, nobody, nobody);
    assert nobody + nobody == nobody;
  }

  lemma AssignLast(all: seq<Claim>, c: Claim, claimed: set<string>)
    requires Choice(all, c, claimed).Some?
    ensures Assign(all, [c], claimed) == Resolved(map[c.id := Choice(all, c, claimed).value])
  {
    var one := [c];
    assert one[1..] == [];
    assert Assign(all, one[1..], claimed + {Choice(all, c, claimed).value}) == Resolved(map[]);
  }

  lemma AssignNext(all: seq<Claim>, c: Claim, rest: seq<Claim>, claimed: set<string>, slug: string)
    requires Choice(all, c, claimed) == Some(slug)
    ensures Assign(all, [c] + rest, claimed) == Put(c.id, slug, Assign(all, rest, claimed + {slug}))
  {
    assert ([c] + rest)[1..] == rest;
  }

  lemma AloneGetsBareName(c: Claim)
    requires c.options != []
    ensures Resolve([c]) == Resolved(map[c.id := c.options[0]])
  {
    var one := [c];
    assert one[1..] == [];
    assert SortById(one) == one;
    assert PrimaryCount(one, c.options[0]) == 1;
    AssignLast(one, c, {});
  }

  /** A newcomer with options of its own gets its bare name, changes no slug and breaks no resolution. */
  lemma NewcomerChangesNothing(cs: seq<Claim>, newcomer: Claim)
    requires DistinctIds(cs + [newcomer]) && NoSharedOption(cs, [newcomer])
    requires forall c :: c in cs + [newcomer] ==> c.options != []
    ensures Slugs(Resolve(cs + [newcomer])) ==
            if Resolve(cs).Resolved? then Some(Resolve(cs).slugs + map[newcomer.id := newcomer.options[0]]) else None
  {
    assert newcomer in cs + [newcomer];
    ResolutionIsLocal(cs, [newcomer]);
    AloneGetsBareName(newcomer);
  }

  // ---------------------------------------------------------------- a slug can move

  /** Claims that come already sorted are processed in the order given. */
  lemma {:induction false} SortedAlready(cs: seq<Claim>)
    requires Ordered(cs)
    ensures SortById(cs) == cs
  {
    if cs != [] {
      SortedAlready(cs[1..]);
      assert cs == [cs[0]] + cs[1..];
    }
  }

  lemma ContestedChoice(all: seq<Claim>, c: Claim, claimed: set<string>)
    requires |c.options| > 2 && Contested(all, c)
    ensures c.options[1] !in claimed ==> Choice(all, c, claimed) == Some(c.options[1])
    ensures c.options[1] in claimed && c.options[2] !in claimed ==> Choice(all, c, claimed) == Some(c.options[2])
  {
    assert c.options[1..][1..] == c.options[2..];
    assert FirstFree(c.options[1..][1..], claimed) == FirstFree(c.options[2..], claimed);
  }

  /** Three entities of one name in one area: the options they share and the ones they do not. */
  predicate Tied(a: Claim, b: Claim, c: Claim) {
    && Before(a.id, b.id) && Before(b.id, c.id) && Before(a.id, c.id)
    && |a.options| > 2 && |b.options| > 2 && |c.options| > 2
    && a.options[..2] == b.options[..2] == c.options[..2]
    && a.options[0] != a.options[1] && a.options[2] != a.options[1]
    && b.options[2] != a.options[1] && c.options[2] != a.options[1] && b.options[2] != c.options[2]
  }

  lemma ResolveTiedPair(b: Claim, c: Claim)
    requires Before(b.id, c.id) && |b.options| > 2 && |c.options| > 2 && b.options[..2] == c.options[..2]
    requires c.options[2] != b.options[1]
    ensures Resolve([b, c]) == Resolved(map[b.id := b.options[1], c.id := c.options[2]])
  {
    var all := [b, c];
    assert all[1..] == [c] && all == [b] + [c] && all[1..][1..] == [];
    SortedAlready(all);
    assert b.options[..2][0] == b.options[0] && c.options[..2][0] == c.options[0];
    assert b.options[..2][1] == b.options[1] && c.options[..2][1] == c.options[1];
    assert PrimaryCount(all, b.options[0]) == 1 + PrimaryCount([c], b.options[0]);
    ContestedChoice(all, b, {});
    ContestedChoice(all, c, {b.options[1]});
    AssignLast(all, c, {b.options[1]});
    assert {} + {b.options[1]} == {b.options[1]};
    AssignNext(all, b, [c], {}, b.options[1]);
    assert map[b.id := b.options[1]] + map[c.id := c.options[2]] == map[b.id := b.options[1], c.id := c.options[2]];
  }

  lemma TiedAreContested(a: Claim, b: Claim, c: Claim)
    requires Tied(a, b, c)
    ensures var all := [a, b, c];
            SortById(all) == all && Contested(all, a) && Contested(all, b) && Contested(all, c)
  {
    var all := [a, b, c];
    assert all[1..] == [b, c] && all[1..][1..] == [c] && all[1..][1..][1..] == [];
    assert Ordered([c]) && Ordered(all[1..]);
    SortedAlready(all);
    assert a.options[..2][0] == a.options[0] && b.options[..2][0] == b.options[0] && c.options[..2][0] == c.options[0];
    assert PrimaryCount(all, a.options[0]) == 1 + PrimaryCount(all[1..], a.options[0]);
  }

  /** Of three contested claims with one second option the first gets it. */
  lemma TiedAssign(all: seq<Claim>, a: Claim, b: Claim, c: Claim)
    requires Contested(all, a) && Contested(all, b) && Contested(all, c)
    requires |a.options| > 2 && |b.options| > 2 && |c.options| > 2
    requires a.options[1] == b.options[1] == c.options[1]
    requires b.options[2] != a.options[1] && c.options[2] != a.options[1] && b.options[2] != c.options[2]
    requires a.id != b.id && b.id != c.id && a.id != c.id
    ensures Assign(all, [a, b, c], {}) ==
            Resolved(map[a.id := a.options[1], b.id := b.options[2], c.id := c.options[2]])
  {
    hide Contested, Choice, Assign;
    var none: set<string>, one, two := {}, {a.options[1]}, {a.options[1], b.options[2]};
    ContestedChoice(all, a, none);
    ContestedChoice(all, b, one);
    ContestedChoice(all, c, two);
    assert none + {a.options[1]} == one && one + {b.options[2]} == two;
    assert [a, b, c] == [a] + ([b] + [c]);
    AssignLast(all, c, two);
    AssignNext(all, b, [c], one, b.options[2]);
    AssignNext(all, a, [b] + [c], none, a.options[1]);
    assert map[a.id := a.options[1]] + (map[b.id := b.options[2]] + map[c.id := c.options[2]]) ==
           map[a.id := a.options[1], b.id := b.options[2], c.id := c.options[2]];
  }

  /**
   A tie on the area name goes to the smallest id, so a newcomer with a smaller id takes over the slug,
   and with it the topic, of the entity that held it.
   */
  lemma NewcomerCanTakeASlug(newcomer: Claim, holder: Claim, third: Claim)
    requires Tied(newcomer, holder, third)
    ensures var area := holder.options[1];
            && Resolve([holder, third]) == Resolved(map[holder.id := area, third.id := third.options[2]])
            && Resolve([newcomer, holder, third]) ==
               Resolved(map[newcomer.id := area, holder.id := holder.options[2], third.id := third.options[2]])
  {
    var a, b, c := newcomer, holder, third;
    ResolveTiedPair(b, c);
    TiedAreContested(a, b, c);
    assert a.options[..2][1] == a.options[1] && b.options[..2][1] == b.options[1] && c.options[..2][1] == c.options[1];
    TiedAssign([a, b, c], a, b, c);
    hide Assign, SortById, Contested, Tied;
  }
}
