/** The recommendation pipeline: candidate pool, scoring, top picks per outcome, ranking, coverage gaps. */
module Recommendations {
  import opened Wrappers
  import opened Seqs
  import opened Graphs
  import opened Ordering
  import opened Signals

  datatype OutcomeStatus = NOT_STARTED | IN_PROGRESS | ACHIEVED

  datatype Outcome = Outcome(id: string, skillId: Option<string>, titleEn: string, titleAr: string)

  datatype LearnerOutcome = LearnerOutcome(outcomeId: string, status: OutcomeStatus, priority: int, attemptCount: nat)

  datatype CoverageGap = CoverageGap(outcomeId: string, outcomeTitleEn: string, outcomeTitleAr: string)

  datatype Priority = Priority(priority: int, isCarriedOver: bool)

  const MAX_ITEMS_PER_OUTCOME := 3

  // ----- what the inputs mean

  ghost predicate Outstanding(required: seq<LearnerOutcome>, o: string) {
    exists k :: 0 <= k < |required| && required[k].outcomeId == o && !required[k].status.ACHIEVED?
  }

  /** The skill of a known outcome; null and the empty string are both "none". */
  function SkillOf(outcomesById: map<string, Outcome>, o: string): Option<string> {
    if o in outcomesById && outcomesById[o].skillId.Some? && outcomesById[o].skillId.value != ""
    then outcomesById[o].skillId else None
  }

  /** Content that can train the outcome: not excluded, and of the outcome's own skill. */
  ghost predicate Trains(outcomesById: map<string, Outcome>, exclude: set<string>, item: ContentItem, o: string) {
    o in outcomesById && outcomesById[o].skillId == Some(item.skillId) && item.skillId != "" && item.id !in exclude
  }

  ghost predicate HasContent(outcomesById: map<string, Outcome>, exclude: set<string>, library: seq<ContentItem>, o: string) {
    exists item :: item in library && Trains(outcomesById, exclude, item, o)
  }

  /** Row ids are primary keys. */
  ghost predicate UniqueIds(items: seq<ContentItem>) {
    forall i, j :: 0 <= i < j < |items| ==> items[i].id != items[j].id
  }

  /** `outcomesById` is built from the rows themselves, keyed by their ids. */
  ghost predicate KeyedById(outcomesById: map<string, Outcome>) {
    forall o :: o in outcomesById ==> outcomesById[o].id == o
  }

  // ----- candidate pool

  function OutstandingIds(required: seq<LearnerOutcome>): seq<string> {
    Map(Filter(required, (lo: LearnerOutcome) => !lo.status.ACHIEVED?), (lo: LearnerOutcome) => lo.outcomeId)
  }

  lemma OutstandingIdsFacts(required: seq<LearnerOutcome>)
    ensures forall o :: o in OutstandingIds(required) <==> Outstanding(required, o)
  {
    var open := (lo: LearnerOutcome) => !lo.status.ACHIEVED?;
    FilterMembers(required, open);
    var rows := Filter(required, open);
    forall o ensures o in OutstandingIds(required) <==> Outstanding(required, o) {
      if o in OutstandingIds(required) {
        var k :| 0 <= k < |rows| && rows[k].outcomeId == o;
        assert rows[k] in required && open(rows[k]);
      }
      if Outstanding(required, o) {
        var k :| 0 <= k < |required| && required[k].outcomeId == o && !required[k].status.ACHIEVED?;
        assert required[k] in rows;
        var j :| 0 <= j < |rows| && rows[j] == required[k];
        assert OutstandingIds(required)[j] == o;
      }
    }
  }

  /** The outcomes of `ids` that belong to `skill`, in order. */
  ghost function OfSkill(outcomesById: map<string, Outcome>, ids: seq<string>, skill: string): seq<string> {
    Filter(ids, o => SkillOf(outcomesById, o) == Some(skill))
  }

  lemma OfSkillPush(outcomesById: map<string, Outcome>, ids: seq<string>, o: string, skill: string)
    ensures OfSkill(outcomesById, ids + [o], skill)
         == OfSkill(outcomesById, ids, skill) + if SkillOf(outcomesById, o) == Some(skill) then [o] else []
  {
    FilterConcat(ids, [o], x => SkillOf(outcomesById, x) == Some(skill));
  }

  lemma OfSkillFacts(outcomesById: map<string, Outcome>, ids: seq<string>, skill: string)
    requires NoDup(ids)
    ensures NoDup(OfSkill(outcomesById, ids, skill))
    ensures forall o :: o in OfSkill(outcomesById, ids, skill) <==> o in ids && SkillOf(outcomesById, o) == Some(skill)
  {
    FilterNoDup(ids, o => SkillOf(outcomesById, o) == Some(skill));
    FilterMembers(ids, o => SkillOf(outcomesById, o) == Some(skill));
  }

  /** `bySkill` groups `ids`; `skills` lists its keys in insertion order. */
  ghost predicate Grouped(outcomesById: map<string, Outcome>, ids: seq<string>, skills: seq<string>, bySkill: map<string, seq<string>>) {
    && NoDup(skills) && SetOf(skills) == bySkill.Keys
    && forall s :: GroupOf(outcomesById, ids, bySkill, s)
  }

  ghost predicate GroupOf(outcomesById: map<string, Outcome>, ids: seq<string>, bySkill: map<string, seq<string>>, s: string) {
    var group := OfSkill(outcomesById, ids, s);
    if s in bySkill then bySkill[s] == group && group != [] else group == []
  }

  function Grow(skills: seq<string>, bySkill: map<string, seq<string>>, s: string, o: string)
    : (seq<string>, map<string, seq<string>>)
  {
    if s in bySkill then (skills, bySkill[s := bySkill[s] + [o]]) else (skills + [s], bySkill[s := [o]])
  }

  lemma GroupOne(outcomesById: map<string, Outcome>, ids: seq<string>, skills: seq<string>, bySkill: map<string, seq<string>>, o: string)
    requires Grouped(outcomesById, ids, skills, bySkill)
    ensures SkillOf(outcomesById, o).None? ==> Grouped(outcomesById, ids + [o], skills, bySkill)
    ensures SkillOf(outcomesById, o).Some? ==>
      var (skills', bySkill') := Grow(skills, bySkill, SkillOf(outcomesById, o).value, o);
      Grouped(outcomesById, ids + [o], skills', bySkill')
  {
    var skill := SkillOf(outcomesById, o);
    var (skills', bySkill') := if skill.None? then (skills, bySkill) else Grow(skills, bySkill, skill.value, o);
    forall s ensures GroupOf(outcomesById, ids + [o], bySkill', s) {
      assert GroupOf(outcomesById, ids, bySkill, s);
      OfSkillPush(outcomesById, ids, o, s);
    }
    if skill.Some? && skill.value !in bySkill {
      assert skill.value !in SetOf(skills);
      NoDupConcat(skills, [skill.value]);
      SetOfPush(skills, skill.value);
    }
  }

  method GroupBySkill(outcomesById: map<string, Outcome>, ids: seq<string>)
    returns (skills: seq<string>, bySkill: map<string, seq<string>>)
    ensures Grouped(outcomesById, ids, skills, bySkill)
  {
    skills, bySkill := [], map[];
    for i := 0 to |ids|
      invariant Grouped(outcomesById, ids[..i], skills, bySkill)
    {
      var o := ids[i];
      TakeMore(ids, i);
      GroupOne(outcomesById, ids[..i], skills, bySkill, o);
      var skill := SkillOf(outcomesById, o);
      if skill.None? {
        continue;
      }
      var grown := Grow(skills, bySkill, skill.value, o);
      skills, bySkill := grown.0, grown.1;
    }
    assert ids[..|ids|] == ids;
  }

  /** `ContentItemRepository.findBySkill`. */
  function FindBySkill(library: seq<ContentItem>, skill: string): seq<ContentItem> {
    Filter(library, (item: ContentItem) => item.skillId == skill)
  }

  /** Candidates are the non-excluded content of the grouped skills, each bound to its skill's outcomes. */
  ghost predicate Collected(library: seq<ContentItem>, exclude: set<string>, skills: set<string>, bySkill: map<string, seq<string>>,
                            candidates: seq<ContentItem>, bound: map<string, seq<string>>)
    requires skills <= bySkill.Keys
  {
    && UniqueIds(candidates)
    && (forall item :: item in candidates <==> item in library && item.skillId in skills && item.id !in exclude)
    && (forall item :: item in candidates ==> item.id in bound && bound[item.id] == bySkill[item.skillId])
  }

  lemma SameIdSameItem(library: seq<ContentItem>, a: ContentItem, b: ContentItem)
    requires UniqueIds(library) && a in library && b in library && a.id == b.id
    ensures a == b
  {
  }

  /** The usable content of one skill, in library order. */
  ghost function Usable(library: seq<ContentItem>, exclude: set<string>, skill: string): seq<ContentItem> {
    NotExcluded(FindBySkill(library, skill), exclude)
  }

  ghost function NotExcluded(items: seq<ContentItem>, exclude: set<string>): seq<ContentItem> {
    Filter(items, (item: ContentItem) => item.id !in exclude)
  }

  lemma NotExcludedPush(items: seq<ContentItem>, exclude: set<string>, item: ContentItem, before: seq<ContentItem>)
    ensures before + NotExcluded(items + [item], exclude)
         == before + NotExcluded(items, exclude) + if item.id in exclude then [] else [item]
  {
    FilterConcat(items, [item], (x: ContentItem) => x.id !in exclude);
  }

  /** `bound` after binding `items`, one by one, to `outcomeIds`. */
  ghost function BindAll(bound: map<string, seq<string>>, items: seq<ContentItem>, exclude: set<string>, outcomeIds: seq<string>)
    : map<string, seq<string>>
  {
    if items == [] then bound
    else
      var last := items[|items| - 1];
      var front := BindAll(bound, items[..|items| - 1], exclude, outcomeIds);
      if last.id in exclude then front else front[last.id := outcomeIds]
  }

  lemma BindAllPush(bound: map<string, seq<string>>, items: seq<ContentItem>, exclude: set<string>, outcomeIds: seq<string>,
                    item: ContentItem)
    ensures var front := BindAll(bound, items, exclude, outcomeIds);
      BindAll(bound, items + [item], exclude, outcomeIds)
      == if item.id in exclude then front else front[item.id := outcomeIds]
  {
    assert (items + [item])[..|items|] == items;
  }

  method CollectSkill(library: seq<ContentItem>, exclude: set<string>, skill: string, outcomeIds: seq<string>,
                      candidates: seq<ContentItem>, bound: map<string, seq<string>>)
    returns (candidates': seq<ContentItem>, bound': map<string, seq<string>>)
    ensures candidates' == candidates + Usable(library, exclude, skill)
    ensures bound' == BindAll(bound, FindBySkill(library, skill), exclude, outcomeIds)
  {
    candidates', bound' := candidates, bound;
    var items := FindBySkill(library, skill);
    for k := 0 to |items|
      invariant candidates' == candidates + NotExcluded(items[..k], exclude)
      invariant bound' == BindAll(bound, items[..k], exclude, outcomeIds)
    {
      var item := items[k];
      TakeMore(items, k);
      NotExcludedPush(items[..k], exclude, item, candidates);
      BindAllPush(bound, items[..k], exclude, outcomeIds, item);
      if item.id in exclude {
        continue;
      }
      candidates' := candidates' + [item];
      bound' := bound'[item.id := outcomeIds];
    }
    assert items[..|items|] == items;
  }

  lemma {:induction false} BindAllFacts(bound: map<string, seq<string>>, items: seq<ContentItem>, exclude: set<string>,
                                        outcomeIds: seq<string>)
    ensures forall id :: Rebound(bound, items, exclude, outcomeIds, BindAll(bound, items, exclude, outcomeIds), id)
  {
    if items != [] {
      var n := |items| - 1;
      BindAllFacts(bound, items[..n], exclude, outcomeIds);
      var front, r := BindAll(bound, items[..n], exclude, outcomeIds), BindAll(bound, items, exclude, outcomeIds);
      forall id ensures Rebound(bound, items, exclude, outcomeIds, r, id) {
        assert Rebound(bound, items[..n], exclude, outcomeIds, front, id);
        assert HasId(items, id) <==> HasId(items[..n], id) || items[n].id == id by {
          if k :| 0 <= k < |items| && items[k].id == id {
            assert k == n || items[..n][k].id == id;
          }
        }
      }
    }
  }

  ghost predicate HasId(items: seq<ContentItem>, id: string) {
    exists k :: 0 <= k < |items| && items[k].id == id
  }

  ghost predicate Rebound(bound: map<string, seq<string>>, items: seq<ContentItem>, exclude: set<string>, outcomeIds: seq<string>,
                          r: map<string, seq<string>>, id: string)
  {
    if id !in exclude && HasId(items, id) then id in r && r[id] == outcomeIds
    else (id in r <==> id in bound) && (id in bound ==> r[id] == bound[id])
  }

  lemma UsableFacts(library: seq<ContentItem>, exclude: set<string>, skill: string)
    ensures forall item ::
      item in Usable(library, exclude, skill) <==> item in library && item.skillId == skill && item.id !in exclude
    ensures forall item :: item in FindBySkill(library, skill) <==> item in library && item.skillId == skill
  {
    FilterMembers(library, (item: ContentItem) => item.skillId == skill);
    FilterMembers(FindBySkill(library, skill), (item: ContentItem) => item.id !in exclude);
  }

  lemma {:induction false} UniqueIdsFilter(items: seq<ContentItem>, p: ContentItem -> bool)
    requires UniqueIds(items)
    ensures UniqueIds(Filter(items, p))
  {
    if items != [] {
      UniqueIdsFilter(items[1..], p);
      FilterMembers(items[1..], p);
      var tail := Filter(items[1..], p);
      forall k | 0 <= k < |tail| ensures tail[k].id != items[0].id {
        assert tail[k] in items[1..];
        var j :| 0 <= j < |items| - 1 && items[1..][j] == tail[k];
        assert items[j + 1] == tail[k];
      }
    }
  }

  lemma UniqueIdsConcat(a: seq<ContentItem>, b: seq<ContentItem>)
    requires UniqueIds(a) && UniqueIds(b) && forall x, y :: x in a && y in b ==> x.id != y.id
    ensures UniqueIds(a + b)
  {
    var all := a + b;
    forall i, j | 0 <= i < j < |all| ensures all[i].id != all[j].id {
      if i < |a| <= j {
        assert all[i] in a && all[j] == b[j - |a|] && all[j] in b;
      }
    }
  }

  lemma NotFoundHere(library: seq<ContentItem>, skill: string, item: ContentItem)
    requires UniqueIds(library) && item in library && item.skillId != skill
    ensures !HasId(FindBySkill(library, skill), item.id)
  {
    var found := FindBySkill(library, skill);
    UsableFacts(library, {}, skill);
    forall k | 0 <= k < |found| ensures found[k].id != item.id {
      assert found[k] in found;
      if found[k].id == item.id {
        SameIdSameItem(library, found[k], item);
      }
    }
  }

  /** Adding one more skill's content keeps the candidate set right: skills share no content. */
  lemma CollectOne(library: seq<ContentItem>, exclude: set<string>, skills: set<string>, bySkill: map<string, seq<string>>,
                   candidates: seq<ContentItem>, bound: map<string, seq<string>>, skill: string)
    requires UniqueIds(library) && skills <= bySkill.Keys && skill in bySkill && skill !in skills
    requires Collected(library, exclude, skills, bySkill, candidates, bound)
    ensures Collected(library, exclude, skills + {skill}, bySkill, candidates + Usable(library, exclude, skill),
                      BindAll(bound, FindBySkill(library, skill), exclude, bySkill[skill]))
  {
    UsableFacts(library, exclude, skill);
    var more := Usable(library, exclude, skill);
    UniqueIdsFilter(library, (item: ContentItem) => item.skillId == skill);
    UniqueIdsFilter(FindBySkill(library, skill), (item: ContentItem) => item.id !in exclude);
    BindAllFacts(bound, FindBySkill(library, skill), exclude, bySkill[skill]);
    var all := candidates + more;
    forall x, y | x in candidates && y in more ensures x.id != y.id {
      if x.id == y.id {
        SameIdSameItem(library, x, y);
      }
    }
    UniqueIdsConcat(candidates, more);
    var found := FindBySkill(library, skill);
    forall item | item in all
      ensures var r := BindAll(bound, found, exclude, bySkill[skill]); item.id in r && r[item.id] == bySkill[item.skillId]
    {
      assert Rebound(bound, found, exclude, bySkill[skill], BindAll(bound, found, exclude, bySkill[skill]), item.id);
      if item.skillId == skill {
        assert item in found;
        var k :| 0 <= k < |found| && found[k] == item;
        assert found[k].id == item.id;
      } else {
        assert item in candidates;
        NotFoundHere(library, skill, item);
      }
    }
  }

  ghost predicate Wanted(required: seq<LearnerOutcome>, outcomesById: map<string, Outcome>, skill: string, o: string) {
    Outstanding(required, o) && SkillOf(outcomesById, o) == Some(skill)
  }

  ghost predicate SomeoneWants(required: seq<LearnerOutcome>, outcomesById: map<string, Outcome>, skill: string) {
    exists o :: Wanted(required, outcomesById, skill, o)
  }

  /** The pool is exactly the non-excluded content of wanted skills, bound to every outcome wanting it. */
  ghost predicate IsPool(required: seq<LearnerOutcome>, outcomesById: map<string, Outcome>, exclude: set<string>,
                         library: seq<ContentItem>, candidates: seq<ContentItem>, bound: map<string, seq<string>>)
  {
    && UniqueIds(candidates)
    && (forall item :: item in candidates
          <==> item in library && item.id !in exclude && SomeoneWants(required, outcomesById, item.skillId))
    && (forall item :: item in candidates ==> item.id in bound && BoundTo(required, outcomesById, item.skillId, bound[item.id]))
  }

  ghost predicate BoundTo(required: seq<LearnerOutcome>, outcomesById: map<string, Outcome>, skill: string, ids: seq<string>) {
    NoDup(ids) && forall o :: o in ids <==> Wanted(required, outcomesById, skill, o)
  }

  lemma GroupsMakePool(required: seq<LearnerOutcome>, outcomesById: map<string, Outcome>, exclude: set<string>, library: seq<ContentItem>,
                       ids: seq<string>, skills: seq<string>, bySkill: map<string, seq<string>>,
                       candidates: seq<ContentItem>, bound: map<string, seq<string>>)
    requires NoDup(ids) && forall o :: o in ids <==> Outstanding(required, o)
    requires Grouped(outcomesById, ids, skills, bySkill)
    requires Collected(library, exclude, bySkill.Keys, bySkill, candidates, bound)
    ensures IsPool(required, outcomesById, exclude, library, candidates, bound)
  {
    forall s ensures s in bySkill <==> SomeoneWants(required, outcomesById, s)
             ensures s in bySkill ==> BoundTo(required, outcomesById, s, bySkill[s])
    {
      assert GroupOf(outcomesById, ids, bySkill, s);
      OfSkillFacts(outcomesById, ids, s);
      var group := OfSkill(outcomesById, ids, s);
      forall o ensures o in group <==> Wanted(required, outcomesById, s, o) {}
      if group != [] {
        assert Wanted(required, outcomesById, s, group[0]);
      }
    }
  }

  method BuildPool(required: seq<LearnerOutcome>, outcomesById: map<string, Outcome>, exclude: set<string>, library: seq<ContentItem>)
    returns (candidates: seq<ContentItem>, bound: map<string, seq<string>>)
    requires UniqueIds(library)
    ensures IsPool(required, outcomesById, exclude, library, candidates, bound)
  {
    var outstanding := Distinct(OutstandingIds(required));
    OutstandingIdsFacts(required);
    candidates, bound := [], map[];
    if |outstanding| == 0 {
      assert forall o :: o !in outstanding;
      return;
    }
    var skills, bySkill := GroupBySkill(outcomesById, outstanding);
    for i := 0 to |skills|
      invariant SetOf(skills[..i]) <= bySkill.Keys
      invariant Collected(library, exclude, SetOf(skills[..i]), bySkill, candidates, bound)
    {
      var skill := skills[i];
      TakeMore(skills, i);
      SetOfPush(skills[..i], skill);
      assert skill in SetOf(skills) && skill !in skills[..i];
      CollectOne(library, exclude, SetOf(skills[..i]), bySkill, candidates, bound, skill);
      candidates, bound := CollectSkill(library, exclude, skill, bySkill[skill], candidates, bound);
    }
    assert skills[..|skills|] == skills;
    GroupsMakePool(required, outcomesById, exclude, library, outstanding, skills, bySkill, candidates, bound);
  }

  // ----- scoring

  function EffectivenessKey(contentItemId: string, outcomeId: string): string {
    contentItemId + ":" + outcomeId
  }

  /** Rows by `content:outcome` key; a later row replaces an earlier one. */
  function EffectivenessByKey(rows: seq<Effectiveness>): map<string, Effectiveness> {
    if rows == [] then map[]
    else
      var last := rows[|rows| - 1];
      EffectivenessByKey(rows[..|rows| - 1])[EffectivenessKey(last.contentItemId, last.outcomeId) := last]
  }

  method ResolveEffectiveness(rows: seq<Effectiveness>) returns (byKey: map<string, Effectiveness>)
    ensures byKey == EffectivenessByKey(rows)
  {
    byKey := map[];
    for k := 0 to |rows|
      invariant byKey == EffectivenessByKey(rows[..k])
    {
      assert rows[..k + 1][..k] == rows[..k];
      byKey := byKey[EffectivenessKey(rows[k].contentItemId, rows[k].outcomeId) := rows[k]];
    }
    assert rows[..|rows|] == rows;
  }

  /** The joined key names one pair as long as content ids hold no colon; outcome ids may. */
  lemma {:induction false} KeyNamesOnePair(c1: string, o1: string, c2: string, o2: string)
    requires ':' !in c1 && ':' !in c2
    requires EffectivenessKey(c1, o1) == EffectivenessKey(c2, o2)
    ensures c1 == c2 && o1 == o2
  {
    var k1, k2 := EffectivenessKey(c1, o1), EffectivenessKey(c2, o2);
    assert k1[|c1|] == ':' && forall i :: 0 <= i < |c1| ==> k1[i] == c1[i] != ':';
    assert k2[|c2|] == ':' && forall i :: 0 <= i < |c2| ==> k2[i] == c2[i] != ':';
    assert |c1| == |c2|;
    assert c1 == k1[..|c1|] && c2 == k2[..|c2|];
    assert o1 == k1[|c1| + 1..] && o2 == k2[|c2| + 1..];
  }

  ghost predicate ShareAKey(c1: string, c2: string) {
    exists o1, o2 :: EffectivenessKey(c1, o1) == EffectivenessKey(c2, o2)
  }

  lemma SharedKeyMeansPrefix(c1: string, o1: string, c2: string, o2: string)
    requires EffectivenessKey(c1, o1) == EffectivenessKey(c2, o2) && |c1| < |c2|
    ensures c1 + ":" <= c2
  {
    var k1, k2 := EffectivenessKey(c1, o1), EffectivenessKey(c2, o2);
    assert k1[..|c1| + 1] == c1 + ":" && k2[..|c1| + 1] == c2[..|c1| + 1];
  }

  lemma SameLengthSameContent(c1: string, o1: string, c2: string, o2: string)
    requires EffectivenessKey(c1, o1) == EffectivenessKey(c2, o2)
    ensures |c1| == |c2| ==> c1 == c2
  {
    assert EffectivenessKey(c1, o1)[..|c1|] == c1 && EffectivenessKey(c2, o2)[..|c2|] == c2;
  }

  lemma PrefixSharesKey(c1: string, c2: string)
    requires c1 + ":" <= c2
    ensures EffectivenessKey(c1, c2[|c1| + 1..] + ":") == EffectivenessKey(c2, "")
  {
    assert c2 == c1 + ":" + c2[|c1| + 1..];
  }

  /** Two contents can share a key exactly when one id continues the other with a colon, which generated ids never do. */
  lemma ContentsCollideExactly(c1: string, c2: string)
    requires c1 != c2
    ensures ShareAKey(c1, c2) <==> c1 + ":" <= c2 || c2 + ":" <= c1
  {
    if o1, o2 :| EffectivenessKey(c1, o1) == EffectivenessKey(c2, o2) {
      SameLengthSameContent(c1, o1, c2, o2);
      if |c1| < |c2| {
        SharedKeyMeansPrefix(c1, o1, c2, o2);
      } else if |c2| < |c1| {
        SharedKeyMeansPrefix(c2, o2, c1, o1);
      }
    }
    if c1 + ":" <= c2 {
      PrefixSharesKey(c1, c2);
    }
    if c2 + ":" <= c1 {
      PrefixSharesKey(c2, c1);
    }
  }

  function Lookup(byKey: map<string, Effectiveness>, contentItemId: string, outcomeId: string): Option<Effectiveness> {
    var key := EffectivenessKey(contentItemId, outcomeId);
    if key in byKey then Some(byKey[key]) else None
  }

  /** With one row per pair, a lookup finds exactly that pair's row. */
  lemma {:induction false} LookupIsExact(rows: seq<Effectiveness>, c: string, o: string)
    requires ':' !in c && forall k :: 0 <= k < |rows| ==> ':' !in rows[k].contentItemId
    requires forall i, j :: 0 <= i < j < |rows| ==> (rows[i].contentItemId, rows[i].outcomeId) != (rows[j].contentItemId, rows[j].outcomeId)
    ensures match Lookup(EffectivenessByKey(rows), c, o)
      case Some(row) => row in rows && row.contentItemId == c && row.outcomeId == o
      case None => forall k :: 0 <= k < |rows| ==> (rows[k].contentItemId, rows[k].outcomeId) != (c, o)
  {
    if rows != [] {
      var n := |rows| - 1;
      LookupIsExact(rows[..n], c, o);
      var key := EffectivenessKey(rows[n].contentItemId, rows[n].outcomeId);
      if key == EffectivenessKey(c, o) {
        KeyNamesOnePair(rows[n].contentItemId, rows[n].outcomeId, c, o);
      } else {
        assert Lookup(EffectivenessByKey(rows), c, o) == Lookup(EffectivenessByKey(rows[..n]), c, o);
        forall k | 0 <= k < n ensures rows[..n][k] == rows[k] {}
      }
    }
  }

  datatype ScorerInput = ScorerInput(
    bound: map<string, seq<string>>,
    outcomesById: map<string, Outcome>,
    priorities: map<string, Priority>,
    weakOutcomeIds: set<string>,
    byKey: map<string, Effectiveness>,
    distances: map<string, map<string, real>>)
  {
    function BoundTo(item: ContentItem): seq<string> {
      if item.id in bound then bound[item.id] else []
    }

    /** The pairs the scorer does not skip. */
    predicate Scorable(o: string) {
      o in priorities && SkillOf(outcomesById, o).Some?
    }

    function DistanceOf(item: ContentItem, o: string): Option<real> {
      if o in distances && item.id in distances[o] then Some(distances[o][item.id]) else None
    }

    function ContextOf(item: ContentItem, o: string): SignalContext
      requires Scorable(o)
    {
      SignalContext(item, o, SkillOf(outcomesById, o).value, priorities[o].priority, priorities[o].isCarriedOver, weakOutcomeIds,
                    Lookup(byKey, item.id, o), DistanceOf(item, o))
    }

    function ScoreOf(item: ContentItem, o: string): ScoredItem
      requires Scorable(o)
    {
      ScoredItem(item, o, Weighted(ContextOf(item, o)))
    }

    /** The one scored item a (content, outcome) pair can have. */
    ghost predicate Scores(x: ScoredItem) {
      Scorable(x.outcomeId) && x == ScoreOf(x.contentItem, x.outcomeId)
    }
  }

  ghost predicate ScoredFrom(input: ScorerInput, candidates: seq<ContentItem>, x: ScoredItem) {
    x.contentItem in candidates && x.outcomeId in input.BoundTo(x.contentItem) && input.Scores(x)
  }

  /** Every bound pair with a priority and a skill is scored, once, and nothing else is. */
  ghost predicate AllPairsScored(input: ScorerInput, candidates: seq<ContentItem>, results: seq<ScoredItem>) {
    NoDup(results) && forall x :: x in results <==> ScoredFrom(input, candidates, x)
  }

  method ScoreContent(input: ScorerInput, item: ContentItem) returns (results: seq<ScoredItem>)
    requires NoDup(input.BoundTo(item))
    ensures AllPairsScored(input, [item], results)
  {
    results := [];
    var ids := input.BoundTo(item);
    for k := 0 to |ids|
      invariant NoDup(results)
      invariant forall x :: x in results <==> x.contentItem == item && x.outcomeId in ids[..k] && input.Scores(x)
    {
      TakeMore(ids, k);
      assert ids[k] !in ids[..k];
      if !input.Scorable(ids[k]) {
        continue;
      }
      var scored, _ := ScoreOne(input.ContextOf(item, ids[k]));
      NoDupConcat(results, [scored]);
      results := results + [scored];
    }
    assert ids[..|ids|] == ids;
  }

  lemma ScoredElsewhere(input: ScorerInput, candidates: seq<ContentItem>, k: nat, x: ScoredItem)
    requires UniqueIds(candidates) && k < |candidates|
    requires ScoredFrom(input, candidates[..k], x)
    ensures !ScoredFrom(input, [candidates[k]], x)
  {
  }

  method Score(input: ScorerInput, candidates: seq<ContentItem>) returns (results: seq<ScoredItem>)
    requires UniqueIds(candidates)
    requires forall item :: item in candidates ==> NoDup(input.BoundTo(item))
    ensures AllPairsScored(input, candidates, results)
  {
    results := [];
    for k := 0 to |candidates|
      invariant AllPairsScored(input, candidates[..k], results)
    {
      var more := ScoreContent(input, candidates[k]);
      TakeMore(candidates, k);
      forall x | x in results ensures x !in more {
        ScoredElsewhere(input, candidates, k, x);
      }
      NoDupConcat(results, more);
      results := results + more;
    }
    assert candidates[..|candidates|] == candidates;
  }

  // ----- the best few per outcome

  function ScoredForOutcome(scored: seq<ScoredItem>, o: string): seq<ScoredItem> {
    Filter(scored, (x: ScoredItem) => x.outcomeId == o)
  }

  function TopOf(scored: seq<ScoredItem>, o: string): seq<ScoredItem> {
    var list := ByScore(ScoredForOutcome(scored, o));
    if |list| <= MAX_ITEMS_PER_OUTCOME then list else list[..MAX_ITEMS_PER_OUTCOME]
  }

  function TopOfEach(scored: seq<ScoredItem>, outcomes: seq<string>): seq<ScoredItem> {
    if outcomes == [] then [] else TopOf(scored, outcomes[0]) + TopOfEach(scored, outcomes[1..])
  }

  function KeepTopPerOutcome(scored: seq<ScoredItem>): seq<ScoredItem> {
    TopOfEach(scored, Distinct(Map(scored, (x: ScoredItem) => x.outcomeId)))
  }

  lemma ScoredForOutcomeMembers(scored: seq<ScoredItem>, o: string)
    ensures forall x :: x in ScoredForOutcome(scored, o) <==> x in scored && x.outcomeId == o
  {
    FilterMembers(scored, (x: ScoredItem) => x.outcomeId == o);
  }

  lemma TopOfFacts(scored: seq<ScoredItem>, o: string)
    ensures multiset(ByScore(ScoredForOutcome(scored, o))) == multiset(ScoredForOutcome(scored, o))
    ensures TopOf(scored, o) <= ByScore(ScoredForOutcome(scored, o))
    ensures forall x :: x in ByScore(ScoredForOutcome(scored, o)) <==> x in scored && x.outcomeId == o
    ensures Covers(scored, o) ==> TopOf(scored, o) != []
  {
    var mine := ScoredForOutcome(scored, o);
    var list := ByScore(mine);
    ByScoreRanks(mine);
    ScoredForOutcomeMembers(scored, o);
    SameMembers(list, mine);
    hide ScoredForOutcome, ByScore;
    if Covers(scored, o) {
      var x :| x in scored && x.outcomeId == o;
      assert x in list;
    }
  }

  /** Trimming drops an item only when three others of its outcome are kept, each scoring at least as much. */
  lemma OnlyBeatenItemsAreDropped(scored: seq<ScoredItem>, o: string, dropped: ScoredItem, kept: ScoredItem)
    requires dropped in scored && dropped.outcomeId == o && dropped !in TopOf(scored, o)
    requires kept in TopOf(scored, o)
    ensures |TopOf(scored, o)| == MAX_ITEMS_PER_OUTCOME
    ensures kept in scored && kept.outcomeId == o && kept.score >= dropped.score
  {
    TopOfFacts(scored, o);
    ByScoreRanks(ScoredForOutcome(scored, o));
    var list, top := ByScore(ScoredForOutcome(scored, o)), TopOf(scored, o);
    assert dropped in list;
    var j :| 0 <= j < |list| && list[j] == dropped;
    var i :| 0 <= i < |top| && top[i] == kept;
    assert list[i] == kept;
  }

  lemma TopOfMembers(scored: seq<ScoredItem>, o: string)
    ensures forall x :: x in TopOf(scored, o) ==> x in scored && x.outcomeId == o
  {
    TopOfFacts(scored, o);
    forall x | x in TopOf(scored, o) ensures x in ByScore(ScoredForOutcome(scored, o)) {}
  }

  lemma {:induction false} TopOfEachFacts(scored: seq<ScoredItem>, outcomes: seq<string>)
    ensures forall x :: x in TopOfEach(scored, outcomes) <==> x.outcomeId in outcomes && x in TopOf(scored, x.outcomeId)
  {
    if outcomes != [] {
      TopOfEachFacts(scored, outcomes[1..]);
      TopOfMembers(scored, outcomes[0]);
      assert outcomes == [outcomes[0]] + outcomes[1..];
    }
  }

  /** Trimming never loses an outcome: one is covered afterwards exactly when it was before. */
  lemma TrimmingKeepsCoverage(scored: seq<ScoredItem>, o: string)
    ensures Covers(KeepTopPerOutcome(scored), o) <==> Covers(scored, o)
  {
    var outcomes := Map(scored, (x: ScoredItem) => x.outcomeId);
    TopOfEachFacts(scored, Distinct(outcomes));
    TopOfFacts(scored, o);
    var kept := KeepTopPerOutcome(scored);
    if Covers(scored, o) {
      var x :| x in scored && x.outcomeId == o;
      var k :| 0 <= k < |scored| && scored[k] == x;
      assert outcomes[k] == o;
      var y := TopOf(scored, o)[0];
      assert y in TopOf(scored, o) && y in kept;
    }
    if Covers(kept, o) {
      var x :| x in kept && x.outcomeId == o;
      TopOfMembers(scored, o);
    }
  }

  // ----- what the scores decide

  /** Ranks by effectiveness and similarity alone. */
  function EvidenceKey(input: ScorerInput): ScoredItem -> real {
    (x: ScoredItem) => if input.Scorable(x.outcomeId) then -Evidence(input.ContextOf(x.contentItem, x.outcomeId)) else 0.0
  }

  lemma ScoredItemsHaveTheSkill(required: seq<LearnerOutcome>, exclude: set<string>, library: seq<ContentItem>, input: ScorerInput,
                                candidates: seq<ContentItem>, results: seq<ScoredItem>, x: ScoredItem)
    requires IsPool(required, input.outcomesById, exclude, library, candidates, input.bound)
    requires AllPairsScored(input, candidates, results) && x in results
    ensures input.Scores(x) && SkillOf(input.outcomesById, x.outcomeId) == Some(x.contentItem.skillId)
  {
    assert ScoredFrom(input, candidates, x);
    assert BoundTo(required, input.outcomesById, x.contentItem.skillId, input.bound[x.contentItem.id]);
  }

  /** Of one outcome's content, the three kept are the most effective and most similar: no other signal has a say. */
  lemma TopPicksByEvidence(required: seq<LearnerOutcome>, exclude: set<string>, library: seq<ContentItem>, input: ScorerInput,
                           candidates: seq<ContentItem>, results: seq<ScoredItem>, o: string)
    requires IsPool(required, input.outcomesById, exclude, library, candidates, input.bound)
    requires AllPairsScored(input, candidates, results)
    ensures var list := StableSort(ScoredForOutcome(results, o), EvidenceKey(input));
      TopOf(results, o) == if |list| <= MAX_ITEMS_PER_OUTCOME then list else list[..MAX_ITEMS_PER_OUTCOME]
  {
    ScoredForOutcomeMembers(results, o);
    var mine, key := ScoredForOutcome(results, o), EvidenceKey(input);
    forall x, y | x in mine && y in mine ensures ScoreKey()(x) <= ScoreKey()(y) <==> key(x) <= key(y) {
      ScoredItemsHaveTheSkill(required, exclude, library, input, candidates, results, x);
      ScoredItemsHaveTheSkill(required, exclude, library, input, candidates, results, y);
      SameOutcomeDiffersByEvidence(input.ContextOf(x.contentItem, o), input.ContextOf(y.contentItem, o));
    }
    SameOrderSortsAlike(mine, ScoreKey(), key);
  }

  /** Ranks by the sum of the other five signals. */
  function KeyWithoutDifficulty(input: ScorerInput): ScoredItem -> real {
    (x: ScoredItem) =>
      if input.Scorable(x.outcomeId) then
        var context := input.ContextOf(x.contentItem, x.outcomeId);
        Signal(DifficultyFit, context) * Weight(DifficultyFit) - Weighted(context)
      else 0.0
  }

  /** The difficulty signal never changes a ranking: leaving it out of every sum ranks the items alike. */
  lemma DifficultyNeverRanks(input: ScorerInput, candidates: seq<ContentItem>, results: seq<ScoredItem>, items: seq<ScoredItem>)
    requires AllPairsScored(input, candidates, results) && forall x :: x in items ==> x in results
    ensures ByScore(items) == StableSort(items, KeyWithoutDifficulty(input))
  {
    var key := KeyWithoutDifficulty(input);
    forall x | x in items ensures key(x) == ScoreKey()(x) + 0.075 {
      assert ScoredFrom(input, candidates, x);
    }
    SameOrderSortsAlike(items, ScoreKey(), key);
  }

  // ----- coverage gaps

  ghost predicate Covers(items: seq<ScoredItem>, o: string) {
    exists x :: x in items && x.outcomeId == o
  }

  function GapsFor(outcomesById: map<string, Outcome>, ids: seq<string>): seq<CoverageGap> {
    if ids == [] then []
    else
      var rest := GapsFor(outcomesById, ids[1..]);
      if ids[0] in outcomesById then
        var outcome := outcomesById[ids[0]];
        [CoverageGap(outcome.id, outcome.titleEn, outcome.titleAr)] + rest
      else rest
  }

  function Detect(required: seq<LearnerOutcome>, outcomesById: map<string, Outcome>, scoredItems: seq<ScoredItem>): seq<CoverageGap> {
    GapsFor(outcomesById, Without(OutstandingIds(required), Map(scoredItems, (x: ScoredItem) => x.outcomeId)))
  }

  function Without(ids: seq<string>, covered: seq<string>): seq<string> {
    Filter(ids, o => o !in covered)
  }

  ghost predicate ReportsGap(gaps: seq<CoverageGap>, o: string) {
    exists k :: 0 <= k < |gaps| && gaps[k].outcomeId == o
  }

  lemma {:induction false} GapsForFacts(outcomesById: map<string, Outcome>, ids: seq<string>, o: string)
    requires KeyedById(outcomesById)
    ensures ReportsGap(GapsFor(outcomesById, ids), o) <==> o in ids && o in outcomesById
  {
    if ids != [] {
      var gaps, rest := GapsFor(outcomesById, ids), GapsFor(outcomesById, ids[1..]);
      GapsForFacts(outcomesById, ids[1..], o);
      assert ids == [ids[0]] + ids[1..];
      if ids[0] in outcomesById {
        var first := gaps[0];
        assert gaps == [first] + rest;
        if k :| 0 <= k < |gaps| && gaps[k].outcomeId == o {
          assert k == 0 || rest[k - 1].outcomeId == o;
        }
        if k :| 0 <= k < |rest| && rest[k].outcomeId == o {
          assert gaps[k + 1].outcomeId == o;
        }
        assert first.outcomeId == o ==> ReportsGap(gaps, o);
      }
    }
  }

  /** A gap carries the titles of its own outcome. */
  ghost predicate IsGapOf(outcomesById: map<string, Outcome>, gap: CoverageGap) {
    && gap.outcomeId in outcomesById
    && gap.outcomeTitleEn == outcomesById[gap.outcomeId].titleEn && gap.outcomeTitleAr == outcomesById[gap.outcomeId].titleAr
  }

  lemma {:induction false} GapsAreTheirs(outcomesById: map<string, Outcome>, ids: seq<string>)
    requires KeyedById(outcomesById)
    ensures forall gap :: gap in GapsFor(outcomesById, ids) ==> IsGapOf(outcomesById, gap)
  {
    if ids != [] {
      GapsAreTheirs(outcomesById, ids[1..]);
    }
  }

  lemma DetectReports(required: seq<LearnerOutcome>, outcomesById: map<string, Outcome>, scoredItems: seq<ScoredItem>, o: string)
    requires KeyedById(outcomesById)
    ensures ReportsGap(Detect(required, outcomesById, scoredItems), o)
      <==> Outstanding(required, o) && o in outcomesById && !Covers(scoredItems, o)
  {
    var covered := Map(scoredItems, (x: ScoredItem) => x.outcomeId);
    OutstandingIdsFacts(required);
    FilterMembers(OutstandingIds(required), id => id !in covered);
    GapsForFacts(outcomesById, Without(OutstandingIds(required), covered), o);
    if o in covered {
      var k :| 0 <= k < |covered| && covered[k] == o;
      assert scoredItems[k] in scoredItems;
    }
    if Covers(scoredItems, o) {
      var x :| x in scoredItems && x.outcomeId == o;
      var k :| 0 <= k < |scoredItems| && scoredItems[k] == x;
      assert covered[k] == o;
    }
  }

  /** Pool and scorer agree on what can be covered: an outcome with a priority and usable content, nothing else. */
  lemma ScoringCoversExactly(required: seq<LearnerOutcome>, exclude: set<string>, library: seq<ContentItem>, input: ScorerInput,
                             candidates: seq<ContentItem>, results: seq<ScoredItem>, o: string)
    requires IsPool(required, input.outcomesById, exclude, library, candidates, input.bound)
    requires AllPairsScored(input, candidates, results)
    ensures Covers(results, o)
      <==> Outstanding(required, o) && o in input.priorities && HasContent(input.outcomesById, exclude, library, o)
  {
    if Covers(results, o) {
      var x :| x in results && x.outcomeId == o;
      assert ScoredFrom(input, candidates, x);
      assert BoundTo(required, input.outcomesById, x.contentItem.skillId, input.bound[x.contentItem.id]);
      assert Wanted(required, input.outcomesById, x.contentItem.skillId, o);
      assert Trains(input.outcomesById, exclude, x.contentItem, o);
    }
    if Outstanding(required, o) && o in input.priorities && HasContent(input.outcomesById, exclude, library, o) {
      var item :| item in library && Trains(input.outcomesById, exclude, item, o);
      assert Wanted(required, input.outcomesById, item.skillId, o);
      assert item in candidates;
      assert BoundTo(required, input.outcomesById, item.skillId, input.bound[item.id]);
      assert ScoredFrom(input, candidates, input.ScoreOf(item, o));
    }
  }

  // ----- the whole pipeline

  function Priorities(required: seq<LearnerOutcome>): map<string, Priority> {
    if required == [] then map[]
    else
      var lo := required[|required| - 1];
      Priorities(required[..|required| - 1])[lo.outcomeId := Priority(lo.priority, lo.attemptCount > 0 && !lo.status.ACHIEVED?)]
  }

  lemma {:induction false} PrioritiesFacts(required: seq<LearnerOutcome>, o: string)
    ensures Outstanding(required, o) ==> o in Priorities(required)
  {
    if required != [] && Outstanding(required, o) {
      var n := |required| - 1;
      var k :| 0 <= k < |required| && required[k].outcomeId == o && !required[k].status.ACHIEVED?;
      if k < n {
        assert required[..n][k] == required[k];
        PrioritiesFacts(required[..n], o);
      }
    }
  }

  // ----- what a recommendation is, said of the inputs alone

  ghost function Unit(x: real): real {
    if x < 0.0 then 0.0 else if x > 1.0 then 1.0 else x
  }

  /** The last entry for an outcome. */
  ghost function EntryFor(required: seq<LearnerOutcome>, o: string): Option<LearnerOutcome> {
    if required == [] then None
    else if required[|required| - 1].outcomeId == o then Some(required[|required| - 1])
    else EntryFor(required[..|required| - 1], o)
  }

  /** The last effectiveness row for a pair, as a share; content without one, or never delivered, counts a half. */
  ghost function EffectOf(rows: seq<Effectiveness>, contentItemId: string, o: string): real {
    if rows == [] then 0.5
    else
      var last := rows[|rows| - 1];
      if last.contentItemId + ":" + last.outcomeId == contentItemId + ":" + o then
        if last.timesDelivered == 0 then 0.5 else Unit(last.effectivenessScore)
      else EffectOf(rows[..|rows| - 1], contentItemId, o)
  }

  ghost function NearnessOf(distances: map<string, map<string, real>>, contentItemId: string, o: string): real {
    if o in distances && contentItemId in distances[o] then Unit(1.0 - distances[o][contentItemId] / 2.0) else 0.5
  }

  /** Full marks for an outcome carried over; otherwise a tenth less for each rank down to the tenth. */
  ghost function UrgencyOf(entry: LearnerOutcome): real {
    if entry.attemptCount > 0 && entry.status != ACHIEVED then 1.0 else Unit(1.0 - entry.priority as real / 10.0)
  }

  /** The score that content of the outcome's own skill is due. */
  ghost function Due(required: seq<LearnerOutcome>, effectiveness: seq<Effectiveness>, weakOutcomeIds: set<string>,
                     distances: map<string, map<string, real>>, item: ContentItem, o: string): real
  {
    var entry := EntryFor(required, o);
    0.3 + (if entry.Some? then 0.2 * UrgencyOf(entry.value) else 0.0) + 0.075 + (if o in weakOutcomeIds then 0.15 else 0.0)
      + 0.1 * EffectOf(effectiveness, item.id, o) + 0.1 * NearnessOf(distances, item.id, o)
  }

  lemma {:induction false} PrioritiesAre(required: seq<LearnerOutcome>, o: string)
    ensures match EntryFor(required, o)
      case None => o !in Priorities(required)
      case Some(lo) =>
        o in Priorities(required) && Priorities(required)[o] == Priority(lo.priority, lo.attemptCount > 0 && lo.status != ACHIEVED)
  {
    if required != [] {
      PrioritiesAre(required[..|required| - 1], o);
    }
  }

  lemma {:induction false} EffectIsLookedUp(rows: seq<Effectiveness>, c: string, o: string)
    ensures EffectivenessOf(Lookup(EffectivenessByKey(rows), c, o)) == EffectOf(rows, c, o)
  {
    if rows != [] {
      var n := |rows| - 1;
      EffectIsLookedUp(rows[..n], c, o);
      if EffectivenessKey(rows[n].contentItemId, rows[n].outcomeId) != EffectivenessKey(c, o) {
        assert Lookup(EffectivenessByKey(rows), c, o) == Lookup(EffectivenessByKey(rows[..n]), c, o);
      }
    }
  }

  /** Every scored pair of the outcome's own skill has the score it is due. */
  lemma ScoreIsDue(required: seq<LearnerOutcome>, effectiveness: seq<Effectiveness>, input: ScorerInput, item: ContentItem, o: string)
    requires input.priorities == Priorities(required) && input.byKey == EffectivenessByKey(effectiveness)
    requires input.Scorable(o) && SkillOf(input.outcomesById, o) == Some(item.skillId)
    ensures input.ScoreOf(item, o).score == Due(required, effectiveness, input.weakOutcomeIds, input.distances, item, o)
  {
    PrioritiesAre(required, o);
    EffectIsLookedUp(effectiveness, item.id, o);
    WeightedSum(input.ContextOf(item, o));
    hide Weighted, EffectOf, EntryFor, Priorities, EffectivenessByKey, Lookup, EffectivenessOf;
  }

  /** The content that trains an outcome. */
  ghost function TrainersOf(outcomesById: map<string, Outcome>, exclude: set<string>, library: seq<ContentItem>, o: string): seq<ContentItem> {
    Filter(library, (item: ContentItem) => Trains(outcomesById, exclude, item, o))
  }

  ghost function ItemsFor(items: seq<ScoredItem>, o: string): seq<ScoredItem> {
    Filter(items, (x: ScoredItem) => x.outcomeId == o)
  }

  ghost predicate IsPicked(items: seq<ScoredItem>, item: ContentItem, o: string) {
    exists x :: x in items && x.contentItem == item && x.outcomeId == o
  }

  ghost function AtMostThree(n: nat): nat {
    if n <= 3 then n else 3
  }

  datatype Inputs = Inputs(
    required: seq<LearnerOutcome>,
    outcomesById: map<string, Outcome>,
    exclude: set<string>,
    library: seq<ContentItem>,
    effectiveness: seq<Effectiveness>,
    weakOutcomeIds: set<string>,
    distances: map<string, map<string, real>>)
  {
    /** Content of this run for an outcome of this run. */
    ghost predicate Fits(item: ContentItem, o: string) {
      Outstanding(required, o) && item in library && Trains(outcomesById, exclude, item, o)
    }

    ghost function DueTo(item: ContentItem, o: string): real {
      Due(required, effectiveness, weakOutcomeIds, distances, item, o)
    }
  }

  /** One scored item for each fitting pair, with the score it is due. */
  ghost predicate ScoresAll(inputs: Inputs, scored: seq<ScoredItem>) {
    NoDup(scored) && forall x :: x in scored <==> inputs.Fits(x.contentItem, x.outcomeId) && x.score == inputs.DueTo(x.contentItem, x.outcomeId)
  }

  /**
   * For each outcome the three best of the content that fits it, or all of it, each once and with the score it is
   * due; whatever is left out scores no more than any that is picked for the outcome.
   */
  ghost predicate PicksBest(inputs: Inputs, picked: seq<ScoredItem>) {
    && NoDup(picked)
    && (forall x :: x in picked ==> inputs.Fits(x.contentItem, x.outcomeId) && x.score == inputs.DueTo(x.contentItem, x.outcomeId))
    && (forall o :: Outstanding(inputs.required, o) ==>
          |ItemsFor(picked, o)| == AtMostThree(|TrainersOf(inputs.outcomesById, inputs.exclude, inputs.library, o)|))
    && (forall x, item :: x in picked && inputs.Fits(item, x.outcomeId) && !IsPicked(picked, item, x.outcomeId) ==>
          inputs.DueTo(item, x.outcomeId) <= x.score)
  }

  lemma PoolIsScored(inputs: Inputs, input: ScorerInput, candidates: seq<ContentItem>, scored: seq<ScoredItem>)
    requires IsPool(inputs.required, inputs.outcomesById, inputs.exclude, inputs.library, candidates, input.bound)
    requires AllPairsScored(input, candidates, scored)
    requires input.outcomesById == inputs.outcomesById && input.priorities == Priorities(inputs.required)
    requires input.byKey == EffectivenessByKey(inputs.effectiveness)
    requires input.weakOutcomeIds == inputs.weakOutcomeIds && input.distances == inputs.distances
    ensures ScoresAll(inputs, scored)
  {
    forall x ensures x in scored
      <==> inputs.Fits(x.contentItem, x.outcomeId) && x.score == inputs.DueTo(x.contentItem, x.outcomeId)
    {
      PairIsScored(inputs, input, candidates, scored, x);
    }
  }

  lemma PairIsScored(inputs: Inputs, input: ScorerInput, candidates: seq<ContentItem>, scored: seq<ScoredItem>, x: ScoredItem)
    requires IsPool(inputs.required, inputs.outcomesById, inputs.exclude, inputs.library, candidates, input.bound)
    requires AllPairsScored(input, candidates, scored)
    requires input.outcomesById == inputs.outcomesById && input.priorities == Priorities(inputs.required)
    requires input.byKey == EffectivenessByKey(inputs.effectiveness)
    requires input.weakOutcomeIds == inputs.weakOutcomeIds && input.distances == inputs.distances
    ensures x in scored <==> inputs.Fits(x.contentItem, x.outcomeId) && x.score == inputs.DueTo(x.contentItem, x.outcomeId)
  {
    var item, o := x.contentItem, x.outcomeId;
    if x in scored {
      ScoredItemsHaveTheSkill(inputs.required, inputs.exclude, inputs.library, input, candidates, scored, x);
      assert ScoredFrom(input, candidates, x);
      assert BoundTo(inputs.required, inputs.outcomesById, item.skillId, input.bound[item.id]);
      assert Wanted(inputs.required, inputs.outcomesById, item.skillId, o);
      ScoreIsDue(inputs.required, inputs.effectiveness, input, item, o);
    }
    if inputs.Fits(item, o) && x.score == inputs.DueTo(item, o) {
      PrioritiesFacts(inputs.required, o);
      assert Wanted(inputs.required, inputs.outcomesById, item.skillId, o);
      assert BoundTo(inputs.required, inputs.outcomesById, item.skillId, input.bound[item.id]);
      ScoreIsDue(inputs.required, inputs.effectiveness, input, item, o);
      assert ScoredFrom(input, candidates, x);
    }
  }

  lemma ItemsForMembers(items: seq<ScoredItem>, o: string)
    ensures forall x :: x in ItemsFor(items, o) <==> x in items && x.outcomeId == o
  {
    FilterMembers(items, (x: ScoredItem) => x.outcomeId == o);
  }

  /** As many scored items for an outcome as there is content for it. */
  lemma AsManyAsTrainers(inputs: Inputs, scored: seq<ScoredItem>, o: string)
    requires ScoresAll(inputs, scored) && UniqueIds(inputs.library) && Outstanding(inputs.required, o)
    ensures |ItemsFor(scored, o)| == |TrainersOf(inputs.outcomesById, inputs.exclude, inputs.library, o)|
  {
    var mine, trainers := ItemsFor(scored, o), TrainersOf(inputs.outcomesById, inputs.exclude, inputs.library, o);
    var items := Map(mine, (x: ScoredItem) => x.contentItem);
    ItemsForMembers(scored, o);
    FilterNoDup(scored, (x: ScoredItem) => x.outcomeId == o);
    FilterMembers(inputs.library, (item: ContentItem) => Trains(inputs.outcomesById, inputs.exclude, item, o));
    UniqueIdsFilter(inputs.library, (item: ContentItem) => Trains(inputs.outcomesById, inputs.exclude, item, o));
    forall i, j | 0 <= i < j < |mine| ensures items[i] != items[j] {
      assert mine[i] in scored && mine[j] in scored;
    }
    forall item ensures item in items <==> item in trainers {
      if item in items {
        var k :| 0 <= k < |items| && items[k] == item;
        assert mine[k] in scored;
      }
      if item in trainers {
        var x := ScoredItem(item, o, inputs.DueTo(item, o));
        assert x in mine;
        var k :| 0 <= k < |mine| && mine[k] == x;
        assert items[k] == item;
      }
    }
    hide ItemsFor, TrainersOf, ScoresAll;
    assert NoDup(trainers);
    SizeOfSetOf(items);
    SizeOfSetOf(trainers);
    assert SetOf(items) == SetOf(trainers);
  }

  lemma TopOfIsPart(scored: seq<ScoredItem>, o: string)
    requires NoDup(scored)
    ensures NoDup(TopOf(scored, o)) && |TopOf(scored, o)| == AtMostThree(|ItemsFor(scored, o)|)
  {
    var list := ByScore(ScoredForOutcome(scored, o));
    TopOfFacts(scored, o);
    FilterNoDup(scored, (x: ScoredItem) => x.outcomeId == o);
    hide Filter, ByScore;
    SameMultisetNoDup(ScoredForOutcome(scored, o), list);
    assert |list| == |multiset(list)| == |multiset(ScoredForOutcome(scored, o))|;
  }

  lemma SameMultisetNoDup<T>(s: seq<T>, t: seq<T>)
    requires NoDup(s) && multiset(s) == multiset(t)
    ensures NoDup(t)
  {
    forall x | x in multiset(s) ensures multiset(s)[x] == 1 {
      OnceEach(s, x);
    }
    forall i, j | 0 <= i < j < |t| ensures t[i] != t[j] {
      if t[i] == t[j] {
        CountedTwice(t, i, j);
      }
    }
  }

  lemma CountedTwice<T>(t: seq<T>, i: nat, j: nat)
    requires i < j < |t| && t[i] == t[j]
    ensures multiset(t)[t[i]] >= 2
  {
    assert t == t[..i] + [t[i]] + t[i + 1..j] + [t[j]] + t[j + 1..];
  }

  lemma {:induction false} OnceEach<T>(s: seq<T>, x: T)
    requires NoDup(s) && x in s
    ensures multiset(s)[x] == 1
  {
    var front, last := s[..|s| - 1], s[|s| - 1];
    assert s == front + [last];
    if x in front {
      OnceEach(front, x);
    }
  }

  lemma {:induction false} TopOfEachFor(scored: seq<ScoredItem>, outcomes: seq<string>, o: string)
    requires NoDup(outcomes)
    ensures ItemsFor(TopOfEach(scored, outcomes), o) == if o in outcomes then TopOf(scored, o) else []
  {
    if outcomes != [] {
      var first, rest := outcomes[0], outcomes[1..];
      TopOfEachFor(scored, rest, o);
      TopOfMembers(scored, first);
      FilterConcat(TopOf(scored, first), TopOfEach(scored, rest), (x: ScoredItem) => x.outcomeId == o);
      if first == o {
        FilterAll(TopOf(scored, first), (x: ScoredItem) => x.outcomeId == o);
      } else {
        FilterNone(TopOf(scored, first), (x: ScoredItem) => x.outcomeId == o);
      }
      assert TopOf(scored, first) + [] == TopOf(scored, first);
    }
  }

  lemma {:induction false} TopOfEachNoDup(scored: seq<ScoredItem>, outcomes: seq<string>)
    requires NoDup(outcomes) && NoDup(scored)
    ensures NoDup(TopOfEach(scored, outcomes))
  {
    if outcomes != [] {
      TopOfEachNoDup(scored, outcomes[1..]);
      TopOfIsPart(scored, outcomes[0]);
      TopOfMembers(scored, outcomes[0]);
      TopOfEachFacts(scored, outcomes[1..]);
      hide TopOf;
      forall x | x in TopOf(scored, outcomes[0]) ensures x !in TopOfEach(scored, outcomes[1..]) {
        assert x.outcomeId == outcomes[0] && outcomes[0] !in outcomes[1..];
      }
      NoDupConcat(TopOf(scored, outcomes[0]), TopOfEach(scored, outcomes[1..]));
    }
  }

  lemma KeptFor(scored: seq<ScoredItem>, o: string)
    ensures ItemsFor(KeepTopPerOutcome(scored), o) == TopOf(scored, o)
  {
    var ids := Map(scored, (x: ScoredItem) => x.outcomeId);
    TopOfEachFor(scored, Distinct(ids), o);
    if o !in ids {
      ScoredForOutcomeMembers(scored, o);
      forall k | 0 <= k < |scored| ensures scored[k].outcomeId != o {
        assert ids[k] == scored[k].outcomeId;
      }
      FilterNone(scored, (x: ScoredItem) => x.outcomeId == o);
      assert ByScore([]) == [];
    }
  }

  /** Trimming what has all scores picks the best three of each outcome. */
  lemma TrimmingPicksBest(inputs: Inputs, scored: seq<ScoredItem>)
    requires ScoresAll(inputs, scored) && UniqueIds(inputs.library)
    ensures PicksBest(inputs, KeepTopPerOutcome(scored))
  {
    var kept := KeepTopPerOutcome(scored);
    TopOfEachNoDup(scored, Distinct(Map(scored, (x: ScoredItem) => x.outcomeId)));
    TopOfEachFacts(scored, Distinct(Map(scored, (x: ScoredItem) => x.outcomeId)));
    forall x | x in kept ensures x in scored && x in TopOf(scored, x.outcomeId) {
      TopOfMembers(scored, x.outcomeId);
    }
    forall o | Outstanding(inputs.required, o)
      ensures |ItemsFor(kept, o)| == AtMostThree(|TrainersOf(inputs.outcomesById, inputs.exclude, inputs.library, o)|)
    {
      KeptFor(scored, o);
      TopOfIsPart(scored, o);
      AsManyAsTrainers(inputs, scored, o);
    }
    forall x, item | x in kept && inputs.Fits(item, x.outcomeId) && !IsPicked(kept, item, x.outcomeId)
      ensures inputs.DueTo(item, x.outcomeId) <= x.score
    {
      LeftOutIsBeaten(inputs, scored, x, item);
    }
    hide ItemsFor, TrainersOf, TopOf;
  }

  lemma LeftOutIsBeaten(inputs: Inputs, scored: seq<ScoredItem>, x: ScoredItem, item: ContentItem)
    requires ScoresAll(inputs, scored) && x in TopOf(scored, x.outcomeId) && inputs.Fits(item, x.outcomeId)
    requires !IsPicked(KeepTopPerOutcome(scored), item, x.outcomeId)
    ensures inputs.DueTo(item, x.outcomeId) <= x.score
  {
    var o := x.outcomeId;
    var dropped := ScoredItem(item, o, inputs.DueTo(item, o));
    assert dropped in scored;
    KeptFor(scored, o);
    ItemsForMembers(KeepTopPerOutcome(scored), o);
    forall y | y in TopOf(scored, o) ensures IsPicked(KeepTopPerOutcome(scored), y.contentItem, o) {
      assert y in KeepTopPerOutcome(scored) && y.outcomeId == o;
    }
    OnlyBeatenItemsAreDropped(scored, o, dropped, x);
  }

  /** Reordering does not change what is picked. */
  lemma SamePicks(inputs: Inputs, kept: seq<ScoredItem>, ranked: seq<ScoredItem>)
    requires PicksBest(inputs, kept) && multiset(kept) == multiset(ranked)
    ensures PicksBest(inputs, ranked)
  {
    SameMultisetNoDup(kept, ranked);
    SameMembers(kept, ranked);
    forall o ensures |ItemsFor(ranked, o)| == |ItemsFor(kept, o)| {
      FilterMultiset(kept, (x: ScoredItem) => x.outcomeId == o);
      FilterMultiset(ranked, (x: ScoredItem) => x.outcomeId == o);
      hide Filter;
      assert multiset(ItemsFor(ranked, o)) == multiset(ItemsFor(kept, o));
      assert |multiset(ItemsFor(ranked, o))| == |multiset(ItemsFor(kept, o))|;
    }
    forall item, o | IsPicked(kept, item, o) ensures IsPicked(ranked, item, o) {
      var x :| x in kept && x.contentItem == item && x.outcomeId == o;
      assert x in ranked;
    }
    hide ItemsFor, IsPicked;
  }

  /** Pool, score, trim, rank and detect, as `RecommendationService.generate` chains them. */
  method Generate(required: seq<LearnerOutcome>, outcomesById: map<string, Outcome>, exclude: set<string>, library: seq<ContentItem>,
                  prerequisites: seq<ContentPrerequisite>, effectiveness: seq<Effectiveness>,
                  weakOutcomeIds: set<string>, distances: map<string, map<string, real>>)
    returns (ranked: seq<ScoredItem>, gaps: seq<CoverageGap>)
    requires UniqueIds(library) && KeyedById(outcomesById)
    ensures forall o ::
      ReportsGap(gaps, o) <==> Outstanding(required, o) && o in outcomesById && !HasContent(outcomesById, exclude, library, o)
    ensures forall o :: Covers(ranked, o) <==> Outstanding(required, o) && HasContent(outcomesById, exclude, library, o)
    ensures PicksBest(Inputs(required, outcomesById, exclude, library, effectiveness, weakOutcomeIds, distances), ranked)
    ensures forall gap :: gap in gaps ==> IsGapOf(outcomesById, gap)
    ensures var g := PrerequisiteGraph(ranked, prerequisites);
      if Cyclic(g) then forall i, j :: 0 <= i < j < |ranked| ==> ranked[i].score >= ranked[j].score
      else PrerequisitesFirst(g, ranked)
  {
    var candidates, bound := BuildPool(required, outcomesById, exclude, library);
    var byKey := ResolveEffectiveness(effectiveness);
    var input := ScorerInput(bound, outcomesById, Priorities(required), weakOutcomeIds, byKey, distances);
    var scored := Score(input, candidates);
    var kept := KeepTopPerOutcome(scored);
    ranked := Order(kept, prerequisites);
    gaps := Detect(required, outcomesById, ranked);
    ghost var inputs := Inputs(required, outcomesById, exclude, library, effectiveness, weakOutcomeIds, distances);
    PoolIsScored(inputs, input, candidates, scored);
    TrimmingPicksBest(inputs, scored);
    SamePicks(inputs, kept, ranked);
    GapsAreTheirs(outcomesById, Without(OutstandingIds(required), Map(ranked, (x: ScoredItem) => x.outcomeId)));
    hide PicksBest, ScoresAll, IsGapOf;
    assert forall x :: x in ranked <==> x in multiset(kept);
    forall o
      ensures Covers(ranked, o) <==> Outstanding(required, o) && HasContent(outcomesById, exclude, library, o)
      ensures ReportsGap(gaps, o) <==> Outstanding(required, o) && o in outcomesById && !HasContent(outcomesById, exclude, library, o)
    {
      assert Covers(ranked, o) <==> Covers(kept, o);
      TrimmingKeepsCoverage(scored, o);
      ScoringCoversExactly(required, exclude, library, input, candidates, scored, o);
      PrioritiesFacts(required, o);
      DetectReports(required, outcomesById, ranked, o);
    }
    SamePrerequisiteGraph(kept, ranked, prerequisites);
  }

  /** The graph depends only on which contents are ranked, not on their order. */
  lemma SamePrerequisiteGraph(items: seq<ScoredItem>, ranked: seq<ScoredItem>, rows: seq<ContentPrerequisite>)
    requires multiset(items) == multiset(ranked)
    ensures PrerequisiteGraph(items, rows) == PrerequisiteGraph(ranked, rows)
  {
    var a, b := ContentIds(items), ContentIds(ranked);
    forall c ensures c in a <==> c in b {
      if c in a {
        var k :| 0 <= k < |a| && a[k] == c;
        assert items[k] in multiset(ranked);
        var j :| 0 <= j < |ranked| && ranked[j] == items[k];
        assert b[j] == c;
      }
      if c in b {
        var k :| 0 <= k < |b| && b[k] == c;
        assert ranked[k] in multiset(items);
        var j :| 0 <= j < |items| && items[j] == ranked[k];
        assert a[j] == c;
      }
    }
    assert SetOf(a) == SetOf(b);
  }
}
