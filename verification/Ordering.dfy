/** Prerequisite graphs over content ids: cycles, and what rules them out. */
module Graphs {
  import opened Seqs

  /** For every content id, the ids it needs first. */
  type Graph = map<string, set<string>>

  ghost predicate Closed(g: Graph) {
    forall c :: c in g ==> g[c] <= g.Keys
  }

  /** A closed walk along prerequisite edges; `[a, a]` is a self-loop. */
  ghost predicate IsCycle(g: Graph, p: seq<string>) {
    && |p| >= 2
    && p[0] == p[|p| - 1]
    && IsWalk(g, p)
  }

  ghost predicate IsWalk(g: Graph, p: seq<string>) {
    forall i :: 0 <= i < |p| - 1 ==> p[i] in g && p[i + 1] in g[p[i]]
  }

  ghost predicate Cyclic(g: Graph) {
    exists p :: IsCycle(g, p)
  }

  /** Every prerequisite of an entry stands before it. */
  ghost predicate RespectsEdges(g: Graph, order: seq<string>) {
    forall j :: 0 <= j < |order| ==> Placed(g, order, j)
  }

  ghost predicate Placed(g: Graph, order: seq<string>, j: nat)
    requires j < |order|
  {
    order[j] in g && g[order[j]] <= SetOf(order[..j])
  }

  /** A cycle leaves no room for an order: walking it would go to ever earlier positions. */
  lemma OrderRulesOutCycles(g: Graph, order: seq<string>)
    requires RespectsEdges(g, order)
    requires SetOf(order) == g.Keys
    ensures !Cyclic(g)
  {
    if p :| IsCycle(g, p) {
      assert p[0] in SetOf(order);
      var last := WalkGoesBack(g, order, p, |p| - 1);
      assert false;
    }
  }

  ghost predicate FirstAt(s: seq<string>, k: nat, x: string) {
    k < |s| && s[k] == x && x !in s[..k]
  }

  lemma {:induction false} FirstOccurrence(s: seq<string>, x: string) returns (k: nat)
    requires x in s
    ensures FirstAt(s, k, x)
  {
    k := 0;
    while s[k] != x
      invariant k < |s| && x !in s[..k] && x in s[k..]
      decreases |s| - k
    {
      assert s[..k + 1] == s[..k] + [s[k]];
      assert s[k..] == [s[k]] + s[k + 1..];
      k := k + 1;
    }
  }

  /** After `n` steps of a walk the first position of the reached id is at least `n` lower. */
  lemma {:induction false} WalkGoesBack(g: Graph, order: seq<string>, p: seq<string>, n: nat) returns (k: nat)
    requires RespectsEdges(g, order) && IsWalk(g, p)
    requires n < |p| && p[0] in order
    ensures FirstAt(order, k, p[n])
    ensures n > 0 ==> exists k0: nat :: FirstAt(order, k0, p[0]) && k < k0
  {
    if n == 0 {
      k := FirstOccurrence(order, p[0]);
    } else {
      var prev := WalkGoesBack(g, order, p, n - 1);
      assert Placed(g, order, prev);
      assert p[n - 1 + 1] in g[p[n - 1]];
      assert p[n] in SetOf(order[..prev]);
      var i := FirstOccurrence(order[..prev], p[n]);
      k := i;
      assert order[..prev][..k] == order[..k];
      assert FirstAt(order, k, p[n]);
      if n == 1 {
        assert FirstAt(order, prev, p[0]) && k < prev;
      } else {
        var k0: nat :| FirstAt(order, k0, p[0]) && prev < k0;
        assert k < k0;
      }
    }
  }

  /** Ids that each wait for another id of the same set contain a cycle. */
  lemma StuckMeansCyclic(g: Graph, stuck: set<string>)
    requires stuck != {} && stuck <= g.Keys
    requires forall c :: c in stuck ==> g[c] * stuck != {}
    ensures Cyclic(g)
  {
    var p := WalkInside(g, stuck, |stuck|);
    if NoDup(p) {
      SizeOfSetOf(p);
      SubsetSize(SetOf(p), stuck);
      assert false;
    }
    var i, j :| 0 <= i < j < |p| && p[i] == p[j];
    var q := p[i..j + 1];
    assert IsCycle(g, q);
  }

  lemma {:induction false} WalkInside(g: Graph, stuck: set<string>, n: nat) returns (p: seq<string>)
    requires stuck != {} && stuck <= g.Keys
    requires forall c :: c in stuck ==> g[c] * stuck != {}
    ensures |p| == n + 1 && IsWalk(g, p) && SetOf(p) <= stuck
  {
    if n == 0 {
      var c :| c in stuck;
      p := [c];
    } else {
      var q := WalkInside(g, stuck, n - 1);
      var last := q[n - 1];
      assert last in SetOf(q);
      var next :| next in g[last] * stuck;
      p := q + [next];
    }
  }
}

/** `OrderingService` and `DurationFitService`: rank a scored set, then cut it to a session. */
module Ordering {
  import opened Wrappers
  import opened Seqs
  import opened Graphs

  datatype ContentItem = ContentItem(id: string, skillId: string)

  datatype ScoredItem = ScoredItem(contentItem: ContentItem, outcomeId: string, score: real)

  datatype ContentPrerequisite = ContentPrerequisite(contentItemId: string, prerequisiteContentId: Option<string>)

  const ASSUMED_CONTENT_MINUTES := 15

  function ContentIds(items: seq<ScoredItem>): seq<string> {
    Map(items, (item: ScoredItem) => item.contentItem.id)
  }

  /** The id a prerequisite row points at; null and the empty string are both "none". */
  predicate PointsAt(row: ContentPrerequisite, id: string) {
    row.prerequisiteContentId == Some(id) && id != ""
  }

  /** The prerequisite graph restricted to the ranked set. */
  ghost function PrerequisiteGraph(items: seq<ScoredItem>, rows: seq<ContentPrerequisite>): (g: Graph)
    ensures Closed(g)
  {
    var ids := SetOf(ContentIds(items));
    map c | c in ids :: set p | p in ids && Requires(rows, c, p)
  }

  ghost predicate Requires(rows: seq<ContentPrerequisite>, c: string, p: string) {
    exists k :: 0 <= k < |rows| && rows[k].contentItemId == c && PointsAt(rows[k], p)
  }

  /** An edge for each row between two ranked contents that names its prerequisite, and no other. */
  lemma GraphIs(items: seq<ScoredItem>, rows: seq<ContentPrerequisite>, c: string, p: string)
    ensures var g := PrerequisiteGraph(items, rows);
      && (c in g <==> exists i :: 0 <= i < |items| && items[i].contentItem.id == c)
      && (c in g ==> (p in g[c] <==> p in g && p != "" && ContentPrerequisite(c, Some(p)) in rows))
  {
    var ids := ContentIds(items);
    forall id ensures id in SetOf(ids) <==> exists i :: 0 <= i < |items| && items[i].contentItem.id == id {
      if i :| 0 <= i < |items| && items[i].contentItem.id == id {
        assert ids[i] == id;
      }
    }
    if Requires(rows, c, p) {
      var k :| 0 <= k < |rows| && rows[k].contentItemId == c && PointsAt(rows[k], p);
      assert rows[k] == ContentPrerequisite(c, Some(p));
    }
    if p != "" && ContentPrerequisite(c, Some(p)) in rows {
      var k :| 0 <= k < |rows| && rows[k] == ContentPrerequisite(c, Some(p));
      assert PointsAt(rows[k], p);
    }
  }

  /** Every in-set prerequisite of an item stands before it. */
  ghost predicate PrerequisitesFirst(g: Graph, items: seq<ScoredItem>) {
    forall i, j | 0 <= i < |items| && 0 <= j < |items| && items[j].contentItem.id in g ::
      items[i].contentItem.id in g[items[j].contentItem.id] ==> i < j
  }

  /** The entries of one content item, in order: it is listed once per outcome it scored for. */
  ghost function EntriesOf(items: seq<ScoredItem>, c: string): seq<ScoredItem> {
    Filter(items, (item: ScoredItem) => item.contentItem.id == c)
  }

  ghost function EntriesScoring(items: seq<ScoredItem>, score: real): seq<ScoredItem> {
    Filter(items, (item: ScoredItem) => item.score == score)
  }

  // ----- Kahn's algorithm

  /** `list` names every id that needs `p`, once each. */
  ghost predicate AreDependents(edges: Graph, p: string, list: seq<string>) {
    NoDup(list) && forall c :: c in list <==> c in edges && p in edges[c]
  }

  /** Files `contentId` under each of its prerequisites. */
  method AddDependent(dependents: map<string, seq<string>>, prereqIds: set<string>, contentId: string)
    returns (r: map<string, seq<string>>)
    requires prereqIds <= dependents.Keys
    ensures r.Keys == dependents.Keys
    ensures forall p :: p in r ==> r[p] == dependents[p] + if p in prereqIds then [contentId] else []
  {
    r := dependents;
    var todo := prereqIds;
    while todo != {}
      invariant todo <= prereqIds && r.Keys == dependents.Keys
      invariant forall p :: p in r ==> r[p] == dependents[p] + if p in prereqIds - todo then [contentId] else []
      decreases todo
    {
      var prereqId :| prereqId in todo;
      assert prereqId in r;
      r := r[prereqId := r[prereqId] + [contentId]];
      todo := todo - {prereqId};
    }
  }

  method BuildDependents(itemIds: seq<string>, edges: Graph) returns (dependents: map<string, seq<string>>)
    requires NoDup(itemIds) && edges.Keys == SetOf(itemIds) && Closed(edges)
    ensures dependents.Keys == edges.Keys
    ensures forall p :: p in edges ==> AreDependents(edges, p, dependents[p])
  {
    dependents := map id | id in itemIds :: [];
    for i := 0 to |itemIds|
      invariant dependents.Keys == edges.Keys
      invariant forall p :: p in edges ==> NoDup(dependents[p])
      invariant forall p, c :: p in edges ==> (c in dependents[p] <==> c in itemIds[..i] && p in edges[c])
    {
      var contentId := itemIds[i];
      dependents := AddDependent(dependents, edges[contentId], contentId);
      assert itemIds[..i + 1] == itemIds[..i] + [contentId];
    }
    assert itemIds[..|itemIds|] == itemIds;
  }

  /** Each unfinished count is the number of prerequisites not yet in `done`. */
  ghost predicate Counts(edges: Graph, done: set<string>, inDegree: map<string, int>) {
    inDegree.Keys == edges.Keys && forall c :: c in edges ==> inDegree[c] == |edges[c] - done|
  }

  ghost predicate Ready(edges: Graph, done: set<string>, c: string) {
    c in edges && edges[c] <= done
  }

  /** The ids of `s` whose prerequisites are all in `done`, in order. */
  ghost function ReadyOnes(edges: Graph, done: set<string>, s: seq<string>): seq<string> {
    Filter(s, c => Ready(edges, done, c))
  }

  lemma ReadyOnesFacts(edges: Graph, done: set<string>, s: seq<string>)
    requires NoDup(s)
    ensures NoDup(ReadyOnes(edges, done, s))
    ensures forall c :: c in ReadyOnes(edges, done, s) <==> c in s && Ready(edges, done, c)
  {
    FilterNoDup(s, c => Ready(edges, done, c));
    FilterMembers(s, c => Ready(edges, done, c));
  }

  lemma ReadyOnesPush(edges: Graph, done: set<string>, s: seq<string>, c: string, queue: seq<string>)
    ensures queue + ReadyOnes(edges, done, s + [c])
         == queue + ReadyOnes(edges, done, s) + if Ready(edges, done, c) then [c] else []
  {
    FilterConcat(s, [c], d => Ready(edges, done, d));
  }

  lemma CountDrops(prereqs: set<string>, done: set<string>, id: string)
    requires id !in done
    ensures id in prereqs ==> |prereqs - (done + {id})| == |prereqs - done| - 1
    ensures id !in prereqs ==> prereqs - (done + {id}) == prereqs - done
    ensures |prereqs - (done + {id})| == 0 <==> prereqs <= done + {id}
  {
    if id in prereqs {
      assert prereqs - done == (prereqs - (done + {id})) + {id};
    }
  }

  /** The counts after visiting the dependents in `seen`. */
  ghost function Lowered(inDegree: map<string, int>, seen: seq<string>): map<string, int> {
    map c | c in inDegree :: if c in seen then inDegree[c] - 1 else inDegree[c]
  }

  lemma LoweredCounts(edges: Graph, done: set<string>, id: string, dependents: seq<string>, inDegree: map<string, int>)
    requires id !in done && Counts(edges, done, inDegree) && AreDependents(edges, id, dependents)
    ensures Counts(edges, done + {id}, Lowered(inDegree, dependents))
  {
    forall c | c in edges ensures Lowered(inDegree, dependents)[c] == |edges[c] - (done + {id})| {
      CountDrops(edges[c], done, id);
    }
  }

  lemma LowerOne(edges: Graph, done: set<string>, id: string, dependents: seq<string>, inDegree: map<string, int>, k: nat)
    requires id !in done && Counts(edges, done, inDegree) && AreDependents(edges, id, dependents)
    requires k < |dependents|
    ensures dependents[k] in edges
    ensures Lowered(inDegree, dependents[..k])[dependents[k]] == inDegree[dependents[k]]
    ensures Lowered(inDegree, dependents[..k + 1])
         == Lowered(inDegree, dependents[..k])[dependents[k] := inDegree[dependents[k]] - 1]
    ensures inDegree[dependents[k]] - 1 == 0 <==> Ready(edges, done + {id}, dependents[k])
  {
    var d := dependents[k];
    assert d in dependents && d !in dependents[..k];
    TakeMore(dependents, k);
    CountDrops(edges[d], done, id);
  }

  /** One pass over the dependents of a finished id: lower their counts, queue those that reach zero. */
  method Release(ghost edges: Graph, ghost done: set<string>, ghost id: string, dependents: seq<string>,
                 inDegree: map<string, int>, queue: seq<string>)
    returns (inDegree': map<string, int>, queue': seq<string>)
    requires id !in done && Counts(edges, done, inDegree) && AreDependents(edges, id, dependents)
    ensures Counts(edges, done + {id}, inDegree')
    ensures queue' == queue + ReadyOnes(edges, done + {id}, dependents)
  {
    hide Counts, AreDependents, Ready;
    inDegree', queue' := inDegree, queue;
    assert Lowered(inDegree, dependents[..0]) == inDegree;
    for k := 0 to |dependents|
      invariant inDegree' == Lowered(inDegree, dependents[..k])
      invariant queue' == queue + ReadyOnes(edges, done + {id}, dependents[..k])
    {
      var dependent := dependents[k];
      LowerOne(edges, done, id, dependents, inDegree, k);
      TakeMore(dependents, k);
      ReadyOnesPush(edges, done + {id}, dependents[..k], dependent, queue);
      var remaining := inDegree'[dependent] - 1;
      inDegree' := inDegree'[dependent := remaining];
      if remaining == 0 {
        queue' := queue' + [dependent];
      }
    }
    assert dependents[..|dependents|] == dependents;
    LoweredCounts(edges, done, id, dependents, inDegree);
  }

  /** The queue holds exactly the ids that are ready and not yet in the result. */
  ghost predicate QueueIsReady(edges: Graph, result: seq<string>, queue: seq<string>) {
    && NoDup(queue)
    && (forall c :: c in queue ==> c !in result)
    && (forall c :: Accounted(edges, result, queue, c))
  }

  ghost predicate Accounted(edges: Graph, result: seq<string>, queue: seq<string>, c: string) {
    Ready(edges, SetOf(result), c) <==> c in result || c in queue
  }

  lemma ReleaseKeepsQueue(edges: Graph, result: seq<string>, id: string, rest: seq<string>,
                          dependents: seq<string>, queue: seq<string>)
    requires QueueIsReady(edges, result, [id] + rest)
    requires AreDependents(edges, id, dependents)
    requires queue == rest + ReadyOnes(edges, SetOf(result) + {id}, dependents)
    ensures QueueIsReady(edges, result + [id], queue)
  {
    var done := SetOf(result);
    var released := ReadyOnes(edges, done + {id}, dependents);
    ReadyOnesFacts(edges, done + {id}, dependents);
    assert SetOf(result + [id]) == done + {id};
    var was := [id] + rest;
    assert was[0] == id && forall k :: 0 <= k < |rest| ==> was[k + 1] == rest[k];
    assert id !in rest && NoDup(rest);
    assert SetOf(result + [id]) == done + {id};
    forall c | c in released ensures c !in was && c !in result {
      assert Accounted(edges, result, was, c);
    }
    NoDupConcat(rest, released);
    forall c ensures Accounted(edges, result + [id], queue, c) {
      assert Accounted(edges, result, was, c);
    }
  }

  /** When the queue runs dry early, the ids left over wait for one another. */
  lemma LeftOverMeansCyclic(edges: Graph, result: seq<string>)
    requires Closed(edges) && QueueIsReady(edges, result, [])
    requires SetOf(result) <= edges.Keys && SetOf(result) != edges.Keys
    ensures Cyclic(edges)
  {
    var stuck := edges.Keys - SetOf(result);
    forall c | c in stuck ensures edges[c] * stuck != {} {
      assert Accounted(edges, result, [], c);
      var p :| p in edges[c] && p !in SetOf(result);
      assert p in edges[c] * stuck;
    }
    StuckMeansCyclic(edges, stuck);
  }

  function ZeroDegree(itemIds: seq<string>, inDegree: map<string, int>): seq<string> {
    Filter(itemIds, id => id in inDegree && inDegree[id] == 0)
  }

  lemma ZeroDegreeFacts(itemIds: seq<string>, inDegree: map<string, int>)
    requires NoDup(itemIds)
    ensures NoDup(ZeroDegree(itemIds, inDegree))
    ensures forall c :: c in ZeroDegree(itemIds, inDegree) <==> c in itemIds && c in inDegree && inDegree[c] == 0
  {
    FilterNoDup(itemIds, id => id in inDegree && inDegree[id] == 0);
    FilterMembers(itemIds, id => id in inDegree && inDegree[id] == 0);
  }

  lemma InitialQueue(itemIds: seq<string>, edges: Graph, inDegree: map<string, int>)
    requires NoDup(itemIds) && edges.Keys == SetOf(itemIds)
    requires inDegree.Keys == edges.Keys && forall c :: c in edges ==> inDegree[c] == |edges[c]|
    ensures Counts(edges, {}, inDegree)
    ensures QueueIsReady(edges, [], ZeroDegree(itemIds, inDegree))
  {
    ZeroDegreeFacts(itemIds, inDegree);
    forall c | c in edges ensures edges[c] - {} == edges[c] {}
    forall c ensures Accounted(edges, [], ZeroDegree(itemIds, inDegree), c) {
      assert c in edges ==> (edges[c] <= {} <==> |edges[c]| == 0);
    }
  }

  /** What the loop keeps: true counts, a duplicate-free result that respects every edge, and the ready ids in the queue. */
  ghost predicate Sorting(edges: Graph, result: seq<string>, inDegree: map<string, int>, queue: seq<string>) {
    && Counts(edges, SetOf(result), inDegree)
    && NoDup(result) && SetOf(result) <= edges.Keys
    && QueueIsReady(edges, result, queue)
    && RespectsEdges(edges, result)
  }

  lemma SortingStarts(itemIds: seq<string>, edges: Graph, inDegree: map<string, int>)
    requires NoDup(itemIds) && edges.Keys == SetOf(itemIds)
    requires inDegree.Keys == edges.Keys && forall c :: c in edges ==> inDegree[c] == |edges[c]|
    ensures Sorting(edges, [], inDegree, ZeroDegree(itemIds, inDegree))
  {
    InitialQueue(itemIds, edges, inDegree);
    assert SetOf<string>([]) == {};
  }

  lemma NextIsNew(edges: Graph, result: seq<string>, inDegree: map<string, int>, queue: seq<string>)
    requires queue != [] && Sorting(edges, result, inDegree, queue)
    ensures queue[0] in edges && queue[0] !in SetOf(result)
    ensures Counts(edges, SetOf(result), inDegree)
  {
    assert queue[0] in queue && Accounted(edges, result, queue, queue[0]);
  }

  lemma SortingGoesOn(edges: Graph, result: seq<string>, inDegree: map<string, int>, id: string, rest: seq<string>,
                      dependents: seq<string>, inDegree': map<string, int>, queue: seq<string>)
    requires Sorting(edges, result, inDegree, [id] + rest) && AreDependents(edges, id, dependents)
    requires Counts(edges, SetOf(result) + {id}, inDegree')
    requires queue == rest + ReadyOnes(edges, SetOf(result) + {id}, dependents)
    ensures Sorting(edges, result + [id], inDegree', queue)
    ensures SetOf(result + [id]) == SetOf(result) + {id}
  {
    var was := [id] + rest;
    NextIsNew(edges, result, inDegree, was);
    assert was[0] == id;
    assert Ready(edges, SetOf(result), id) by {
      assert id in was && id !in result && Accounted(edges, result, was, id);
    }
    SetOfPush(result, id);
    NoDupConcat(result, [id]);
    ReleaseKeepsQueue(edges, result, id, rest, dependents, queue);
    RespectsOneMore(edges, result, id);
  }

  /** The queue has run dry: either every id is out, or the ones left over form a cycle. */
  lemma SortingEnds(itemIds: seq<string>, edges: Graph, result: seq<string>, inDegree: map<string, int>)
    requires NoDup(itemIds) && edges.Keys == SetOf(itemIds) && Closed(edges) && Sorting(edges, result, inDegree, [])
    ensures |result| != |itemIds| <==> Cyclic(edges)
    ensures |result| == |itemIds| ==> SetOf(result) == SetOf(itemIds) && NoDup(result) && RespectsEdges(edges, result)
  {
    hide Cyclic, Closed, QueueIsReady, RespectsEdges;
    SizeOfSetOf(result);
    SizeOfSetOf(itemIds);
    SubsetSize(SetOf(result), edges.Keys);
    if |result| == |itemIds| {
      OrderRulesOutCycles(edges, result);
    } else {
      LeftOverMeansCyclic(edges, result);
    }
  }

  /** Kahn's algorithm: `None` exactly on a cycle, otherwise an order that respects every edge. */
  method TopologicalSort(itemIds: seq<string>, edges: Graph) returns (r: Option<seq<string>>)
    requires NoDup(itemIds) && edges.Keys == SetOf(itemIds) && Closed(edges)
    ensures r.None? <==> Cyclic(edges)
    ensures r.Some? ==> NoDup(r.value) && SetOf(r.value) == SetOf(itemIds) && RespectsEdges(edges, r.value)
  {
    var inDegree: map<string, int> := map id | id in itemIds :: |edges[id]|;
    var dependents := BuildDependents(itemIds, edges);
    var queue := ZeroDegree(itemIds, inDegree);
    var result: seq<string> := [];
    SortingStarts(itemIds, edges, inDegree);
    hide Cyclic, Closed, Sorting, Counts, AreDependents, QueueIsReady, RespectsEdges, NoDup, ReadyOnes, ZeroDegree;
    while |queue| > 0
      invariant Sorting(edges, result, inDegree, queue)
      decreases edges.Keys - SetOf(result)
    {
      var id, rest := queue[0], queue[1..];
      assert queue == [id] + rest;
      NextIsNew(edges, result, inDegree, queue);
      ghost var before, counts := result, inDegree;
      result := result + [id];
      inDegree, queue := Release(edges, SetOf(before), id, dependents[id], inDegree, rest);
      SortingGoesOn(edges, before, counts, id, rest, dependents[id], inDegree, queue);
    }
    SortingEnds(itemIds, edges, result, inDegree);
    r := if |result| == |itemIds| then Some(result) else None;
  }

  lemma RespectsOneMore(edges: Graph, result: seq<string>, id: string)
    requires RespectsEdges(edges, result) && Ready(edges, SetOf(result), id)
    ensures RespectsEdges(edges, result + [id])
  {
    var r := result + [id];
    forall j | 0 <= j < |r| ensures Placed(edges, r, j) {
      if j < |result| {
        assert Placed(edges, result, j);
        assert r[..j] == result[..j] && r[j] == result[j];
      } else {
        assert r[..j] == result;
      }
    }
  }

  // ----- order

  /** The guards of the row loop: a content prerequisite with both ends in the ranked set. */
  predicate Usable(g: Graph, row: ContentPrerequisite) {
    && row.prerequisiteContentId.Some? && row.prerequisiteContentId.value != ""
    && row.contentItemId in g && row.prerequisiteContentId.value in g
  }

  lemma GraphPush(items: seq<ScoredItem>, rows: seq<ContentPrerequisite>, row: ContentPrerequisite)
    ensures var g := PrerequisiteGraph(items, rows);
      PrerequisiteGraph(items, rows + [row])
      == if Usable(g, row) then g[row.contentItemId := g[row.contentItemId] + {row.prerequisiteContentId.value}] else g
  {
    var g, more := PrerequisiteGraph(items, rows), rows + [row];
    var g' := PrerequisiteGraph(items, more);
    forall c, p ensures Requires(more, c, p) <==> Requires(rows, c, p) || (row.contentItemId == c && PointsAt(row, p)) {
      assert more[|rows|] == row;
      if k :| 0 <= k < |rows| && rows[k].contentItemId == c && PointsAt(rows[k], p) {
        assert more[k] == rows[k];
      }
    }
    forall c | c in g
      ensures g'[c] == if Usable(g, row) && c == row.contentItemId then g[c] + {row.prerequisiteContentId.value} else g[c]
    {
    }
  }

  lemma GraphOfNoRows(items: seq<ScoredItem>, itemIds: seq<string>)
    requires SetOf(itemIds) == SetOf(ContentIds(items))
    ensures (map id | id in itemIds :: {}) == PrerequisiteGraph(items, [])
  {
    var g := PrerequisiteGraph(items, []);
    var none: Graph := map id | id in itemIds :: {};
    assert g.Keys == SetOf(itemIds) == none.Keys;
    forall c | c in g ensures g[c] == {} {
      assert forall p :: !Requires([], c, p);
    }
  }

  /** The edge map, each edge set filled in row by row. */
  method BuildEdges(items: seq<ScoredItem>, itemIds: seq<string>, rows: seq<ContentPrerequisite>) returns (edges: Graph)
    requires SetOf(itemIds) == SetOf(ContentIds(items))
    ensures edges == PrerequisiteGraph(items, rows)
  {
    edges := map id | id in itemIds :: {};
    GraphOfNoRows(items, itemIds);
    assert rows[..0] == [];
    for k := 0 to |rows|
      invariant edges == PrerequisiteGraph(items, rows[..k])
    {
      var row := rows[k];
      TakeMore(rows, k);
      GraphPush(items, rows[..k], row);
      if row.prerequisiteContentId.None? || row.prerequisiteContentId.value == "" {
        continue;
      }
      if row.contentItemId !in itemIds || row.prerequisiteContentId.value !in itemIds {
        continue;
      }
      edges := edges[row.contentItemId := edges[row.contentItemId] + {row.prerequisiteContentId.value}];
    }
    assert rows[..|rows|] == rows;
  }

  function Positions(sorted: seq<string>): (m: map<string, int>)
    requires NoDup(sorted)
    ensures m.Keys == SetOf(sorted)
    ensures forall k :: 0 <= k < |sorted| ==> sorted[k] in m && m[sorted[k]] == k
  {
    if sorted == [] then map[]
    else
      var n := |sorted| - 1;
      assert sorted == sorted[..n] + [sorted[n]];
      Positions(sorted[..n])[sorted[n] := n]
  }

  function PositionKey(positionById: map<string, int>): ScoredItem -> real {
    (item: ScoredItem) => if item.contentItem.id in positionById then positionById[item.contentItem.id] as real else 0.0
  }

  function ScoreKey(): ScoredItem -> real {
    (item: ScoredItem) => -item.score
  }

  function ByScore(items: seq<ScoredItem>): seq<ScoredItem> {
    StableSort(items, ScoreKey())
  }

  /** Descending scores, ties in input order. */
  ghost predicate RankedByScore(items: seq<ScoredItem>, r: seq<ScoredItem>) {
    && (forall i, j :: 0 <= i < j < |r| ==> r[i].score >= r[j].score)
    && (forall score :: EntriesScoring(r, score) == EntriesScoring(items, score))
  }

  lemma ByScoreRanks(items: seq<ScoredItem>)
    ensures multiset(ByScore(items)) == multiset(items)
    ensures RankedByScore(items, ByScore(items))
  {
    var r := ByScore(items);
    StableSortSorts(items, ScoreKey());
    forall i, j | 0 <= i < j < |r| ensures r[i].score >= r[j].score {
      assert ScoreKey()(r[i]) <= ScoreKey()(r[j]);
    }
    forall score ensures EntriesScoring(r, score) == EntriesScoring(items, score) {
      StableSortKeeps(items, ScoreKey(), (item: ScoredItem) => item.score == score);
    }
  }

  lemma PrerequisiteHasLowerKey(g: Graph, sorted: seq<string>, item: ScoredItem, needed: ScoredItem)
    requires NoDup(sorted) && RespectsEdges(g, sorted) && SetOf(sorted) == g.Keys
    requires item.contentItem.id in g && needed.contentItem.id in g[item.contentItem.id]
    ensures PositionKey(Positions(sorted))(needed) < PositionKey(Positions(sorted))(item)
  {
    assert item.contentItem.id in SetOf(sorted);
    var pos :| 0 <= pos < |sorted| && sorted[pos] == item.contentItem.id;
    assert Placed(g, sorted, pos);
    assert needed.contentItem.id in SetOf(sorted[..pos]);
    var before :| 0 <= before < pos && sorted[before] == needed.contentItem.id;
  }

  lemma ByPositionOrders(items: seq<ScoredItem>, rows: seq<ContentPrerequisite>, sorted: seq<string>)
    requires NoDup(sorted) && SetOf(sorted) == SetOf(ContentIds(items))
    requires RespectsEdges(PrerequisiteGraph(items, rows), sorted)
    ensures var r := StableSort(items, PositionKey(Positions(sorted)));
      && multiset(r) == multiset(items)
      && PrerequisitesFirst(PrerequisiteGraph(items, rows), r)
      && forall c :: EntriesOf(r, c) == EntriesOf(items, c)
  {
    assert PrerequisiteGraph(items, rows).Keys == SetOf(sorted);
    hide RespectsEdges, PrerequisiteGraph, PositionKey, Positions, StableSort, SortedBy;
    var key := PositionKey(Positions(sorted));
    var g := PrerequisiteGraph(items, rows);
    var r := StableSort(items, key);
    StableSortSorts(items, key);
    forall i, j | 0 <= i < |r| && 0 <= j < |r| && r[j].contentItem.id in g
      && r[i].contentItem.id in g[r[j].contentItem.id] ensures i < j
    {
      PrerequisiteHasLowerKey(g, sorted, r[j], r[i]);
      SmallerKeyFirst(r, key, i, j);
    }
    forall c ensures EntriesOf(r, c) == EntriesOf(items, c) {
      EntriesKeepOrder(items, sorted, c);
    }
  }

  lemma EntriesKeepOrder(items: seq<ScoredItem>, sorted: seq<string>, c: string)
    requires NoDup(sorted)
    ensures EntriesOf(StableSort(items, PositionKey(Positions(sorted))), c) == EntriesOf(items, c)
  {
    StableSortKeeps(items, PositionKey(Positions(sorted)), (item: ScoredItem) => item.contentItem.id == c);
  }

  /** A permutation of the items: prerequisites first, or by score when they form a cycle. */
  method Order(items: seq<ScoredItem>, prerequisites: seq<ContentPrerequisite>) returns (r: seq<ScoredItem>)
    ensures multiset(r) == multiset(items)
    ensures !Cyclic(PrerequisiteGraph(items, prerequisites)) ==>
      PrerequisitesFirst(PrerequisiteGraph(items, prerequisites), r)
      && forall c :: EntriesOf(r, c) == EntriesOf(items, c)
    ensures Cyclic(PrerequisiteGraph(items, prerequisites)) ==> RankedByScore(items, r)
  {
    var itemIds := Distinct(ContentIds(items));
    var edges := BuildEdges(items, itemIds, prerequisites);
    var sorted := TopologicalSort(itemIds, edges);
    if sorted.None? {
      ByScoreRanks(items);
      return ByScore(items);
    }
    ByPositionOrders(items, prerequisites, sorted.value);
    return StableSort(items, PositionKey(Positions(sorted.value)));
  }

  // ----- fit

  ghost predicate FitsWithin(selection: multiset<ScoredItem>, durationMinutes: int) {
    15 * |selection| <= durationMinutes
  }

  /** No choice of items that fits the budget has more than `most` of them. */
  ghost predicate NoneLarger(items: seq<ScoredItem>, durationMinutes: int, most: nat) {
    forall selection | selection <= multiset(items) && FitsWithin(selection, durationMinutes) :: |selection| <= most
  }

  /** Greedy cut: a prefix of the ranked list, and no selection within the budget is larger. */
  method Fit(orderedItems: seq<ScoredItem>, durationMinutes: int)
    returns (fitted: seq<ScoredItem>, deferred: seq<ScoredItem>)
    ensures fitted + deferred == orderedItems
    ensures fitted == [] || FitsWithin(multiset(fitted), durationMinutes)
    ensures NoneLarger(orderedItems, durationMinutes, |fitted|)
  {
    fitted, deferred := [], [];
    var remaining := durationMinutes;
    for k := 0 to |orderedItems|
      invariant fitted + deferred == orderedItems[..k]
      invariant remaining == durationMinutes - ASSUMED_CONTENT_MINUTES * |fitted|
      invariant fitted == [] || remaining >= 0
      invariant deferred != [] ==> remaining < ASSUMED_CONTENT_MINUTES
    {
      var item := orderedItems[k];
      TakeMore(orderedItems, k);
      if ASSUMED_CONTENT_MINUTES <= remaining {
        fitted := fitted + [item];
        remaining := remaining - ASSUMED_CONTENT_MINUTES;
      } else {
        deferred := deferred + [item];
      }
    }
    assert orderedItems[..|orderedItems|] == orderedItems;
    forall selection | selection <= multiset(orderedItems) && FitsWithin(selection, durationMinutes)
      ensures |selection| <= |fitted|
    {
      assert multiset(orderedItems) == selection + (multiset(orderedItems) - selection);
    }
  }

  /** The time cut keeps prerequisites: whatever a fitted item needs is fitted too. */
  lemma CutKeepsPrerequisites(g: Graph, fitted: seq<ScoredItem>, deferred: seq<ScoredItem>, item: ScoredItem, needed: ScoredItem)
    requires PrerequisitesFirst(g, fitted + deferred)
    requires item in fitted && needed in fitted + deferred
    requires item.contentItem.id in g && needed.contentItem.id in g[item.contentItem.id]
    ensures needed in fitted && needed !in deferred
  {
    var all := fitted + deferred;
    var j :| 0 <= j < |fitted| && fitted[j] == item;
    assert all[j] == item;
    forall i | 0 <= i < |all| && all[i] == needed ensures i < j {}
    forall d | 0 <= d < |deferred| ensures deferred[d] != needed {
      assert all[|fitted| + d] == deferred[d];
    }
  }

  ghost predicate ClosedUnder(g: Graph, items: seq<ScoredItem>, chosen: seq<ScoredItem>) {
    forall item, needed | item in chosen && needed in items && item.contentItem.id in g ::
      needed.contentItem.id in g[item.contentItem.id] ==> needed in chosen
  }

  /** Ranking and cutting a set whose prerequisites are acyclic: the session's share is closed. */
  method RankAndCut(items: seq<ScoredItem>, prerequisites: seq<ContentPrerequisite>, durationMinutes: int)
    returns (fitted: seq<ScoredItem>, deferred: seq<ScoredItem>)
    ensures multiset(fitted + deferred) == multiset(items)
    ensures var g := PrerequisiteGraph(items, prerequisites);
      !Cyclic(g) ==> ClosedUnder(g, items, fitted)
    ensures NoneLarger(items, durationMinutes, |fitted|) && (fitted == [] || FitsWithin(multiset(fitted), durationMinutes))
    ensures var g := PrerequisiteGraph(items, prerequisites);
      if Cyclic(g) then RankedByScore(items, fitted + deferred) else PrerequisitesFirst(g, fitted + deferred)
  {
    var ranked := Order(items, prerequisites);
    fitted, deferred := Fit(ranked, durationMinutes);
    ghost var g := PrerequisiteGraph(items, prerequisites);
    if !Cyclic(g) {
      forall item, needed | item in fitted && needed in items
        && item.contentItem.id in g && needed.contentItem.id in g[item.contentItem.id] ensures needed in fitted
      {
        assert needed in multiset(items);
        CutKeepsPrerequisites(g, fitted, deferred, item, needed);
      }
    }
  }
}
