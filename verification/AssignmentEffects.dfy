/** What assigning, patching and retiring do to the stored rows, row by row. */
module AssignmentEffects {
  import opened Wrappers
  import opened Seqs
  import opened Assignments
  import opened RefusedPatches
  import V = Verdict

  // ----- retiring and assigning

  ghost predicate IsRetired(before: Assignment, after: Assignment, learner: string) {
    after.learnerId == before.learnerId && after.isActive == (before.isActive && before.learnerId != learner)
  }

  /** The learner's assignments become inactive; nothing else changes. */
  ghost predicate Retires(s: State, t: State, learner: string) {
    && t == s.(assignments := t.assignments) && t.assignments.Keys == s.assignments.Keys
    && forall a :: a in s.assignments ==> IsRetired(s.assignments[a], t.assignments[a], learner)
  }

  lemma RetireRetires(s: State, learner: string)
    ensures Retires(s, Retire(s, learner), learner)
  {
  }

  /** Some row of the learner for this outcome, in whatever assignment, is achieved. */
  ghost predicate AchievedEarlier(rows: Rows, learner: string, outcome: string) {
    exists id :: id in rows && rows[id].learnerId == learner && rows[id].outcomeId == outcome && rows[id].status == Achieved
  }

  /** A row as it starts: achieved now if it was achieved before, and otherwise untouched. */
  ghost predicate Starts(rows: Rows, row: OutcomeRow, learner: string, outcome: string, assignment: Id, priority: int, now: int) {
    && row.learnerId == learner && row.outcomeId == outcome && row.assignmentId == assignment
    && row.priority == priority && !row.isCustom && row.attemptCount == 0 && row.lastScore == None
    && (AchievedEarlier(rows, learner, outcome) ==> row.status == Achieved && row.achievedAt == Some(now))
    && (!AchievedEarlier(rows, learner, outcome) ==> row.status == NotStarted && row.achievedAt == None)
  }

  /** A new active assignment, with one row for each of the outcomes in their order, behind everything there was. */
  ghost predicate Assigns(s: State, t: State, learner: string, outcomes: seq<string>, now: int) {
    && t == s.(assignments := t.assignments, rows := t.rows, nextId := s.nextId + 1 + |outcomes|)
    && t.assignments.Keys == s.assignments.Keys + {s.nextId}
    && t.assignments[s.nextId].learnerId == learner && t.assignments[s.nextId].isActive
    && (forall a :: a in s.assignments ==> IsRetired(s.assignments[a], t.assignments[a], learner))
    && (forall id :: id in t.rows <==> id in s.rows || s.nextId < id < t.nextId)
    && (forall id :: id in s.rows ==> t.rows[id] == s.rows[id])
    && (forall i :: 0 <= i < |outcomes| ==> Starts(s.rows, t.rows[s.nextId + 1 + i], learner, outcomes[i], s.nextId, i, now))
  }

  lemma AssigningAssigns(s: State, learner: string, outcomes: seq<string>, now: int)
    requires Inv(s) && NoDup(outcomes)
    ensures Assigns(s, AssignWithOutcomes(s, learner, outcomes, AchievedBy(s.rows, learner), now), learner, outcomes, now)
  {
    var achieved := AchievedBy(s.rows, learner);
    AssignKeeps(s, learner, outcomes, achieved, now);
    UsedIds(s);
    hide Inv, NoDup, AssignWithOutcomes, AchievedBy;
    MaterializedAssigns(s, AssignWithOutcomes(s, learner, outcomes, achieved, now), learner, outcomes, now);
  }

  lemma UsedIds(s: State)
    requires Inv(s)
    ensures IdsUsed(s)
  {
  }

  lemma MaterializedAssigns(s: State, t: State, learner: string, outcomes: seq<string>, now: int)
    requires IdsUsed(s)
    requires IsMaterialized(CreateAssignment(Retire(s, learner), learner), t, learner, s.nextId, outcomes, AchievedBy(s.rows, learner),
                            now, |outcomes|)
    ensures Assigns(s, t, learner, outcomes, now)
  {
    var created, achieved := CreateAssignment(Retire(s, learner), learner), AchievedBy(s.rows, learner);
    forall i | 0 <= i < |outcomes|
      ensures Starts(s.rows, t.rows[s.nextId + 1 + i], learner, outcomes[i], s.nextId, i, now)
    {
      assert t.rows[created.nextId + i] == NewRow(learner, outcomes[i], s.nextId, i, achieved, now);
      AchievedMeans(s.rows, learner, outcomes[i]);
      hide IsMaterialized, AchievedBy, AchievedEarlier;
    }
    hide Starts, AchievedBy;
  }

  lemma AchievedMeans(rows: Rows, learner: string, outcome: string)
    ensures outcome in AchievedBy(rows, learner) <==> AchievedEarlier(rows, learner, outcome)
  {
  }

  // ----- patching

  ghost predicate IsBase(rows: Rows, assignment: Id, outcome: string) {
    exists id :: id in rows && rows[id].assignmentId == assignment && rows[id].outcomeId == outcome && !rows[id].isCustom
  }

  ghost predicate IsThere(rows: Rows, assignment: Id, outcome: string) {
    exists id :: id in rows && rows[id].assignmentId == assignment && rows[id].outcomeId == outcome
  }

  /** The outcomes the first `i` additions bring in, each once. */
  ghost function BroughtIn(rows: Rows, assignment: Id, add: seq<Addition>, i: nat): seq<string>
    requires i <= |add|
  {
    Distinct(Filter(Map(add[..i], (a: Addition) => a.outcomeId), o => !IsThere(rows, assignment, o)))
  }

  ghost function IdsOf(rows: Rows, assignment: Id): set<Id> {
    set id | id in rows && rows[id].assignmentId == assignment
  }

  /** New custom rows behind everything there was, numbered on from the rows the assignment has. */
  ghost predicate Adds(s: State, t: State, learner: string, assignment: Id, incoming: seq<string>) {
    var size := |IdsOf(s.rows, assignment)|;
    && t == s.(rows := t.rows, nextId := s.nextId + |incoming|)
    && (forall id :: id in t.rows <==> id in s.rows || s.nextId <= id < t.nextId)
    && (forall id :: id in s.rows ==> t.rows[id] == s.rows[id])
    && (forall j :: 0 <= j < |incoming| ==>
          t.rows[s.nextId + j] == OutcomeRow(learner, incoming[j], assignment, NotStarted, size + j, true, 0, None, None))
  }

  /** The assignment's rows for the removed outcomes go; nothing else changes. */
  ghost predicate Removes(s: State, t: State, assignment: Id, removed: seq<string>) {
    && t == s.(rows := t.rows)
    && (forall id :: id in t.rows <==> id in s.rows && !(s.rows[id].assignmentId == assignment && s.rows[id].outcomeId in removed))
    && (forall id :: id in t.rows ==> t.rows[id] == s.rows[id])
  }

  /** The last priority given for an outcome is the one its row has; rows given none keep theirs. */
  ghost predicate Prioritizes(s: State, t: State, assignment: Id, priorities: seq<Priority>) {
    && t == s.(rows := t.rows) && t.rows.Keys == s.rows.Keys
    && forall id :: id in s.rows ==>
      && t.rows[id] == s.rows[id].(priority := t.rows[id].priority)
      && (s.rows[id].assignmentId != assignment || NoneGiven(priorities, s.rows[id].outcomeId, 0) ==> t.rows[id] == s.rows[id])
      && forall k :: 0 <= k < |priorities| && s.rows[id].assignmentId == assignment && IsLastFor(priorities, s.rows[id].outcomeId, k) ==>
           t.rows[id].priority == priorities[k].priority
  }

  ghost predicate NoneGiven(priorities: seq<Priority>, outcome: string, from: nat) {
    forall k :: from <= k < |priorities| ==> priorities[k].outcomeId != outcome
  }

  ghost predicate IsLastFor(priorities: seq<Priority>, outcome: string, k: nat) {
    k < |priorities| && priorities[k].outcomeId == outcome && NoneGiven(priorities, outcome, k + 1)
  }

  ghost predicate StopsAdding(add: seq<Addition>, i: nat) {
    i <= |add| && (forall k :: 0 <= k < i ==> add[k].found) && (i < |add| ==> !add[i].found)
  }

  ghost predicate StopsRemoving(rows: Rows, assignment: Id, remove: seq<string>, j: nat) {
    && j <= |remove| && (forall k :: 0 <= k < j ==> !IsBase(rows, assignment, remove[k]))
    && (j < |remove| ==> IsBase(rows, assignment, remove[j]))
  }

  /** How far a patch gets: an unknown addition or a base removal ends it there, and then no priority is set. */
  ghost predicate Reaches(s: State, assignment: Id, add: seq<Addition>, remove: seq<string>, i: nat, j: nat, answer: Answer) {
    && StopsAdding(add, i) && (if i < |add| then j == 0 else StopsRemoving(s.rows, assignment, remove, j))
    && answer == if i == |add| && j == |remove| then Done else Invalid
  }

  ghost predicate Patches(s: State, t: State, learner: string, assignment: Id, add: seq<Addition>, remove: seq<string>,
                          priorities: seq<Priority>, answer: Answer)
  {
    exists i: nat, j: nat :: j <= |remove| && Reaches(s, assignment, add, remove, i, j, answer)
      && PatchesUpTo(s, t, learner, assignment, add[..i], remove[..j], if answer == Done then priorities else [])
  }

  ghost predicate PatchesUpTo(s: State, t: State, learner: string, assignment: Id, add: seq<Addition>, remove: seq<string>,
                              priorities: seq<Priority>)
  {
    exists added, removed ::
      && Adds(s, added, learner, assignment, BroughtIn(s.rows, assignment, add, |add|))
      && Removes(added, removed, assignment, remove)
      && Prioritizes(removed, t, assignment, priorities)
  }

  lemma BroughtInPush(rows: Rows, assignment: Id, add: seq<Addition>, i: nat)
    requires i < |add|
    ensures var incoming, o := BroughtIn(rows, assignment, add, i), add[i].outcomeId;
      BroughtIn(rows, assignment, add, i + 1) == if IsThere(rows, assignment, o) || o in incoming then incoming else incoming + [o]
  {
    hide IsThere, Filter, Distinct;
    var ids := Map(add[..i], (a: Addition) => a.outcomeId);
    var p := o => !IsThere(rows, assignment, o);
    TakeMore(add, i);
    assert Map(add[..i + 1], (a: Addition) => a.outcomeId) == ids + [add[i].outcomeId];
    FilterOne(add[i].outcomeId, p);
    FilterConcat(ids, [add[i].outcomeId], p);
    DistinctPush(Filter(ids, p), add[i].outcomeId);
    assert Filter(ids, p) + [] == Filter(ids, p);
  }

  lemma FilterOne(x: string, p: string -> bool)
    ensures Filter([x], p) == if p(x) then [x] else []
  {
  }

  lemma DistinctPush(s: seq<string>, x: string)
    ensures Distinct(s + [x]) == if x in Distinct(s) then Distinct(s) else Distinct(s) + [x]
  {
    assert (s + [x])[..|s|] == s;
  }

  lemma {:induction false} AddAllAdds(s: State, learner: string, assignment: Id, add: seq<Addition>, i: nat)
    requires i <= |add| && Inv(s) && IsActiveOf(s, learner, assignment) && AllFound(add, i)
    ensures Adds(s, AddAll(s, learner, assignment, add, i).0, learner, assignment, BroughtIn(s.rows, assignment, add, i))
  {
    hide Inv, AddOne, Adds, IsActiveOf, BroughtIn, Patched, OutcomesOf, BaseOf, Added;
    if i == 0 {
      NothingBroughtIn(s, learner, assignment, add);
    } else {
      AddAllAdds(s, learner, assignment, add, i - 1);
      AddAllFacts(s, learner, assignment, add, i - 1);
      BroughtInPush(s.rows, assignment, add, i - 1);
      AddOneAdds(s, AddAll(s, learner, assignment, add, i - 1).0, learner, assignment,
                 BroughtIn(s.rows, assignment, add, i - 1), add[i - 1].outcomeId);
    }
  }

  lemma NothingBroughtIn(s: State, learner: string, assignment: Id, add: seq<Addition>)
    requires Inv(s)
    ensures Adds(s, s, learner, assignment, BroughtIn(s.rows, assignment, add, 0))
  {
  }

  lemma AddOneAdds(s: State, t: State, learner: string, assignment: Id, incoming: seq<string>, outcome: string)
    requires Inv(s) && Adds(s, t, learner, assignment, incoming)
    ensures Adds(s, AddOne(t, learner, assignment, outcome), learner, assignment,
                 if IsThere(s.rows, assignment, outcome) || outcome in incoming then incoming else incoming + [outcome])
  {
    if IsThere(s.rows, assignment, outcome) {
      var id :| id in s.rows && s.rows[id].assignmentId == assignment && s.rows[id].outcomeId == outcome;
      assert IsRowFor(t.rows, assignment, outcome, id);
    } else if outcome in incoming {
      var j :| 0 <= j < |incoming| && incoming[j] == outcome;
      assert t.rows[s.nextId + j].outcomeId == outcome;
      assert IsRowFor(t.rows, assignment, outcome, s.nextId + j);
    } else {
      NotThere(s, t, learner, assignment, incoming, outcome);
      UsedIds(s);
      AddedSize(s, t, learner, assignment, incoming);
      hide Inv, IsThere, RowFor;
    }
  }

  lemma NotThere(s: State, t: State, learner: string, assignment: Id, incoming: seq<string>, outcome: string)
    requires Adds(s, t, learner, assignment, incoming) && !IsThere(s.rows, assignment, outcome) && outcome !in incoming
    ensures RowFor(t.rows, assignment, outcome) == None
  {
    forall id: Id ensures !IsRowFor(t.rows, assignment, outcome, id) {
      if id in t.rows && id !in s.rows {
        var j := id - s.nextId;
        assert t.rows[s.nextId + j].outcomeId == incoming[j];
      }
    }
  }

  lemma AddedSize(s: State, t: State, learner: string, assignment: Id, incoming: seq<string>)
    requires IdsUsed(s) && Adds(s, t, learner, assignment, incoming)
    ensures |RowsOf(t.rows, assignment)| == |IdsOf(s.rows, assignment)| + |incoming|
  {
    forall id: Id
      ensures id in RowsOf(t.rows, assignment) <==> id in IdsOf(s.rows, assignment) || s.nextId <= id < s.nextId + |incoming|
      ensures id in IdsOf(s.rows, assignment) ==> id < s.nextId
    {
      AddedId(s, t, learner, assignment, incoming, id);
    }
    hide *;
    IntervalFacts(s.nextId, |incoming|);
    SizeOfBoth(RowsOf(t.rows, assignment), IdsOf(s.rows, assignment), Interval(s.nextId, |incoming|));
  }

  lemma AddedId(s: State, t: State, learner: string, assignment: Id, incoming: seq<string>, id: Id)
    requires IdsUsed(s) && Adds(s, t, learner, assignment, incoming)
    ensures id in RowsOf(t.rows, assignment) <==> id in IdsOf(s.rows, assignment) || s.nextId <= id < s.nextId + |incoming|
    ensures id in IdsOf(s.rows, assignment) ==> id < s.nextId
  {
    if s.nextId <= id < s.nextId + |incoming| {
      var j: nat := id - s.nextId;
      assert t.rows[s.nextId + j].outcomeId == incoming[j];
    }
  }

  lemma SizeOfBoth(all: set<Id>, some: set<Id>, others: set<Id>)
    requires forall id :: id in all <==> id in some || id in others
    requires forall id :: id in some ==> id !in others
    ensures |all| == |some| + |others|
  {
    assert all == some + others;
  }

  ghost function Interval(from: nat, n: nat): set<nat> {
    if n == 0 then {} else Interval(from, n - 1) + {from + n - 1}
  }

  lemma {:induction false} IntervalFacts(from: nat, n: nat)
    ensures |Interval(from, n)| == n
    ensures forall id :: id in Interval(from, n) <==> from <= id < from + n
  {
    if n > 0 {
      IntervalFacts(from, n - 1);
    }
  }

  lemma {:induction false} RemoveAllRemoves(s: State, assignment: Id, remove: seq<string>, j: nat)
    requires j <= |remove| && Inv(s) && NoneIn(remove, j, BaseOf(s.rows, assignment))
    ensures Removes(s, RemoveAll(s, assignment, remove, j).0, assignment, remove[..j])
  {
    hide Inv, RemoveOne, Removes, BaseOf, Patched, OutcomesOf;
    if j == 0 {
      NothingRemovedHere(s, assignment, remove);
    } else {
      RemoveAllRemoves(s, assignment, remove, j - 1);
      RemoveAllFacts(s, assignment, remove, j - 1);
      var t := RemoveAll(s, assignment, remove, j - 1).0;
      RemoveOneFacts(t, assignment, remove[j - 1]);
      TakeMore(remove, j - 1);
      InvForRows(t);
      RemoveOneRemoves(s, t, assignment, remove[..j - 1], remove[j - 1]);
    }
  }

  lemma NothingRemovedHere(s: State, assignment: Id, remove: seq<string>)
    ensures Removes(s, s, assignment, remove[..0])
  {
  }

  lemma RemoveOneRemoves(s: State, t: State, assignment: Id, removed: seq<string>, outcome: string)
    requires Removes(s, t, assignment, removed) && OneRowEach(t.rows) && RemoveOne(t, assignment, outcome).1
    ensures Removes(s, RemoveOne(t, assignment, outcome).0, assignment, removed + [outcome])
  {
    forall id | id in t.rows && t.rows[id].assignmentId == assignment && t.rows[id].outcomeId == outcome
      ensures RowFor(t.rows, assignment, outcome) == Some(id)
    {
      OnlyRow(t.rows, assignment, outcome, id);
    }
  }

  lemma {:induction false} LastGiven(priorities: seq<Priority>, k: nat, outcome: string)
    requires k <= |priorities|
    ensures match LastPriority(priorities, k, outcome)
      case None => forall i :: 0 <= i < k ==> priorities[i].outcomeId != outcome
      case Some(p) =>
        exists i: nat :: i < k && priorities[i] == Priority(outcome, p) && forall j :: i < j < k ==> priorities[j].outcomeId != outcome
  {
    if k > 0 {
      LastGiven(priorities, k - 1, outcome);
      if priorities[k - 1].outcomeId == outcome {
        assert priorities[k - 1] == Priority(outcome, priorities[k - 1].priority);
      }
    }
  }

  lemma PrioritizedPrioritizes(s: State, t: State, assignment: Id, priorities: seq<Priority>)
    requires t == s.(rows := t.rows) && Prioritized(s, t, assignment, priorities, |priorities|)
    ensures Prioritizes(s, t, assignment, priorities)
  {
    forall outcome ensures NoneGiven(priorities, outcome, 0) <==> LastPriority(priorities, |priorities|, outcome).None?
      ensures forall k: nat :: k < |priorities| && IsLastFor(priorities, outcome, k) ==>
        LastPriority(priorities, |priorities|, outcome) == Some(priorities[k].priority)
    {
      LastGiven(priorities, |priorities|, outcome);
    }
    hide NoneGiven, LastPriority, IsLastFor;
  }

  lemma BaseMeans(rows: Rows, assignment: Id, outcome: string)
    ensures IsBase(rows, assignment, outcome) <==> outcome in BaseOf(rows, assignment)
  {
  }

  lemma NothingGiven(s: State, assignment: Id)
    ensures Prioritizes(s, s, assignment, [])
  {
  }

  lemma SameBroughtIn(rows: Rows, assignment: Id, add: seq<Addition>, i: nat)
    requires i <= |add|
    ensures BroughtIn(rows, assignment, add[..i], |add[..i]|) == BroughtIn(rows, assignment, add, i)
  {
    assert add[..i][..i] == add[..i];
  }

  /** What a patch has done after `i` additions and `j` removals. */
  lemma PatchedUpTo(s: State, learner: string, assignment: Id, add: seq<Addition>, remove: seq<string>, i: nat, j: nat)
    returns (added: State, removed: State)
    requires Inv(s) && IsActiveOf(s, learner, assignment) && i <= |add| && AllFound(add, i)
    requires j <= |remove| && NoneIn(remove, j, BaseOf(s.rows, assignment))
    ensures added == AddAll(s, learner, assignment, add, i).0 && removed == RemoveAll(added, assignment, remove, j).0
    ensures Inv(added) && Inv(removed)
    ensures Adds(s, added, learner, assignment, BroughtIn(s.rows, assignment, add[..i], |add[..i]|))
    ensures Removes(added, removed, assignment, remove[..j])
  {
    hide Inv, IsActiveOf, Adds, Removes, BroughtIn, Patched, OutcomesOf, BaseOf, Added, NoneIn, AllFound, SetOf;
    added := AddAll(s, learner, assignment, add, i).0;
    removed := RemoveAll(added, assignment, remove, j).0;
    AddAllFacts(s, learner, assignment, add, i);
    AddAllAdds(s, learner, assignment, add, i);
    SameBroughtIn(s.rows, assignment, add, i);
    RemoveAllFacts(added, assignment, remove, j);
    RemoveAllRemoves(added, assignment, remove, j);
  }

  lemma StopsAsFound(s: State, assignment: Id, add: seq<Addition>, remove: seq<string>, answer: Answer)
    requires var i, j := Additions(add), Removals(s.rows, assignment, add, remove);
      answer == if i == |add| && j == |remove| then Done else Invalid
    ensures var i, j := Additions(add), Removals(s.rows, assignment, add, remove);
      && i <= |add| && AllFound(add, i) && j <= |remove| && NoneIn(remove, j, BaseOf(s.rows, assignment))
      && Reaches(s, assignment, add, remove, i, j, answer)
  {
    forall o ensures IsBase(s.rows, assignment, o) <==> o in BaseOf(s.rows, assignment) {
      BaseMeans(s.rows, assignment, o);
    }
    hide IsBase, BaseOf;
  }

  lemma PatchStops(s: State, learner: string, assignment: Id, add: seq<Addition>, remove: seq<string>, priorities: seq<Priority>)
    requires Inv(s) && IsActiveOf(s, learner, assignment)
    ensures var i, j := Additions(add), Removals(s.rows, assignment, add, remove);
      var (t, answer) := PatchOutcomes(s, learner, add, remove, priorities);
      var removed := RemoveAll(AddAll(s, learner, assignment, add, i).0, assignment, remove, j).0;
      && answer == (if i == |add| && j == |remove| then Done else Invalid)
      && t == if answer == Done then ReprioritizeAll(removed, assignment, priorities, |priorities|) else removed
  {
    var i, added := Additions(add), AddAll(s, learner, assignment, add, Additions(add)).0;
    OnlyActiveInv(s, learner, assignment);
    AdditionsStop(s, learner, assignment, add);
    AddAllFacts(s, learner, assignment, add, i);
    RemovalsStop(added, assignment, remove);
    hide Inv, Patched, OutcomesOf, BaseOf, IsActiveOf, AddOne, RemoveOne, ReprioritizeAll, FirstUnknown, FirstBase, ActiveOf;
  }

  /** A patch of the active assignment does just this. */
  lemma PatchingPatches(s: State, learner: string, assignment: Id, add: seq<Addition>, remove: seq<string>, priorities: seq<Priority>)
    requires Inv(s) && IsActiveOf(s, learner, assignment)
    ensures var (t, answer) := PatchOutcomes(s, learner, add, remove, priorities);
      Patches(s, t, learner, assignment, add, remove, priorities, answer)
  {
    var (t, answer) := PatchOutcomes(s, learner, add, remove, priorities);
    var i, j := Additions(add), Removals(s.rows, assignment, add, remove);
    PatchStops(s, learner, assignment, add, remove, priorities);
    StopsAsFound(s, assignment, add, remove, answer);
    var added, removed := PatchedUpTo(s, learner, assignment, add, remove, i, j);
    var given := if answer == Done then priorities else [];
    if answer == Done {
      PrioritiesAre(removed, assignment, priorities, |priorities|);
      OnlyRowsChange(removed, assignment, priorities, |priorities|);
      PrioritizedPrioritizes(removed, t, assignment, priorities);
    } else {
      NothingGiven(removed, assignment);
    }
    hide Adds, Removes, Prioritizes, Reaches, Inv, Prioritized, Patched, OutcomesOf, PatchOutcomes, AddAll, RemoveAll, ReprioritizeAll,
      Additions, Removals;
    assert PatchesUpTo(s, t, learner, assignment, add[..i], remove[..j], given);
  }

  lemma {:induction false} OnlyRowsChange(s: State, assignment: Id, priorities: seq<Priority>, k: nat)
    requires k <= |priorities|
    ensures ReprioritizeAll(s, assignment, priorities, k) == s.(rows := ReprioritizeAll(s, assignment, priorities, k).rows)
  {
    if k > 0 {
      OnlyRowsChange(s, assignment, priorities, k - 1);
    }
  }
}
