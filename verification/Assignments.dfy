/** Learner assignments, their outcome rows, and the escalation of repeated failures. */
module Assignments {
  import opened Wrappers
  import opened Seqs
  import V = Verdict

  type Id = nat

  datatype Status = NotStarted | InProgress | Achieved

  datatype Assignment = Assignment(learnerId: string, isActive: bool)

  datatype OutcomeRow = OutcomeRow(learnerId: string, outcomeId: string, assignmentId: Id, status: Status, priority: int,
                                   isCustom: bool, attemptCount: nat, lastScore: Option<int>, achievedAt: Option<int>)

  /** `outcome.failed.repeatedly`. The payload has no row id; it records here which row the publisher had just written. */
  datatype Event = Event(rowId: Id, learnerId: string, outcomeId: string, attemptCount: nat)

  /** One verdict written to one row. */
  datatype Applied = Applied(rowId: Id, verdict: V.Verdict, score: int, at: int)

  type Rows = map<Id, OutcomeRow>

  /** Ids are handed out in order, which stands for fresh ones. `applied` is history, not data. */
  datatype State = State(assignments: map<Id, Assignment>, rows: Rows, events: seq<Event>, applied: seq<Applied>, nextId: Id)

  const EMPTY := State(map[], map[], [], [], 0)

  // ----- single writes

  function Retire(s: State, learner: string): State {
    s.(assignments := map a | a in s.assignments ::
      if s.assignments[a].learnerId == learner then s.assignments[a].(isActive := false) else s.assignments[a])
  }

  function CreateAssignment(s: State, learner: string): State {
    s.(assignments := s.assignments[s.nextId := Assignment(learner, true)], nextId := s.nextId + 1)
  }

  function CreateRow(s: State, row: OutcomeRow): State {
    s.(rows := s.rows[s.nextId := row], nextId := s.nextId + 1)
  }

  function DeleteRow(s: State, id: Id): State {
    s.(rows := s.rows - {id})
  }

  function SetPriority(s: State, id: Id, priority: int): State
    requires id in s.rows
  {
    s.(rows := s.rows[id := s.rows[id].(priority := priority)])
  }

  function Judged(row: OutcomeRow, verdict: V.Verdict, score: int, now: int): OutcomeRow {
    row.(status := if verdict.Achieved? then Achieved else InProgress,
         lastScore := Some(score),
         achievedAt := if verdict.Achieved? then Some(now) else None,
         attemptCount := row.attemptCount + 1)
  }

  /** A verdict and, on a failure that is not the row's first attempt, its event. */
  function ApplyVerdict(s: State, id: Id, verdict: V.Verdict, score: int, now: int): State
    requires id in s.rows
  {
    var row := s.rows[id];
    s.(rows := s.rows[id := Judged(row, verdict, score, now)],
       applied := s.applied + [Applied(id, verdict, score, now)],
       events := s.events + if !verdict.Achieved? && row.attemptCount + 1 > 1
                            then [Event(id, row.learnerId, row.outcomeId, row.attemptCount + 1)] else [])
  }

  // ----- lookups

  ghost predicate IsActiveOf(s: State, learner: string, a: Id) {
    a in s.assignments && s.assignments[a] == Assignment(learner, true)
  }

  ghost function ActiveOf(s: State, learner: string): Option<Id> {
    if a :| IsActiveOf(s, learner, a) then Some(a) else None
  }

  predicate IsRowFor(rows: Rows, assignment: Id, outcome: string, id: Id) {
    id in rows && rows[id].assignmentId == assignment && rows[id].outcomeId == outcome
  }

  ghost function RowFor(rows: Rows, assignment: Id, outcome: string): Option<Id> {
    if id :| IsRowFor(rows, assignment, outcome, id) then Some(id) else None
  }

  function RowsOf(rows: Rows, assignment: Id): set<Id> {
    set id | id in rows && rows[id].assignmentId == assignment
  }

  function AchievedBy(rows: Rows, learner: string): set<string> {
    set id | id in rows && rows[id].learnerId == learner && rows[id].status == Achieved :: rows[id].outcomeId
  }

  // ----- what every state keeps

  ghost predicate BothActive(assignments: map<Id, Assignment>, a: Id, b: Id)
    requires a in assignments && b in assignments
  {
    assignments[a].isActive && assignments[b].isActive && assignments[a].learnerId == assignments[b].learnerId
  }

  /** At most one active assignment for each learner. */
  ghost predicate OneActive(assignments: map<Id, Assignment>) {
    forall a, b :: a in assignments && b in assignments && a != b ==> !BothActive(assignments, a, b)
  }

  ghost predicate SameOutcome(rows: Rows, a: Id, b: Id)
    requires a in rows && b in rows
  {
    rows[a].assignmentId == rows[b].assignmentId && rows[a].outcomeId == rows[b].outcomeId
  }

  /** At most one row for each outcome of an assignment. */
  ghost predicate OneRowEach(rows: Rows) {
    forall a, b :: a in rows && b in rows && a != b ==> !SameOutcome(rows, a, b)
  }

  /** `achievedAt` is set exactly on achieved rows, and a row belongs to its assignment's learner. */
  ghost predicate RowFits(s: State, row: OutcomeRow) {
    && (row.achievedAt.Some? <==> row.status == Achieved)
    && row.assignmentId in s.assignments && s.assignments[row.assignmentId].learnerId == row.learnerId
  }

  ghost predicate RowsFit(s: State) {
    forall id :: id in s.rows ==> RowFits(s, s.rows[id])
  }

  ghost predicate IdsUsed(s: State) {
    && (forall id :: id in s.assignments || id in s.rows ==> id < s.nextId)
    && (forall k :: 0 <= k < |s.applied| ==> s.applied[k].rowId < s.nextId)
  }

  // ----- a row's own history

  function HistoryOf(applied: seq<Applied>, id: Id): seq<Applied> {
    if applied == [] then []
    else
      var n := |applied| - 1;
      HistoryOf(applied[..n], id) + if applied[n].rowId == id then [applied[n]] else []
  }

  function CountsOf(events: seq<Event>, id: Id): seq<nat> {
    if events == [] then []
    else
      var n := |events| - 1;
      CountsOf(events[..n], id) + if events[n].rowId == id then [events[n].attemptCount] else []
  }

  /** The attempts, counted from 1, that failed and were not the first. */
  function RepeatFailures(history: seq<Applied>): seq<nat> {
    if history == [] then []
    else
      var n := |history| - 1;
      RepeatFailures(history[..n]) + if !history[n].verdict.Achieved? && n > 0 then [n + 1] else []
  }

  /** A row shows how many verdicts it has had and exactly what the last one wrote. */
  ghost predicate Reflects(row: OutcomeRow, history: seq<Applied>) {
    && row.attemptCount == |history|
    && (history == [] ==> row.status != InProgress && row.lastScore == None)
    && (history != [] ==>
        var last := history[|history| - 1];
        && row.status == (if last.verdict.Achieved? then Achieved else InProgress)
        && row.lastScore == Some(last.score)
        && row.achievedAt == if last.verdict.Achieved? then Some(last.at) else None)
  }

  ghost predicate HistoryFits(s: State) {
    && (forall id :: id in s.rows ==> Reflects(s.rows[id], HistoryOf(s.applied, id)))
    && (forall id: Id :: CountsOf(s.events, id) == RepeatFailures(HistoryOf(s.applied, id)))
  }

  ghost predicate Inv(s: State) {
    OneActive(s.assignments) && OneRowEach(s.rows) && RowsFit(s) && IdsUsed(s) && HistoryFits(s)
  }

  lemma {:induction false} UnusedHasNoHistory(applied: seq<Applied>, id: Id)
    requires forall k :: 0 <= k < |applied| ==> applied[k].rowId != id
    ensures HistoryOf(applied, id) == []
  {
    if applied != [] {
      UnusedHasNoHistory(applied[..|applied| - 1], id);
    }
  }

  lemma HistoryPush(applied: seq<Applied>, a: Applied, id: Id)
    ensures HistoryOf(applied + [a], id) == HistoryOf(applied, id) + if a.rowId == id then [a] else []
  {
    var longer := applied + [a];
    assert longer[..|longer| - 1] == applied && longer[|longer| - 1] == a;
  }

  lemma CountsPush(events: seq<Event>, e: Event, id: Id)
    ensures CountsOf(events + [e], id) == CountsOf(events, id) + if e.rowId == id then [e.attemptCount] else []
  {
    var longer := events + [e];
    assert longer[..|longer| - 1] == events && longer[|longer| - 1] == e;
  }

  lemma RepeatsPush(history: seq<Applied>, a: Applied)
    ensures RepeatFailures(history + [a])
      == RepeatFailures(history) + if !a.verdict.Achieved? && |history| > 0 then [|history| + 1] else []
  {
    var longer := history + [a];
    assert longer[..|longer| - 1] == history && longer[|longer| - 1] == a;
  }

  // ----- single writes keep it

  lemma RetireKeeps(s: State, learner: string)
    requires Inv(s)
    ensures Inv(Retire(s, learner))
    ensures forall a :: !IsActiveOf(Retire(s, learner), learner, a)
  {
    var t := Retire(s, learner);
    forall a, b | a in t.assignments && b in t.assignments && a != b ensures !BothActive(t.assignments, a, b) {
      assert !BothActive(s.assignments, a, b);
    }
    forall id | id in t.rows ensures RowFits(t, t.rows[id]) {
      assert RowFits(s, s.rows[id]);
    }
  }

  lemma CreateAssignmentKeeps(s: State, learner: string)
    requires Inv(s) && forall a :: !IsActiveOf(s, learner, a)
    ensures Inv(CreateAssignment(s, learner))
    ensures forall a :: IsActiveOf(CreateAssignment(s, learner), learner, a) <==> a == s.nextId
  {
    var t := CreateAssignment(s, learner);
    forall a, b | a in t.assignments && b in t.assignments && a != b ensures !BothActive(t.assignments, a, b) {
      if a in s.assignments && b in s.assignments {
        assert !BothActive(s.assignments, a, b);
      }
      assert !IsActiveOf(s, learner, a) && !IsActiveOf(s, learner, b);
    }
    forall a ensures IsActiveOf(t, learner, a) <==> a == s.nextId {
      assert !IsActiveOf(s, learner, a);
    }
    forall id | id in t.rows ensures RowFits(t, t.rows[id]) {
      assert RowFits(s, s.rows[id]);
    }
  }

  lemma CreateRowKeeps(s: State, row: OutcomeRow)
    requires Inv(s) && RowFits(s, row) && Reflects(row, [])
    requires forall id :: !IsRowFor(s.rows, row.assignmentId, row.outcomeId, id)
    ensures Inv(CreateRow(s, row))
  {
    var t := CreateRow(s, row);
    forall a, b | a in t.rows && b in t.rows && a != b ensures !SameOutcome(t.rows, a, b) {
      if a in s.rows && b in s.rows {
        assert !SameOutcome(s.rows, a, b);
      }
      assert !IsRowFor(s.rows, row.assignmentId, row.outcomeId, a) && !IsRowFor(s.rows, row.assignmentId, row.outcomeId, b);
    }
    forall id | id in t.rows ensures RowFits(t, t.rows[id]) {
      if id in s.rows {
        assert RowFits(s, s.rows[id]);
      }
    }
    UnusedHasNoHistory(s.applied, s.nextId);
  }

  lemma DeleteRowKeeps(s: State, id: Id)
    requires Inv(s)
    ensures Inv(DeleteRow(s, id))
  {
    var t := DeleteRow(s, id);
    forall a, b | a in t.rows && b in t.rows && a != b ensures !SameOutcome(t.rows, a, b) {
      assert !SameOutcome(s.rows, a, b);
    }
    forall id | id in t.rows ensures RowFits(t, t.rows[id]) {
      assert RowFits(s, s.rows[id]);
    }
  }

  lemma SetPriorityKeeps(s: State, id: Id, priority: int)
    requires Inv(s) && id in s.rows
    ensures Inv(SetPriority(s, id, priority))
  {
    var t := SetPriority(s, id, priority);
    forall a, b | a in t.rows && b in t.rows && a != b ensures !SameOutcome(t.rows, a, b) {
      assert !SameOutcome(s.rows, a, b);
    }
    forall id | id in t.rows ensures RowFits(t, t.rows[id]) {
      assert RowFits(s, s.rows[id]);
    }
  }

  lemma VerdictKeepsOneHistory(s: State, id: Id, verdict: V.Verdict, score: int, now: int, other: Id)
    requires HistoryFits(s) && id in s.rows
    ensures var t := ApplyVerdict(s, id, verdict, score, now);
      && CountsOf(t.events, other) == RepeatFailures(HistoryOf(t.applied, other))
      && HistoryOf(t.applied, other)
        == HistoryOf(s.applied, other) + if other == id then [Applied(id, verdict, score, now)] else []
  {
    hide HistoryOf, CountsOf, RepeatFailures;
    var row, history, counts := s.rows[id], HistoryOf(s.applied, other), CountsOf(s.events, other);
    var event := Event(id, row.learnerId, row.outcomeId, row.attemptCount + 1);
    assert counts == RepeatFailures(history) && Reflects(row, HistoryOf(s.applied, id));
    assert history + [] == history && counts + [] == counts && s.events + [] == s.events;
    HistoryPush(s.applied, Applied(id, verdict, score, now), other);
    CountsPush(s.events, event, other);
    if other == id {
      RepeatsPush(history, Applied(id, verdict, score, now));
    }
  }

  lemma VerdictKeepsHistory(s: State, id: Id, verdict: V.Verdict, score: int, now: int)
    requires HistoryFits(s) && id in s.rows
    ensures HistoryFits(ApplyVerdict(s, id, verdict, score, now))
  {
    var t := ApplyVerdict(s, id, verdict, score, now);
    forall other: Id
      ensures CountsOf(t.events, other) == RepeatFailures(HistoryOf(t.applied, other))
      ensures other in t.rows ==> Reflects(t.rows[other], HistoryOf(t.applied, other))
    {
      VerdictKeepsOneHistory(s, id, verdict, score, now, other);
      var history := HistoryOf(s.applied, other);
      assert history + [] == history;
      assert other in s.rows ==> Reflects(s.rows[other], history);
    }
  }

  lemma ApplyVerdictKeeps(s: State, id: Id, verdict: V.Verdict, score: int, now: int)
    requires Inv(s) && id in s.rows
    ensures Inv(ApplyVerdict(s, id, verdict, score, now))
  {
    var t := ApplyVerdict(s, id, verdict, score, now);
    forall a, b | a in t.rows && b in t.rows && a != b ensures !SameOutcome(t.rows, a, b) {
      assert !SameOutcome(s.rows, a, b);
    }
    forall id | id in t.rows ensures RowFits(t, t.rows[id]) {
      assert RowFits(s, s.rows[id]);
    }
    VerdictKeepsHistory(s, id, verdict, score, now);
  }

  lemma OnlyActive(s: State, learner: string, a: Id)
    requires OneActive(s.assignments) && IsActiveOf(s, learner, a)
    ensures ActiveOf(s, learner) == Some(a)
  {
    var b := ActiveOf(s, learner).value;
    if a != b {
      assert BothActive(s.assignments, a, b);
    }
  }

  lemma OnlyRow(rows: Rows, assignment: Id, outcome: string, id: Id)
    requires OneRowEach(rows) && IsRowFor(rows, assignment, outcome, id)
    ensures RowFor(rows, assignment, outcome) == Some(id)
  {
    var other := RowFor(rows, assignment, outcome).value;
    if id != other {
      assert SameOutcome(rows, id, other);
    }
  }

  // ----- assigning

  function NewRow(learner: string, outcome: string, assignment: Id, priority: int, achieved: set<string>, now: int): OutcomeRow {
    OutcomeRow(learner, outcome, assignment, if outcome in achieved then Achieved else NotStarted, priority, false, 0, None,
               if outcome in achieved then Some(now) else None)
  }

  /** The first `k` rows of a new assignment. */
  function Materialize(s: State, learner: string, assignment: Id, outcomes: seq<string>, achieved: set<string>, now: int, k: nat): State
    requires k <= |outcomes|
  {
    if k == 0 then s
    else
      CreateRow(Materialize(s, learner, assignment, outcomes, achieved, now, k - 1),
                NewRow(learner, outcomes[k - 1], assignment, k - 1, achieved, now))
  }

  function AssignWithOutcomes(s: State, learner: string, outcomes: seq<string>, achieved: set<string>, now: int): State {
    var created := CreateAssignment(Retire(s, learner), learner);
    Materialize(created, learner, s.nextId, outcomes, achieved, now, |outcomes|)
  }

  ghost predicate IsMaterialized(s: State, t: State, learner: string, assignment: Id, outcomes: seq<string>, achieved: set<string>,
                                 now: int, k: nat)
    requires k <= |outcomes|
  {
    && t == s.(rows := t.rows, nextId := s.nextId + k)
    && (forall id :: id in t.rows <==> id in s.rows || s.nextId <= id < s.nextId + k)
    && (forall id :: id in s.rows && id < s.nextId ==> t.rows[id] == s.rows[id])
    && (forall i :: 0 <= i < k ==> t.rows[s.nextId + i] == NewRow(learner, outcomes[i], assignment, i, achieved, now))
  }

  lemma MaterializedPush(s: State, t: State, learner: string, assignment: Id, outcomes: seq<string>, achieved: set<string>,
                         now: int, k: nat)
    requires k < |outcomes| && IsMaterialized(s, t, learner, assignment, outcomes, achieved, now, k)
    ensures IsMaterialized(s, CreateRow(t, NewRow(learner, outcomes[k], assignment, k, achieved, now)), learner, assignment,
                           outcomes, achieved, now, k + 1)
  {
    var u := CreateRow(t, NewRow(learner, outcomes[k], assignment, k, achieved, now));
    forall i | 0 <= i < k + 1
      ensures u.rows[s.nextId + i] == NewRow(learner, outcomes[i], assignment, i, achieved, now)
    {
      if i < k {
        assert t.rows[s.nextId + i] == NewRow(learner, outcomes[i], assignment, i, achieved, now);
      }
    }
  }

  lemma {:induction false} MaterializeFacts(s: State, learner: string, assignment: Id, outcomes: seq<string>, achieved: set<string>,
                                            now: int, k: nat)
    requires k <= |outcomes| && NoDup(outcomes) && Inv(s)
    requires assignment in s.assignments && s.assignments[assignment].learnerId == learner
    requires forall id :: id in s.rows ==> s.rows[id].assignmentId != assignment
    ensures IsMaterialized(s, Materialize(s, learner, assignment, outcomes, achieved, now, k), learner, assignment, outcomes,
                           achieved, now, k)
    ensures Inv(Materialize(s, learner, assignment, outcomes, achieved, now, k))
  {
    hide IsMaterialized, Inv, RowFits;
    if k == 0 {
      NoneMaterialized(s, learner, assignment, outcomes, achieved, now);
    } else {
      var t := Materialize(s, learner, assignment, outcomes, achieved, now, k - 1);
      MaterializeFacts(s, learner, assignment, outcomes, achieved, now, k - 1);
      MaterializedPush(s, t, learner, assignment, outcomes, achieved, now, k - 1);
      NotMaterializedYet(s, t, learner, assignment, outcomes, achieved, now, k - 1);
      CreateRowKeeps(t, NewRow(learner, outcomes[k - 1], assignment, k - 1, achieved, now));
    }
  }

  lemma NoneMaterialized(s: State, learner: string, assignment: Id, outcomes: seq<string>, achieved: set<string>, now: int)
    requires Inv(s)
    ensures IsMaterialized(s, s, learner, assignment, outcomes, achieved, now, 0)
  {
  }

  lemma NotMaterializedYet(s: State, t: State, learner: string, assignment: Id, outcomes: seq<string>, achieved: set<string>,
                           now: int, k: nat)
    requires k < |outcomes| && NoDup(outcomes) && Inv(s)
    requires assignment in s.assignments && s.assignments[assignment].learnerId == learner
    requires IsMaterialized(s, t, learner, assignment, outcomes, achieved, now, k)
    requires forall id :: id in s.rows ==> s.rows[id].assignmentId != assignment
    ensures forall id :: !IsRowFor(t.rows, assignment, outcomes[k], id)
    ensures RowFits(t, NewRow(learner, outcomes[k], assignment, k, achieved, now))
  {
    forall id: Id ensures !IsRowFor(t.rows, assignment, outcomes[k], id) {
      if id in t.rows && s.nextId <= id {
        var i := id - s.nextId;
        assert t.rows[s.nextId + i] == NewRow(learner, outcomes[i], assignment, i, achieved, now);
      }
    }
  }

  lemma AssignKeeps(s: State, learner: string, outcomes: seq<string>, achieved: set<string>, now: int)
    requires Inv(s) && NoDup(outcomes)
    ensures Inv(AssignWithOutcomes(s, learner, outcomes, achieved, now))
    ensures IsMaterialized(CreateAssignment(Retire(s, learner), learner), AssignWithOutcomes(s, learner, outcomes, achieved, now),
                           learner, s.nextId, outcomes, achieved, now, |outcomes|)
  {
    RetireKeeps(s, learner);
    CreateAssignmentKeeps(Retire(s, learner), learner);
    forall id | id in s.rows ensures s.rows[id].assignmentId != s.nextId {
      assert RowFits(s, s.rows[id]);
    }
    MaterializeFacts(CreateAssignment(Retire(s, learner), learner), learner, s.nextId, outcomes, achieved, now, |outcomes|);
  }

  // ----- patching the active assignment

  datatype Addition = Addition(outcomeId: string, found: bool)

  datatype Priority = Priority(outcomeId: string, priority: int)

  function CustomRow(learner: string, outcome: string, assignment: Id, priority: int): OutcomeRow {
    OutcomeRow(learner, outcome, assignment, NotStarted, priority, true, 0, None, None)
  }

  ghost function AddOne(s: State, learner: string, assignment: Id, outcome: string): State {
    if RowFor(s.rows, assignment, outcome).Some? then s
    else CreateRow(s, CustomRow(learner, outcome, assignment, |RowsOf(s.rows, assignment)|))
  }

  /** The first `k` additions, up to an outcome that does not exist. */
  ghost function AddAll(s: State, learner: string, assignment: Id, add: seq<Addition>, k: nat): (State, bool)
    requires k <= |add|
  {
    if k == 0 then (s, true)
    else
      var (t, ok) := AddAll(s, learner, assignment, add, k - 1);
      if !ok || !add[k - 1].found then (t, false) else (AddOne(t, learner, assignment, add[k - 1].outcomeId), true)
  }

  ghost function RemoveOne(s: State, assignment: Id, outcome: string): (State, bool) {
    match RowFor(s.rows, assignment, outcome)
    case None => (s, true)
    case Some(id) => if s.rows[id].isCustom then (DeleteRow(s, id), true) else (s, false)
  }

  /** The first `k` removals, up to a base outcome. */
  ghost function RemoveAll(s: State, assignment: Id, remove: seq<string>, k: nat): (State, bool)
    requires k <= |remove|
  {
    if k == 0 then (s, true)
    else
      var (t, ok) := RemoveAll(s, assignment, remove, k - 1);
      if !ok then (t, false) else RemoveOne(t, assignment, remove[k - 1])
  }

  ghost function ReprioritizeOne(s: State, assignment: Id, outcome: string, priority: int): State {
    match RowFor(s.rows, assignment, outcome)
    case None => s
    case Some(id) => SetPriority(s, id, priority)
  }

  ghost function ReprioritizeAll(s: State, assignment: Id, priorities: seq<Priority>, k: nat): State
    requires k <= |priorities|
  {
    if k == 0 then s
    else
      var t := ReprioritizeAll(s, assignment, priorities, k - 1);
      ReprioritizeOne(t, assignment, priorities[k - 1].outcomeId, priorities[k - 1].priority)
  }

  datatype Answer = Done | NotFound | Invalid

  ghost function PatchRows(s: State, learner: string, assignment: Id, add: seq<Addition>, remove: seq<string>,
                           priorities: seq<Priority>): (State, Answer) {
    var (added, found) := AddAll(s, learner, assignment, add, |add|);
    if !found then (added, Invalid)
    else
      var (removed, custom) := RemoveAll(added, assignment, remove, |remove|);
      if !custom then (removed, Invalid) else (ReprioritizeAll(removed, assignment, priorities, |priorities|), Done)
  }

  ghost function PatchOutcomes(s: State, learner: string, add: seq<Addition>, remove: seq<string>,
                               priorities: seq<Priority>): (State, Answer) {
    match ActiveOf(s, learner)
    case None => (s, Invalid)
    case Some(a) => PatchRows(s, learner, a, add, remove, priorities)
  }

  // ----- what a patch does to the rows of an assignment

  function OutcomesOf(rows: Rows, assignment: Id): set<string> {
    set id | id in rows && rows[id].assignmentId == assignment :: rows[id].outcomeId
  }

  /** The outcomes that came with the level. */
  function BaseOf(rows: Rows, assignment: Id): set<string> {
    set id | id in rows && rows[id].assignmentId == assignment && !rows[id].isCustom :: rows[id].outcomeId
  }

  predicate IsBaseRowFor(rows: Rows, assignment: Id, outcome: string, id: Id) {
    IsRowFor(rows, assignment, outcome, id) && !rows[id].isCustom
  }

  lemma OutcomesMean(rows: Rows, assignment: Id)
    ensures forall o :: o in OutcomesOf(rows, assignment) <==> exists id :: IsRowFor(rows, assignment, o, id)
    ensures forall o :: o in BaseOf(rows, assignment) <==> exists id :: IsBaseRowFor(rows, assignment, o, id)
  {
    forall o | o in OutcomesOf(rows, assignment) ensures exists id :: IsRowFor(rows, assignment, o, id) {
      var id :| id in rows && rows[id].assignmentId == assignment && rows[id].outcomeId == o;
      assert IsRowFor(rows, assignment, o, id);
    }
    forall o | o in BaseOf(rows, assignment) ensures exists id :: IsBaseRowFor(rows, assignment, o, id) {
      var id :| id in rows && rows[id].assignmentId == assignment && !rows[id].isCustom && rows[id].outcomeId == o;
      assert IsBaseRowFor(rows, assignment, o, id);
    }
  }

  predicate SameButPriority(r: OutcomeRow, q: OutcomeRow) {
    q == r.(priority := q.priority)
  }

  /** Only custom rows of this assignment come or go; rows change in nothing but
      their priority, and in that only in this assignment and once it is `prioritized`. */
  ghost predicate Patched(s: State, t: State, assignment: Id, prioritized: bool) {
    && t == s.(rows := t.rows, nextId := t.nextId) && s.nextId <= t.nextId
    && (forall id :: id in s.rows && id in t.rows ==> SameButPriority(s.rows[id], t.rows[id]))
    && (forall id :: id in s.rows && id in t.rows && !prioritized ==> t.rows[id] == s.rows[id])
    && (forall id :: id in s.rows && s.rows[id].assignmentId != assignment ==> id in t.rows && t.rows[id] == s.rows[id])
    && (forall id :: id in s.rows && !s.rows[id].isCustom ==> id in t.rows)
    && (forall id :: id in t.rows && id !in s.rows ==>
        s.nextId <= id && t.rows[id].isCustom && t.rows[id].assignmentId == assignment)
  }

  lemma PatchedTwice(s: State, t: State, u: State, assignment: Id, first: bool, second: bool)
    requires IdsUsed(s) && Patched(s, t, assignment, first) && Patched(t, u, assignment, second)
    ensures Patched(s, u, assignment, first || second)
  {
    forall id | id in s.rows && id in u.rows ensures SameButPriority(s.rows[id], u.rows[id]) {
      assert id in t.rows;
    }
  }

  lemma AddOneFacts(s: State, learner: string, assignment: Id, outcome: string)
    requires Inv(s) && IsActiveOf(s, learner, assignment)
    ensures Inv(AddOne(s, learner, assignment, outcome)) && Patched(s, AddOne(s, learner, assignment, outcome), assignment, false)
    ensures OutcomesOf(AddOne(s, learner, assignment, outcome).rows, assignment) == OutcomesOf(s.rows, assignment) + {outcome}
    ensures BaseOf(AddOne(s, learner, assignment, outcome).rows, assignment) == BaseOf(s.rows, assignment)
  {
    hide OutcomesOf, BaseOf, Patched, Inv, RowsOf;
    if RowFor(s.rows, assignment, outcome).Some? {
      OutcomesMean(s.rows, assignment);
      assert IsRowFor(s.rows, assignment, outcome, RowFor(s.rows, assignment, outcome).value);
      PatchedNone(s, assignment, false);
    } else {
      var row := CustomRow(learner, outcome, assignment, |RowsOf(s.rows, assignment)|);
      CreateCustomRow(s, row, learner);
      CreateRowKeeps(s, row);
      NewRowOutcomes(s.rows, s.nextId, row, assignment);
    }
  }

  lemma PatchedNone(s: State, assignment: Id, prioritized: bool)
    ensures Patched(s, s, assignment, prioritized)
  {
  }

  lemma CreateCustomRow(s: State, row: OutcomeRow, learner: string)
    requires Inv(s) && IsActiveOf(s, learner, row.assignmentId)
    requires row.isCustom && row.learnerId == learner && row.status == NotStarted && row.achievedAt == None
    ensures RowFits(s, row) && s.nextId !in s.rows
    ensures Patched(s, CreateRow(s, row), row.assignmentId, false)
  {
  }

  lemma NewRowOutcomes(rows: Rows, id: Id, row: OutcomeRow, assignment: Id)
    requires id !in rows && row.assignmentId == assignment && row.isCustom
    ensures OutcomesOf(rows[id := row], assignment) == OutcomesOf(rows, assignment) + {row.outcomeId}
    ensures BaseOf(rows[id := row], assignment) == BaseOf(rows, assignment)
  {
    var now := rows[id := row];
    OutcomesMean(rows, assignment);
    OutcomesMean(now, assignment);
    hide OutcomesOf, BaseOf;
    assert IsRowFor(now, assignment, row.outcomeId, id);
    forall o, other | IsRowFor(rows, assignment, o, other) ensures IsRowFor(now, assignment, o, other) {
    }
    forall o, other | IsBaseRowFor(rows, assignment, o, other) ensures IsBaseRowFor(now, assignment, o, other) {
    }
    forall o, other | IsRowFor(now, assignment, o, other) && other != id ensures IsRowFor(rows, assignment, o, other) {
    }
    forall o, other | IsBaseRowFor(now, assignment, o, other) ensures IsBaseRowFor(rows, assignment, o, other) {
    }
  }

  lemma RemovedRowOutcomes(rows: Rows, id: Id)
    requires OneRowEach(rows) && id in rows && rows[id].isCustom
    ensures OutcomesOf(rows - {id}, rows[id].assignmentId) == OutcomesOf(rows, rows[id].assignmentId) - {rows[id].outcomeId}
    ensures BaseOf(rows - {id}, rows[id].assignmentId) == BaseOf(rows, rows[id].assignmentId)
  {
    var rest, a, outcome := rows - {id}, rows[id].assignmentId, rows[id].outcomeId;
    OutcomesMean(rows, a);
    OutcomesMean(rest, a);
    hide OutcomesOf, BaseOf;
    forall o, other | IsRowFor(rest, a, o, other) ensures IsRowFor(rows, a, o, other) && o != outcome {
      assert !SameOutcome(rows, id, other);
    }
    forall o, other | IsRowFor(rows, a, o, other) && o != outcome ensures IsRowFor(rest, a, o, other) {
    }
    forall o, other | IsBaseRowFor(rows, a, o, other) ensures IsBaseRowFor(rest, a, o, other) {
    }
    forall o, other | IsBaseRowFor(rest, a, o, other) ensures IsBaseRowFor(rows, a, o, other) {
    }
  }

  lemma RemoveOneFacts(s: State, assignment: Id, outcome: string)
    requires Inv(s)
    ensures Inv(RemoveOne(s, assignment, outcome).0) && Patched(s, RemoveOne(s, assignment, outcome).0, assignment, false)
    ensures RemoveOne(s, assignment, outcome).1 <==> outcome !in BaseOf(s.rows, assignment)
    ensures RemoveOne(s, assignment, outcome).1 ==>
      OutcomesOf(RemoveOne(s, assignment, outcome).0.rows, assignment) == OutcomesOf(s.rows, assignment) - {outcome}
    ensures BaseOf(RemoveOne(s, assignment, outcome).0.rows, assignment) == BaseOf(s.rows, assignment)
  {
    OutcomesMean(s.rows, assignment);
    assert OneRowEach(s.rows);
    hide OutcomesOf, BaseOf, Inv, Patched, OneRowEach;
    match RowFor(s.rows, assignment, outcome)
    case None => PatchedNone(s, assignment, false);
    case Some(id) =>
      assert IsRowFor(s.rows, assignment, outcome, id);
      if s.rows[id].isCustom {
        DeleteRowKeeps(s, id);
        DeleteRowPatches(s, id);
        RemovedRowOutcomes(s.rows, id);
        if other :| IsBaseRowFor(s.rows, assignment, outcome, other) {
          OnlyRow(s.rows, assignment, outcome, other);
        }
      } else {
        assert IsBaseRowFor(s.rows, assignment, outcome, id);
        PatchedNone(s, assignment, false);
      }
  }

  lemma DeleteRowPatches(s: State, id: Id)
    requires id in s.rows && s.rows[id].isCustom
    ensures Patched(s, DeleteRow(s, id), s.rows[id].assignmentId, false)
  {
  }

  lemma PriorityOutcomes(rows: Rows, id: Id, priority: int, assignment: Id)
    requires id in rows
    ensures OutcomesOf(rows[id := rows[id].(priority := priority)], assignment) == OutcomesOf(rows, assignment)
  {
    var now := rows[id := rows[id].(priority := priority)];
    OutcomesMean(rows, assignment);
    OutcomesMean(now, assignment);
    hide OutcomesOf, BaseOf;
    forall o, other ensures IsRowFor(rows, assignment, o, other) <==> IsRowFor(now, assignment, o, other) {
    }
  }

  lemma SetPriorityPatches(s: State, id: Id, priority: int, assignment: Id)
    requires id in s.rows && s.rows[id].assignmentId == assignment
    ensures Patched(s, SetPriority(s, id, priority), assignment, true)
  {
  }

  lemma ReprioritizeOneFacts(s: State, assignment: Id, outcome: string, priority: int)
    requires Inv(s)
    ensures Inv(ReprioritizeOne(s, assignment, outcome, priority))
    ensures Patched(s, ReprioritizeOne(s, assignment, outcome, priority), assignment, true)
    ensures OutcomesOf(ReprioritizeOne(s, assignment, outcome, priority).rows, assignment) == OutcomesOf(s.rows, assignment)
  {
    hide Inv, Patched, OutcomesOf;
    match RowFor(s.rows, assignment, outcome)
    case None => PatchedNone(s, assignment, true);
    case Some(id) =>
      assert IsRowFor(s.rows, assignment, outcome, id);
      SetPriorityKeeps(s, id, priority);
      SetPriorityPatches(s, id, priority, assignment);
      PriorityOutcomes(s.rows, id, priority, assignment);
  }

  function Added(add: seq<Addition>, k: nat): set<string>
    requires k <= |add|
  {
    set i | 0 <= i < k :: add[i].outcomeId
  }

  lemma NothingAdded(add: seq<Addition>)
    ensures Added(add, 0) == {}
  {
  }

  lemma OneMoreAdded(add: seq<Addition>, k: nat)
    requires k < |add|
    ensures Added(add, k + 1) == Added(add, k) + {add[k].outcomeId}
  {
  }

  ghost predicate AllFound(add: seq<Addition>, k: nat)
    requires k <= |add|
  {
    forall i :: 0 <= i < k ==> add[i].found
  }

  lemma {:induction false} AddAllFacts(s: State, learner: string, assignment: Id, add: seq<Addition>, k: nat)
    requires k <= |add| && Inv(s) && IsActiveOf(s, learner, assignment)
    ensures Inv(AddAll(s, learner, assignment, add, k).0) && Patched(s, AddAll(s, learner, assignment, add, k).0, assignment, false)
    ensures AddAll(s, learner, assignment, add, k).1 <==> AllFound(add, k)
    ensures AllFound(add, k) ==>
      OutcomesOf(AddAll(s, learner, assignment, add, k).0.rows, assignment) == OutcomesOf(s.rows, assignment) + Added(add, k)
    ensures BaseOf(AddAll(s, learner, assignment, add, k).0.rows, assignment) == BaseOf(s.rows, assignment)
  {
    hide Inv, Patched, OutcomesOf, BaseOf, Added;
    if k == 0 {
      PatchedNone(s, assignment, false);
      NothingAdded(add);
    } else {
      AddAllFacts(s, learner, assignment, add, k - 1);
      var (t, ok) := AddAll(s, learner, assignment, add, k - 1);
      OneMoreAdded(add, k - 1);
      if ok && add[k - 1].found {
        ActiveThroughout(s, t, learner, assignment);
        AddOneFacts(t, learner, assignment, add[k - 1].outcomeId);
        PatchedAgain(s, t, AddOne(t, learner, assignment, add[k - 1].outcomeId), assignment, false, false);
      }
    }
  }

  lemma ActiveThroughout(s: State, t: State, learner: string, assignment: Id)
    requires Patched(s, t, assignment, false) && IsActiveOf(s, learner, assignment)
    ensures IsActiveOf(t, learner, assignment)
  {
  }

  lemma PatchedAgain(s: State, t: State, u: State, assignment: Id, first: bool, second: bool)
    requires Inv(s) && Patched(s, t, assignment, first) && Patched(t, u, assignment, second)
    ensures Patched(s, u, assignment, first || second)
  {
    PatchedTwice(s, t, u, assignment, first, second);
  }

  ghost predicate NoneIn(remove: seq<string>, k: nat, base: set<string>)
    requires k <= |remove|
  {
    forall i :: 0 <= i < k ==> remove[i] !in base
  }

  lemma NothingRemoved(remove: seq<string>)
    ensures SetOf(remove[..0]) == {}
  {
  }

  lemma {:induction false} RemoveAllFacts(s: State, assignment: Id, remove: seq<string>, k: nat)
    requires k <= |remove| && Inv(s)
    ensures Inv(RemoveAll(s, assignment, remove, k).0) && Patched(s, RemoveAll(s, assignment, remove, k).0, assignment, false)
    ensures RemoveAll(s, assignment, remove, k).1 <==> NoneIn(remove, k, BaseOf(s.rows, assignment))
    ensures RemoveAll(s, assignment, remove, k).1 ==>
      OutcomesOf(RemoveAll(s, assignment, remove, k).0.rows, assignment) == OutcomesOf(s.rows, assignment) - SetOf(remove[..k])
    ensures BaseOf(RemoveAll(s, assignment, remove, k).0.rows, assignment) == BaseOf(s.rows, assignment)
  {
    hide Inv, Patched, OutcomesOf, BaseOf, SetOf;
    if k == 0 {
      PatchedNone(s, assignment, false);
      NothingRemoved(remove);
    } else {
      RemoveAllFacts(s, assignment, remove, k - 1);
      var (t, ok) := RemoveAll(s, assignment, remove, k - 1);
      TakeMore(remove, k - 1);
      SetOfPush(remove[..k - 1], remove[k - 1]);
      if ok {
        RemoveOneFacts(t, assignment, remove[k - 1]);
        PatchedAgain(s, t, RemoveOne(t, assignment, remove[k - 1]).0, assignment, false, false);
      }
    }
  }

  lemma {:induction false} ReprioritizeAllFacts(s: State, assignment: Id, priorities: seq<Priority>, k: nat)
    requires k <= |priorities| && Inv(s)
    ensures Inv(ReprioritizeAll(s, assignment, priorities, k))
    ensures Patched(s, ReprioritizeAll(s, assignment, priorities, k), assignment, true)
    ensures OutcomesOf(ReprioritizeAll(s, assignment, priorities, k).rows, assignment) == OutcomesOf(s.rows, assignment)
  {
    if k > 0 {
      ReprioritizeAllFacts(s, assignment, priorities, k - 1);
      hide Inv, Patched, OutcomesOf;
      var t := ReprioritizeAll(s, assignment, priorities, k - 1);
      ReprioritizeOneFacts(t, assignment, priorities[k - 1].outcomeId, priorities[k - 1].priority);
      PatchedAgain(s, t, ReprioritizeAll(s, assignment, priorities, k), assignment, true, true);
    }
  }

  /** The last of the first `k` priorities given for an outcome. */
  function LastPriority(priorities: seq<Priority>, k: nat, outcome: string): Option<int>
    requires k <= |priorities|
  {
    if k == 0 then None
    else if priorities[k - 1].outcomeId == outcome then Some(priorities[k - 1].priority)
    else LastPriority(priorities, k - 1, outcome)
  }

  function Reprioritized(row: OutcomeRow, assignment: Id, priorities: seq<Priority>, k: nat): OutcomeRow
    requires k <= |priorities|
  {
    if row.assignmentId == assignment && LastPriority(priorities, k, row.outcomeId).Some?
    then row.(priority := LastPriority(priorities, k, row.outcomeId).value)
    else row
  }

  function WithPriority(row: OutcomeRow, assignment: Id, outcome: string, priority: int): OutcomeRow {
    if row.assignmentId == assignment && row.outcomeId == outcome then row.(priority := priority) else row
  }

  lemma OnePriorityIs(s: State, assignment: Id, outcome: string, priority: int)
    requires Inv(s)
    ensures ReprioritizeOne(s, assignment, outcome, priority).rows
      == map id | id in s.rows :: WithPriority(s.rows[id], assignment, outcome, priority)
  {
    forall id | id in s.rows && s.rows[id].assignmentId == assignment && s.rows[id].outcomeId == outcome
      ensures RowFor(s.rows, assignment, outcome) == Some(id)
    {
      OnlyRow(s.rows, assignment, outcome, id);
    }
    if RowFor(s.rows, assignment, outcome).Some? {
      assert IsRowFor(s.rows, assignment, outcome, RowFor(s.rows, assignment, outcome).value);
    }
  }

  ghost predicate Prioritized(s: State, t: State, assignment: Id, priorities: seq<Priority>, k: nat)
    requires k <= |priorities|
  {
    t.rows.Keys == s.rows.Keys && forall id :: id in s.rows ==> t.rows[id] == Reprioritized(s.rows[id], assignment, priorities, k)
  }

  lemma {:induction false} PrioritiesAre(s: State, assignment: Id, priorities: seq<Priority>, k: nat)
    requires k <= |priorities| && Inv(s)
    ensures Prioritized(s, ReprioritizeAll(s, assignment, priorities, k), assignment, priorities, k)
  {
    hide Inv, ReprioritizeOne, Prioritized;
    if k == 0 {
      PrioritizedNone(s, assignment, priorities);
    } else {
      PrioritiesAre(s, assignment, priorities, k - 1);
      ReprioritizeAllFacts(s, assignment, priorities, k - 1);
      var t := ReprioritizeAll(s, assignment, priorities, k - 1);
      OnePriorityIs(t, assignment, priorities[k - 1].outcomeId, priorities[k - 1].priority);
      PrioritizedMore(s, t, ReprioritizeAll(s, assignment, priorities, k), assignment, priorities, k - 1);
    }
  }

  lemma PrioritizedNone(s: State, assignment: Id, priorities: seq<Priority>)
    ensures Prioritized(s, s, assignment, priorities, 0)
  {
  }

  lemma PrioritizedMore(s: State, t: State, u: State, assignment: Id, priorities: seq<Priority>, k: nat)
    requires k < |priorities| && Prioritized(s, t, assignment, priorities, k)
    requires u.rows == map id | id in t.rows :: WithPriority(t.rows[id], assignment, priorities[k].outcomeId, priorities[k].priority)
    ensures Prioritized(s, u, assignment, priorities, k + 1)
  {
    forall id | id in s.rows
      ensures id in u.rows && u.rows[id] == Reprioritized(s.rows[id], assignment, priorities, k + 1)
    {
      assert t.rows[id] == Reprioritized(s.rows[id], assignment, priorities, k);
    }
  }

  /** After a successful patch, an outcome has the last priority the patch gives it; rows it gives none are as they were. */
  lemma PatchPrioritiesExactly(s: State, learner: string, assignment: Id, add: seq<Addition>, remove: seq<string>,
                               priorities: seq<Priority>)
    requires Inv(s) && IsActiveOf(s, learner, assignment)
    requires PatchOutcomes(s, learner, add, remove, priorities).1 == Done
    ensures var t := PatchOutcomes(s, learner, add, remove, priorities).0;
      forall id :: id in t.rows && t.rows[id].assignmentId == assignment ==> HasLastPriority(s, t.rows[id], id, priorities)
  {
    OnlyActiveInv(s, learner, assignment);
    AddAllFacts(s, learner, assignment, add, |add|);
    var added := AddAll(s, learner, assignment, add, |add|).0;
    RemoveAllFacts(added, assignment, remove, |remove|);
    var removed := RemoveAll(added, assignment, remove, |remove|).0;
    PatchedAgain(s, added, removed, assignment, false, false);
    PrioritiesAre(removed, assignment, priorities, |priorities|);
    hide *;
    PriorityFollows(s, removed, ReprioritizeAll(removed, assignment, priorities, |priorities|), assignment, priorities);
    PatchesDone(s, learner, assignment, add, remove, priorities);
  }

  ghost predicate HasLastPriority(s: State, row: OutcomeRow, id: Id, priorities: seq<Priority>) {
    match LastPriority(priorities, |priorities|, row.outcomeId)
    case Some(p) => row.priority == p
    case None => id in s.rows ==> row == s.rows[id]
  }

  lemma PriorityFollows(s: State, removed: State, t: State, assignment: Id, priorities: seq<Priority>)
    requires Patched(s, removed, assignment, false) && Prioritized(removed, t, assignment, priorities, |priorities|)
    ensures forall id :: id in t.rows && t.rows[id].assignmentId == assignment ==> HasLastPriority(s, t.rows[id], id, priorities)
  {
    hide LastPriority;
  }

  lemma PatchesDone(s: State, learner: string, assignment: Id, add: seq<Addition>, remove: seq<string>, priorities: seq<Priority>)
    requires ActiveOf(s, learner) == Some(assignment)
    requires PatchOutcomes(s, learner, add, remove, priorities).1 == Done
    ensures var added := AddAll(s, learner, assignment, add, |add|).0;
      PatchOutcomes(s, learner, add, remove, priorities).0
        == ReprioritizeAll(RemoveAll(added, assignment, remove, |remove|).0, assignment, priorities, |priorities|)
  {
    hide ActiveOf, AddAll, RemoveAll, ReprioritizeAll;
  }

  /** A patch succeeds exactly when every added outcome exists and no removed one belongs to the level; then the
      assignment has its outcomes plus the added less the removed. Either way no base row goes. */
  lemma PatchExactly(s: State, learner: string, assignment: Id, add: seq<Addition>, remove: seq<string>, priorities: seq<Priority>)
    requires Inv(s) && IsActiveOf(s, learner, assignment)
    ensures var (t, answer) := PatchOutcomes(s, learner, add, remove, priorities);
      && Inv(t) && Patched(s, t, assignment, true)
      && (answer == Done <==> AllFound(add, |add|) && NoneIn(remove, |remove|, BaseOf(s.rows, assignment)))
      && (answer == Done ==>
          OutcomesOf(t.rows, assignment) == OutcomesOf(s.rows, assignment) + Added(add, |add|) - SetOf(remove))
  {
    OnlyActiveInv(s, learner, assignment);
    AddAllFacts(s, learner, assignment, add, |add|);
    var added := AddAll(s, learner, assignment, add, |add|).0;
    RemoveAllFacts(added, assignment, remove, |remove|);
    var removed := RemoveAll(added, assignment, remove, |remove|).0;
    ReprioritizeAllFacts(removed, assignment, priorities, |priorities|);
    assert remove[..|remove|] == remove;
    hide Inv, Patched, OutcomesOf, BaseOf, Added, SetOf, IsActiveOf, AllFound, NoneIn;
    PatchedAgain(s, added, removed, assignment, false, false);
    var done := ReprioritizeAll(removed, assignment, priorities, |priorities|);
    PatchedAgain(s, removed, done, assignment, false, true);
    PatchedNone(s, assignment, true);
    PatchedAgain(s, s, added, assignment, true, false);
    PatchedAgain(s, s, removed, assignment, true, false);
  }

  lemma OnlyActiveInv(s: State, learner: string, assignment: Id)
    requires Inv(s) && IsActiveOf(s, learner, assignment)
    ensures ActiveOf(s, learner) == Some(assignment)
  {
    OnlyActive(s, learner, assignment);
  }
}
