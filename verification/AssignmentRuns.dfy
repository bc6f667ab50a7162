/** Runs of requests against learners' assignments, and the services that serve them. */
module AssignmentRuns {
  import opened Wrappers
  import opened Seqs
  import opened Assignments
  import opened RefusedPatches
  import opened AssignmentEffects
  import V = Verdict

  datatype LevelOutcome = LevelOutcome(id: string, isEnabled: bool)

  /** What the learner, track and level lookups of one assign request returned. */
  datatype Lookups = Lookups(learnerFound: bool, trackUsable: bool, levelUsable: bool, outcomes: seq<LevelOutcome>)

  datatype Operation =
    | Assign(learnerId: string, lookups: Lookups, now: int)
    | Patch(learnerId: string, add: seq<Addition>, remove: seq<string>, priorities: seq<Priority>)
    | DeactivateAll(learnerId: string)
    | Complete(learnerId: string, verdict: V.Verdict, score: int, outcomes: seq<string>, now: int)

  function EnabledIds(outcomes: seq<LevelOutcome>): seq<string> {
    if outcomes == [] then []
    else
      var n := |outcomes| - 1;
      EnabledIds(outcomes[..n]) + if outcomes[n].isEnabled then [outcomes[n].id] else []
  }

  /** A level's outcomes are different rows. */
  ghost predicate DistinctOutcomes(outcomes: seq<LevelOutcome>) {
    forall i, j :: 0 <= i < j < |outcomes| ==> outcomes[i].id != outcomes[j].id
  }

  lemma {:induction false} EnabledIdsFacts(outcomes: seq<LevelOutcome>)
    ensures forall o :: o in EnabledIds(outcomes) <==> LevelOutcome(o, true) in outcomes
    ensures DistinctOutcomes(outcomes) ==> NoDup(EnabledIds(outcomes))
  {
    if outcomes != [] {
      var n := |outcomes| - 1;
      EnabledIdsFacts(outcomes[..n]);
      assert outcomes == outcomes[..n] + [outcomes[n]];
      if DistinctOutcomes(outcomes) && outcomes[n].isEnabled {
        forall k | 0 <= k < |EnabledIds(outcomes[..n])| ensures EnabledIds(outcomes[..n])[k] != outcomes[n].id {
          assert LevelOutcome(EnabledIds(outcomes[..n])[k], true) in outcomes[..n];
        }
      }
    }
  }

  function AssignStep(s: State, learner: string, lookups: Lookups, now: int): (State, Answer) {
    if !lookups.learnerFound then (s, NotFound)
    else if !lookups.trackUsable || !lookups.levelUsable then (s, Invalid)
    else (AssignWithOutcomes(s, learner, EnabledIds(lookups.outcomes), AchievedBy(s.rows, learner), now), Done)
  }

  ghost function JudgeOne(s: State, assignment: Id, outcome: string, verdict: V.Verdict, score: int, now: int): State {
    match RowFor(s.rows, assignment, outcome)
    case None => s
    case Some(id) => ApplyVerdict(s, id, verdict, score, now)
  }

  /** The first `k` outcomes of a completed session. */
  ghost function JudgeAll(s: State, assignment: Id, verdict: V.Verdict, score: int, outcomes: seq<string>, now: int, k: nat): State
    requires k <= |outcomes|
  {
    if k == 0 then s
    else
      JudgeOne(JudgeAll(s, assignment, verdict, score, outcomes, now, k - 1), assignment, outcomes[k - 1], verdict, score, now)
  }

  ghost function CompleteStep(s: State, learner: string, verdict: V.Verdict, score: int, outcomes: seq<string>, now: int): State {
    match ActiveOf(s, learner)
    case None => s
    case Some(a) => JudgeAll(s, a, verdict, score, outcomes, now, |outcomes|)
  }

  ghost function Step(s: State, op: Operation): (State, Answer) {
    match op
    case Assign(learner, lookups, now) => AssignStep(s, learner, lookups, now)
    case Patch(learner, add, remove, priorities) => PatchOutcomes(s, learner, add, remove, priorities)
    case DeactivateAll(learner) => (Retire(s, learner), Done)
    case Complete(learner, verdict, score, outcomes, now) => (CompleteStep(s, learner, verdict, score, outcomes, now), Done)
  }

  ghost function Run(s: State, ops: seq<Operation>): State
    decreases |ops|
  {
    if ops == [] then s else Run(Step(s, ops[0]).0, ops[1..])
  }

  ghost predicate WellFormed(op: Operation) {
    op.Assign? ==> DistinctOutcomes(op.lookups.outcomes)
  }

  // ----- every state of a run

  lemma {:induction false} JudgeAllKeeps(s: State, assignment: Id, verdict: V.Verdict, score: int, outcomes: seq<string>, now: int, k: nat)
    requires k <= |outcomes| && Inv(s)
    ensures Inv(JudgeAll(s, assignment, verdict, score, outcomes, now, k))
    ensures JudgeAll(s, assignment, verdict, score, outcomes, now, k).assignments == s.assignments
  {
    hide Inv;
    if k > 0 {
      JudgeAllKeeps(s, assignment, verdict, score, outcomes, now, k - 1);
      var t := JudgeAll(s, assignment, verdict, score, outcomes, now, k - 1);
      match RowFor(t.rows, assignment, outcomes[k - 1])
      case None =>
      case Some(id) => ApplyVerdictKeeps(t, id, verdict, score, now);
    }
  }

  lemma StepKeeps(s: State, op: Operation)
    requires Inv(s) && WellFormed(op)
    ensures Inv(Step(s, op).0)
  {
    hide Inv, AssignWithOutcomes, Retire, PatchRows, JudgeAll, IsActiveOf;
    match op
    case Assign(learner, lookups, now) =>
      EnabledIdsFacts(lookups.outcomes);
      AssignKeeps(s, learner, EnabledIds(lookups.outcomes), AchievedBy(s.rows, learner), now);
    case Patch(learner, add, remove, priorities) =>
      if ActiveOf(s, learner).Some? {
        PatchExactly(s, learner, ActiveOf(s, learner).value, add, remove, priorities);
      }
    case DeactivateAll(learner) =>
      RetireKeeps(s, learner);
    case Complete(learner, verdict, score, outcomes, now) =>
      if ActiveOf(s, learner).Some? {
        JudgeAllKeeps(s, ActiveOf(s, learner).value, verdict, score, outcomes, now, |outcomes|);
      }
  }

  lemma {:induction false} RunKeeps(s: State, ops: seq<Operation>)
    requires Inv(s) && forall k :: 0 <= k < |ops| ==> WellFormed(ops[k])
    ensures Inv(Run(s, ops))
    decreases |ops|
  {
    if ops != [] {
      assert WellFormed(ops[0]);
      StepKeeps(s, ops[0]);
      RunKeeps(Step(s, ops[0]).0, ops[1..]);
    }
  }

  lemma EmptyIsFine()
    ensures Inv(EMPTY)
  {
  }

  /** After any run from nothing: one active assignment a learner, one row an outcome, and a date exactly on what is achieved. */
  lemma EveryRun(ops: seq<Operation>)
    requires forall k :: 0 <= k < |ops| ==> WellFormed(ops[k])
    ensures var s := Run(EMPTY, ops);
      && OneActive(s.assignments) && OneRowEach(s.rows)
      && forall id :: id in s.rows ==> (s.rows[id].achievedAt.Some? <==> s.rows[id].status == Achieved)
  {
    EmptyIsFine();
    RunKeeps(EMPTY, ops);
    var s := Run(EMPTY, ops);
    forall id | id in s.rows ensures s.rows[id].achievedAt.Some? <==> s.rows[id].status == Achieved {
      assert RowFits(s, s.rows[id]);
    }
  }

  // ----- what a new assignment starts from

  /** One row for each enabled outcome of the level, achieved from the start exactly if some earlier row of the learner was. */
  lemma AssignStartsExactly(s: State, learner: string, lookups: Lookups, now: int)
    requires Inv(s) && DistinctOutcomes(lookups.outcomes)
    requires AssignStep(s, learner, lookups, now).1 == Done
    ensures var t := AssignStep(s, learner, lookups, now).0;
      && (forall a :: IsActiveOf(t, learner, a) <==> a == s.nextId)
      && (forall o :: LevelOutcome(o, true) in lookups.outcomes <==> exists id :: IsRowFor(t.rows, s.nextId, o, id))
      && (forall o, id :: IsRowFor(t.rows, s.nextId, o, id) ==>
          (t.rows[id].status == Achieved <==> AchievedEarlier(s.rows, learner, o))
          && (t.rows[id].status != Achieved ==> t.rows[id].status == NotStarted))
      && (forall id :: id in s.rows ==> id in t.rows && t.rows[id] == s.rows[id])
  {
    var outcomes, achieved := EnabledIds(lookups.outcomes), AchievedBy(s.rows, learner);
    EnabledIdsFacts(lookups.outcomes);
    RetireKeeps(s, learner);
    CreateAssignmentKeeps(Retire(s, learner), learner);
    AssignKeeps(s, learner, outcomes, achieved, now);
    var created := CreateAssignment(Retire(s, learner), learner);
    var t := AssignWithOutcomes(s, learner, outcomes, achieved, now);
    forall a ensures IsActiveOf(t, learner, a) <==> a == s.nextId {
      assert IsActiveOf(created, learner, a) <==> IsActiveOf(t, learner, a);
    }
    forall o ensures LevelOutcome(o, true) in lookups.outcomes <==> exists id :: IsRowFor(t.rows, s.nextId, o, id) {
      NewRowsAre(s, created, t, learner, outcomes, achieved, now, o);
    }
    forall o, id: Id | IsRowFor(t.rows, s.nextId, o, id)
      ensures t.rows[id].status == (if AchievedEarlier(s.rows, learner, o) then Achieved else NotStarted)
    {
      NewRowsAre(s, created, t, learner, outcomes, achieved, now, o);
      AchievedMeans(s.rows, learner, o);
    }
  }

  lemma NewRowsAre(s: State, created: State, t: State, learner: string, outcomes: seq<string>, achieved: set<string>, now: int, o: string)
    requires Inv(s) && created.rows == s.rows && created.nextId == s.nextId + 1
    requires IsMaterialized(created, t, learner, s.nextId, outcomes, achieved, now, |outcomes|)
    ensures o in outcomes <==> exists id :: IsRowFor(t.rows, s.nextId, o, id)
    ensures forall id :: IsRowFor(t.rows, s.nextId, o, id) ==>
      t.rows[id].status == if o in achieved then Achieved else NotStarted
  {
    if o in outcomes {
      var i :| 0 <= i < |outcomes| && outcomes[i] == o;
      assert t.rows[created.nextId + i] == NewRow(learner, outcomes[i], s.nextId, i, achieved, now);
      assert IsRowFor(t.rows, s.nextId, o, created.nextId + i);
    }
    forall id | id in s.rows ensures s.rows[id].assignmentId != s.nextId {
      assert RowFits(s, s.rows[id]);
    }
    forall id: Id | IsRowFor(t.rows, s.nextId, o, id)
      ensures o in outcomes && t.rows[id].status == if o in achieved then Achieved else NotStarted
    {
      var i := id - created.nextId;
      assert t.rows[created.nextId + i] == NewRow(learner, outcomes[i], s.nextId, i, achieved, now);
    }
  }

  // ----- what a completed session writes

  ghost predicate HasActive(s: State, learner: string, assignment: Id) {
    assignment in s.assignments && s.assignments[assignment].learnerId == learner && s.assignments[assignment].isActive
  }

  /** A row after `times` verdicts of one session. */
  ghost predicate IsJudged(before: OutcomeRow, after: OutcomeRow, verdict: V.Verdict, score: int, now: int, times: nat) {
    if times == 0 then after == before
    else
      && after.learnerId == before.learnerId && after.outcomeId == before.outcomeId && after.assignmentId == before.assignmentId
      && after.priority == before.priority && after.isCustom == before.isCustom
      && after.attemptCount == before.attemptCount + times && after.lastScore == Some(score)
      && (verdict.Achieved? ==> after.status == Achieved && after.achievedAt == Some(now))
      && (!verdict.Achieved? ==> after.status == InProgress && after.achievedAt == None)
  }

  /** How often the outcome of this row is listed, if the row is the assignment's. */
  ghost function Times(row: OutcomeRow, assignment: Id, outcomes: seq<string>): nat {
    if row.assignmentId == assignment then multiset(outcomes)[row.outcomeId] else 0
  }

  /** The event of the `k`-th listed outcome: its row has been tried before, earlier or in this very list, and fails now. */
  ghost function FailureAt(rows: Rows, assignment: Id, verdict: V.Verdict, outcomes: seq<string>, k: nat): seq<Event>
    requires k < |outcomes|
  {
    if id :| id in rows && rows[id].assignmentId == assignment && rows[id].outcomeId == outcomes[k] then
      var attempts := rows[id].attemptCount + multiset(outcomes[..k])[outcomes[k]];
      if verdict.Achieved? || attempts == 0 then [] else [Event(id, rows[id].learnerId, outcomes[k], attempts + 1)]
    else []
  }

  ghost function Failures(rows: Rows, assignment: Id, verdict: V.Verdict, outcomes: seq<string>, k: nat): seq<Event>
    requires k <= |outcomes|
  {
    if k == 0 then [] else Failures(rows, assignment, verdict, outcomes, k - 1) + FailureAt(rows, assignment, verdict, outcomes, k - 1)
  }

  /** The active assignment's rows for the listed outcomes are judged, once for each time they are listed; nothing else changes. */
  ghost predicate Writes(s: State, t: State, assignment: Id, verdict: V.Verdict, score: int, outcomes: seq<string>, now: int, k: nat)
    requires k <= |outcomes|
  {
    && t.assignments == s.assignments && t.nextId == s.nextId && t.rows.Keys == s.rows.Keys
    && (forall id :: id in s.rows ==>
          IsJudged(s.rows[id], t.rows[id], verdict, score, now, Times(s.rows[id], assignment, outcomes[..k])))
    && t.events == s.events + Failures(s.rows, assignment, verdict, outcomes, k)
  }

  ghost predicate Completes(s: State, t: State, learner: string, verdict: V.Verdict, score: int, outcomes: seq<string>, now: int) {
    && ((forall a :: !HasActive(s, learner, a)) ==> t == s)
    && forall a :: HasActive(s, learner, a) ==> Writes(s, t, a, verdict, score, outcomes, now, |outcomes|)
  }

  lemma JudgedOnce(before: OutcomeRow, middle: OutcomeRow, verdict: V.Verdict, score: int, now: int, times: nat)
    requires IsJudged(before, middle, verdict, score, now, times)
    ensures IsJudged(before, Judged(middle, verdict, score, now), verdict, score, now, times + 1)
  {
  }

  lemma TimesPush(row: OutcomeRow, assignment: Id, outcomes: seq<string>, k: nat)
    requires k < |outcomes|
    ensures Times(row, assignment, outcomes[..k + 1])
      == Times(row, assignment, outcomes[..k]) + if row.assignmentId == assignment && row.outcomeId == outcomes[k] then 1 else 0
  {
    TakeMore(outcomes, k);
  }

  /** One more listed outcome that has no row. */
  lemma WritesNone(s: State, t: State, assignment: Id, verdict: V.Verdict, score: int, outcomes: seq<string>, now: int, k: nat)
    requires k < |outcomes| && Writes(s, t, assignment, verdict, score, outcomes, now, k)
    requires forall id :: !IsRowFor(s.rows, assignment, outcomes[k], id)
    ensures Writes(s, t, assignment, verdict, score, outcomes, now, k + 1)
  {
    forall id | id in s.rows ensures Times(s.rows[id], assignment, outcomes[..k + 1]) == Times(s.rows[id], assignment, outcomes[..k]) {
      TimesPush(s.rows[id], assignment, outcomes, k);
      assert !IsRowFor(s.rows, assignment, outcomes[k], id);
    }
    forall id: Id ensures !(id in s.rows && s.rows[id].assignmentId == assignment && s.rows[id].outcomeId == outcomes[k]) {
      assert !IsRowFor(s.rows, assignment, outcomes[k], id);
    }
    assert FailureAt(s.rows, assignment, verdict, outcomes, k) == [];
    assert t.events + [] == t.events;
    hide Times, FailureAt, IsJudged;
    assert Failures(s.rows, assignment, verdict, outcomes, k + 1) == Failures(s.rows, assignment, verdict, outcomes, k) + [];
  }

  /** One more listed outcome that has a row. */
  lemma WritesOne(s: State, t: State, assignment: Id, verdict: V.Verdict, score: int, outcomes: seq<string>, now: int, k: nat, id: Id)
    requires k < |outcomes| && Writes(s, t, assignment, verdict, score, outcomes, now, k)
    requires OneRowEach(s.rows) && IsRowFor(s.rows, assignment, outcomes[k], id)
    ensures id in t.rows && Writes(s, ApplyVerdict(t, id, verdict, score, now), assignment, verdict, score, outcomes, now, k + 1)
  {
    hide Times, FailureAt, IsJudged, OneRowEach, Judged;
    var u := ApplyVerdict(t, id, verdict, score, now);
    FailureOf(s, t, assignment, verdict, score, outcomes, now, k, id);
    FailuresPush(s.rows, assignment, verdict, outcomes, k);
    forall other | other in s.rows
      ensures IsJudged(s.rows[other], u.rows[other], verdict, score, now, Times(s.rows[other], assignment, outcomes[..k + 1]))
    {
      WritesOneRow(s, t, assignment, verdict, score, outcomes, now, k, id, other);
    }
    hide Failures;
  }

  lemma FailuresPush(rows: Rows, assignment: Id, verdict: V.Verdict, outcomes: seq<string>, k: nat)
    requires k < |outcomes|
    ensures Failures(rows, assignment, verdict, outcomes, k + 1)
      == Failures(rows, assignment, verdict, outcomes, k) + FailureAt(rows, assignment, verdict, outcomes, k)
  {
    hide FailureAt;
  }

  lemma WritesOneRow(s: State, t: State, assignment: Id, verdict: V.Verdict, score: int, outcomes: seq<string>, now: int, k: nat,
                     id: Id, other: Id)
    requires k < |outcomes| && Writes(s, t, assignment, verdict, score, outcomes, now, k)
    requires OneRowEach(s.rows) && IsRowFor(s.rows, assignment, outcomes[k], id) && other in s.rows
    ensures id in t.rows && IsJudged(s.rows[other], ApplyVerdict(t, id, verdict, score, now).rows[other], verdict, score, now,
                                     Times(s.rows[other], assignment, outcomes[..k + 1]))
  {
    TimesPush(s.rows[other], assignment, outcomes, k);
    hide Times, IsJudged, Failures;
    if other == id {
      JudgedOnce(s.rows[id], t.rows[id], verdict, score, now, Times(s.rows[id], assignment, outcomes[..k]));
    } else {
      assert !SameOutcome(s.rows, id, other);
    }
  }

  lemma FailureOf(s: State, t: State, assignment: Id, verdict: V.Verdict, score: int, outcomes: seq<string>, now: int, k: nat, id: Id)
    requires k < |outcomes| && Writes(s, t, assignment, verdict, score, outcomes, now, k)
    requires OneRowEach(s.rows) && IsRowFor(s.rows, assignment, outcomes[k], id)
    ensures id in t.rows
    ensures ApplyVerdict(t, id, verdict, score, now).events == t.events + FailureAt(s.rows, assignment, verdict, outcomes, k)
  {
    forall other | other in s.rows && s.rows[other].assignmentId == assignment && s.rows[other].outcomeId == outcomes[k]
      ensures other == id
    {
      OnlyRow(s.rows, assignment, outcomes[k], id);
      OnlyRow(s.rows, assignment, outcomes[k], other);
    }
    assert IsJudged(s.rows[id], t.rows[id], verdict, score, now, Times(s.rows[id], assignment, outcomes[..k]));
  }

  lemma {:induction false} JudgeAllWrites(s: State, assignment: Id, verdict: V.Verdict, score: int, outcomes: seq<string>, now: int, k: nat)
    requires k <= |outcomes| && Inv(s)
    ensures Writes(s, JudgeAll(s, assignment, verdict, score, outcomes, now, k), assignment, verdict, score, outcomes, now, k)
  {
    InvForWrites(s);
    hide Inv, Writes, OneRowEach, ApplyVerdict;
    if k == 0 {
      NothingWritten(s, assignment, verdict, score, outcomes, now);
    } else {
      JudgeAllWrites(s, assignment, verdict, score, outcomes, now, k - 1);
      JudgeAllKeeps(s, assignment, verdict, score, outcomes, now, k - 1);
      var t := JudgeAll(s, assignment, verdict, score, outcomes, now, k - 1);
      InvForWrites(t);
      SameRowsFor(s, t, assignment, verdict, score, outcomes, now, k - 1);
      match RowFor(t.rows, assignment, outcomes[k - 1])
      case None => WritesNone(s, t, assignment, verdict, score, outcomes, now, k - 1);
      case Some(id) => WritesOne(s, t, assignment, verdict, score, outcomes, now, k - 1, id);
    }
  }

  lemma NothingWritten(s: State, assignment: Id, verdict: V.Verdict, score: int, outcomes: seq<string>, now: int)
    ensures Writes(s, s, assignment, verdict, score, outcomes, now, 0)
  {
    assert s.events + [] == s.events;
  }

  lemma SameRowsFor(s: State, t: State, assignment: Id, verdict: V.Verdict, score: int, outcomes: seq<string>, now: int, k: nat)
    requires k < |outcomes| && Writes(s, t, assignment, verdict, score, outcomes, now, k)
    ensures match RowFor(t.rows, assignment, outcomes[k])
      case None => forall id :: !IsRowFor(s.rows, assignment, outcomes[k], id)
      case Some(id) => IsRowFor(s.rows, assignment, outcomes[k], id)
  {
    forall id: Id ensures IsRowFor(s.rows, assignment, outcomes[k], id) <==> IsRowFor(t.rows, assignment, outcomes[k], id) {
      if id in s.rows {
        assert IsJudged(s.rows[id], t.rows[id], verdict, score, now, Times(s.rows[id], assignment, outcomes[..k]));
      }
    }
  }

  lemma CompletingCompletes(s: State, learner: string, verdict: V.Verdict, score: int, outcomes: seq<string>, now: int)
    requires Inv(s)
    ensures Completes(s, CompleteStep(s, learner, verdict, score, outcomes, now), learner, verdict, score, outcomes, now)
  {
    assert outcomes[..|outcomes|] == outcomes;
    forall a: Id ensures HasActive(s, learner, a) <==> ActiveOf(s, learner) == Some(a) {
      if HasActive(s, learner, a) {
        OnlyActiveInv(s, learner, a);
      } else if ActiveOf(s, learner) == Some(a) {
        ActiveIsActive(s, learner);
      }
    }
    if ActiveOf(s, learner).Some? {
      JudgeAllWrites(s, ActiveOf(s, learner).value, verdict, score, outcomes, now, |outcomes|);
    }
    hide Inv, Writes, HasActive, ActiveOf, JudgeAll;
  }

  // ----- what every request does

  /** The level's enabled outcomes, in order. */
  ghost function Enabled(outcomes: seq<LevelOutcome>): seq<string> {
    Map(Filter(outcomes, (o: LevelOutcome) => o.isEnabled), (o: LevelOutcome) => o.id)
  }

  lemma {:induction false} EnabledAre(outcomes: seq<LevelOutcome>)
    ensures EnabledIds(outcomes) == Enabled(outcomes)
  {
    if outcomes != [] {
      var n := |outcomes| - 1;
      EnabledAre(outcomes[..n]);
      assert outcomes == outcomes[..n] + [outcomes[n]];
      FilterConcat(outcomes[..n], [outcomes[n]], (o: LevelOutcome) => o.isEnabled);
    }
  }

  ghost predicate Does(s: State, op: Operation, t: State, answer: Answer) {
    match op
    case Assign(learner, lookups, now) =>
      if !lookups.learnerFound then t == s && answer == NotFound
      else if !lookups.trackUsable || !lookups.levelUsable then t == s && answer == Invalid
      else Assigns(s, t, learner, Enabled(lookups.outcomes), now) && answer == Done
    case Patch(learner, add, remove, priorities) =>
      && ((forall a :: !HasActive(s, learner, a)) ==> t == s && answer == Invalid)
      && forall a :: HasActive(s, learner, a) ==> Patches(s, t, learner, a, add, remove, priorities, answer)
    case DeactivateAll(learner) => Retires(s, t, learner) && answer == Done
    case Complete(learner, verdict, score, outcomes, now) =>
      Completes(s, t, learner, verdict, score, outcomes, now) && answer == Done
  }

  lemma StepDoes(s: State, op: Operation)
    requires Inv(s) && WellFormed(op)
    ensures Does(s, op, Step(s, op).0, Step(s, op).1)
  {
    match op
    case Assign(learner, lookups, now) =>
      EnabledIdsFacts(lookups.outcomes);
      EnabledAre(lookups.outcomes);
      AssigningAssigns(s, learner, EnabledIds(lookups.outcomes), now);
      hide Inv, Assigns, NoDup, AssignWithOutcomes, AchievedBy, EnabledIds, Enabled;
    case Patch(learner, add, remove, priorities) =>
      PatchDoes(s, learner, add, remove, priorities);
    case DeactivateAll(learner) => RetireRetires(s, learner);
    case Complete(learner, verdict, score, outcomes, now) =>
      CompletingCompletes(s, learner, verdict, score, outcomes, now);
  }

  lemma PatchDoes(s: State, learner: string, add: seq<Addition>, remove: seq<string>, priorities: seq<Priority>)
    requires Inv(s)
    ensures Does(s, Patch(learner, add, remove, priorities), PatchOutcomes(s, learner, add, remove, priorities).0,
                 PatchOutcomes(s, learner, add, remove, priorities).1)
  {
    forall a: Id ensures HasActive(s, learner, a) <==> ActiveOf(s, learner) == Some(a) {
      if HasActive(s, learner, a) {
        OnlyActiveInv(s, learner, a);
      } else if ActiveOf(s, learner) == Some(a) {
        ActiveIsActive(s, learner);
      }
    }
    if ActiveOf(s, learner).Some? {
      ActiveIsActive(s, learner);
      PatchingPatches(s, learner, ActiveOf(s, learner).value, add, remove, priorities);
    }
    hide Inv, Patches, HasActive, ActiveOf, PatchRows;
  }

  /** Over any run from nothing, each request does its work in the state that its predecessors left. */
  lemma RunDoesEach(ops: seq<Operation>, k: nat)
    requires k < |ops| && forall i :: 0 <= i < |ops| ==> WellFormed(ops[i])
    ensures var s := Run(EMPTY, ops[..k]); Does(s, ops[k], Run(EMPTY, ops[..k + 1]), Step(s, ops[k]).1)
  {
    EmptyIsFine();
    RunKeeps(EMPTY, ops[..k]);
    RunPush(EMPTY, ops, k);
    var s := Run(EMPTY, ops[..k]);
    StepDoes(s, ops[k]);
  }

  lemma {:induction false} RunPush(s: State, ops: seq<Operation>, k: nat)
    requires k < |ops|
    ensures Run(s, ops[..k + 1]) == Step(Run(s, ops[..k]), ops[k]).0
    decreases k
  {
    hide Step;
    if k == 0 {
      assert ops[..1] == [ops[0]] && ops[..0] == [];
    } else {
      RunPush(Step(s, ops[0]).0, ops[1..], k - 1);
      assert ops[..k + 1][1..] == ops[1..][..k] && ops[..k][1..] == ops[1..][..k - 1];
    }
  }

  // ----- escalation

  function Failing(history: seq<Applied>): nat {
    if history == [] then 0
    else Failing(history[..|history| - 1]) + if history[|history| - 1].verdict.Achieved? then 0 else 1
  }

  function FirstFailed(history: seq<Applied>): nat {
    if history != [] && !history[0].verdict.Achieved? then 1 else 0
  }

  ghost predicate Increasing(counts: seq<nat>) {
    forall i, j :: 0 <= i < j < |counts| ==> counts[i] < counts[j]
  }

  lemma {:induction false} RepeatFailuresAre(history: seq<Applied>)
    ensures |RepeatFailures(history)| == Failing(history) - FirstFailed(history)
    ensures Increasing(RepeatFailures(history))
    ensures forall c: nat :: c in RepeatFailures(history) <==> 2 <= c <= |history| && !history[c - 1].verdict.Achieved?
  {
    if history != [] {
      var front := RepeatFailures(history[..|history| - 1]);
      RepeatFailuresAre(history[..|history| - 1]);
      forall i | 0 <= i < |front| ensures front[i] < |history| {
        assert front[i] in front;
      }
    }
  }

  /** The events of one row number its failing verdicts, less one exactly if the first one failed; they carry, in increasing
      order, the attempt counts at which a later verdict failed. */
  lemma EscalationExactly(ops: seq<Operation>, id: Id)
    requires forall k :: 0 <= k < |ops| ==> WellFormed(ops[k])
    ensures var s := Run(EMPTY, ops); var history, counts := HistoryOf(s.applied, id), CountsOf(s.events, id);
      && |counts| == Failing(history) - FirstFailed(history)
      && Increasing(counts)
      && (forall c: nat :: c in counts <==> 2 <= c <= |history| && !history[c - 1].verdict.Achieved?)
      && (id in s.rows ==> Reflects(s.rows[id], history))
  {
    EmptyIsFine();
    RunKeeps(EMPTY, ops);
    RepeatFailuresAre(HistoryOf(Run(EMPTY, ops).applied, id));
  }

  // ----- the services

  /** The rows of one assignment, as `findByAssignment` returns them. */
  function RowsIn(rows: Rows, assignment: Id): Rows {
    map id | id in rows && rows[id].assignmentId == assignment :: rows[id]
  }

  lemma CopyFinds(rows: Rows, assignment: Id, outcome: string, id: Id)
    requires OneRowEach(rows) && id in RowsIn(rows, assignment) && rows[id].outcomeId == outcome
    ensures RowFor(rows, assignment, outcome) == Some(id)
  {
    OnlyRow(rows, assignment, outcome, id);
  }

  lemma CopyMisses(rows: Rows, assignment: Id, outcome: string)
    requires forall id :: id in RowsIn(rows, assignment) ==> rows[id].outcomeId != outcome
    ensures RowFor(rows, assignment, outcome) == None
  {
    forall id: Id ensures !IsRowFor(rows, assignment, outcome, id) {
      if id in rows && rows[id].assignmentId == assignment {
        assert id in RowsIn(rows, assignment);
      }
    }
  }

  lemma CopySize(rows: Rows, assignment: Id)
    ensures |RowsIn(rows, assignment)| == |RowsOf(rows, assignment)|
  {
    assert RowsIn(rows, assignment).Keys == RowsOf(rows, assignment);
  }

  class LearnerService {
    var assignments: map<Id, Assignment>
    var rows: Rows
    var events: seq<Event>
    var nextId: Id
    ghost var applied: seq<Applied>

    ghost function Data(): State
      reads this
    {
      State(assignments, rows, events, applied, nextId)
    }

    constructor ()
      ensures Data() == EMPTY && Inv(Data())
    {
      assignments, rows, events, nextId, applied := map[], map[], [], 0, [];
    }

    method FindActiveByLearner(learner: string) returns (found: Option<Id>)
      requires Inv(Data())
      ensures found == ActiveOf(Data(), learner)
    {
      if a :| a in assignments && assignments[a].learnerId == learner && assignments[a].isActive {
        OnlyActive(Data(), learner, a);
        return Some(a);
      }
      return None;
    }

    /** Retires what is active; there is never more than one to retire. */
    method DeactivateAllForLearner(learner: string) returns (count: nat)
      requires Inv(Data())
      modifies this`assignments
      ensures Data() == Retire(old(Data()), learner) && Inv(Data()) && Retires(old(Data()), Data(), learner)
      ensures count == if ActiveOf(old(Data()), learner).Some? then 1 else 0
    {
      RetireKeeps(Data(), learner);
      var active := set a | a in assignments && assignments[a].learnerId == learner && assignments[a].isActive;
      count := |active|;
      if a :| a in active {
        OneToRetire(Data(), learner, a);
        assert active == {a};
        OnlyActive(Data(), learner, a);
      } else {
        forall a: Id ensures !IsActiveOf(Data(), learner, a) {
          assert a !in active;
        }
      }
      assignments := map a | a in assignments ::
        if assignments[a].learnerId == learner then assignments[a].(isActive := false) else assignments[a];
    }

    method InsertRow(row: OutcomeRow) returns (id: Id)
      modifies this`rows, this`nextId
      ensures Data() == CreateRow(old(Data()), row) && id == old(nextId)
    {
      id := nextId;
      rows, nextId := rows[id := row], nextId + 1;
    }

    /** The transaction of one assign: retire, create, one row an outcome. */
    method AssignOutcomes(learner: string, outcomes: seq<string>, achieved: set<string>, now: int)
      requires Inv(Data()) && NoDup(outcomes)
      modifies this
      ensures Data() == AssignWithOutcomes(old(Data()), learner, outcomes, achieved, now) && Inv(Data())
    {
      hide Inv, Retire;
      AssignKeeps(Data(), learner, outcomes, achieved, now);
      var _ := DeactivateAllForLearner(learner);
      var assignment := nextId;
      assignments, nextId := assignments[assignment := Assignment(learner, true)], nextId + 1;
      ghost var created := Data();
      for k := 0 to |outcomes|
        invariant Data() == Materialize(created, learner, assignment, outcomes, achieved, now, k)
      {
        var status := if outcomes[k] in achieved then Achieved else NotStarted;
        var achievedAt := if outcomes[k] in achieved then Some(now) else None;
        var _ := InsertRow(OutcomeRow(learner, outcomes[k], assignment, status, k, false, 0, None, achievedAt));
      }
    }

    method Assign(learner: string, lookups: Lookups, now: int) returns (answer: Answer)
      requires Inv(Data()) && DistinctOutcomes(lookups.outcomes)
      modifies this
      ensures (Data(), answer) == Step(old(Data()), Operation.Assign(learner, lookups, now)) && Inv(Data())
      ensures Does(old(Data()), Operation.Assign(learner, lookups, now), Data(), answer)
    {
      StepDoes(Data(), Operation.Assign(learner, lookups, now));
      hide Does;
      if !lookups.learnerFound {
        return NotFound;
      }
      if !lookups.trackUsable || !lookups.levelUsable {
        return Invalid;
      }
      EnabledIdsFacts(lookups.outcomes);
      AssignOutcomes(learner, EnabledIds(lookups.outcomes), AchievedBy(rows, learner), now);
      return Done;
    }

    method AddOutcome(learner: string, assignment: Id, outcome: string, copy: Rows) returns (current: Rows)
      requires OneRowEach(rows) && nextId !in rows && copy == RowsIn(rows, assignment)
      modifies this`rows, this`nextId
      ensures Data() == AddOne(old(Data()), learner, assignment, outcome)
      ensures current == RowsIn(rows, assignment)
    {
      current := copy;
      if id :| id in current && current[id].outcomeId == outcome {
        CopyFinds(rows, assignment, outcome, id);
      } else {
        CopyMisses(rows, assignment, outcome);
        CopySize(rows, assignment);
        var row := OutcomeRow(learner, outcome, assignment, NotStarted, |current|, true, 0, None, None);
        var created := InsertRow(row);
        current := current[created := row];
      }
    }

    method AddOutcomes(learner: string, assignment: Id, add: seq<Addition>) returns (current: Rows, ok: bool)
      requires Inv(Data()) && IsActiveOf(Data(), learner, assignment)
      modifies this`rows, this`nextId
      ensures (Data(), ok) == AddAll(old(Data()), learner, assignment, add, |add|)
      ensures ok ==> current == RowsIn(rows, assignment)
      ensures Inv(Data())
    {
      hide Inv, IsActiveOf, AddOne, RowsIn;
      ghost var before := Data();
      current := RowsIn(rows, assignment);
      for k := 0 to |add|
        invariant (Data(), true) == AddAll(before, learner, assignment, add, k)
        invariant current == RowsIn(rows, assignment)
        invariant Inv(Data())
      {
        AddAllFacts(before, learner, assignment, add, k + 1);
        if !add[k].found {
          RefusedAdditionStays(before, learner, assignment, add, k + 1, |add|);
          return current, false;
        }
        InvForWrites(Data());
        current := AddOutcome(learner, assignment, add[k].outcomeId, current);
      }
      return current, true;
    }

    method RemoveOutcome(assignment: Id, outcome: string, copy: Rows) returns (current: Rows, ok: bool)
      requires OneRowEach(rows) && copy == RowsIn(rows, assignment)
      modifies this`rows
      ensures (Data(), ok) == RemoveOne(old(Data()), assignment, outcome)
      ensures ok ==> current == RowsIn(rows, assignment)
    {
      current, ok := copy, true;
      if id :| id in current && current[id].outcomeId == outcome {
        CopyFinds(rows, assignment, outcome, id);
        if !current[id].isCustom {
          return current, false;
        }
        rows := rows - {id};
        current := current - {id};
      } else {
        CopyMisses(rows, assignment, outcome);
      }
    }

    method RemoveOutcomes(assignment: Id, remove: seq<string>, copy: Rows) returns (current: Rows, ok: bool)
      requires Inv(Data()) && copy == RowsIn(rows, assignment)
      modifies this`rows
      ensures (Data(), ok) == RemoveAll(old(Data()), assignment, remove, |remove|)
      ensures ok ==> current == RowsIn(rows, assignment)
      ensures Inv(Data())
    {
      hide Inv, RemoveOne, RowsIn;
      ghost var before := Data();
      current := copy;
      for k := 0 to |remove|
        invariant (Data(), true) == RemoveAll(before, assignment, remove, k)
        invariant current == RowsIn(rows, assignment)
        invariant Inv(Data())
      {
        RemoveAllFacts(before, assignment, remove, k + 1);
        InvForWrites(Data());
        current, ok := RemoveOutcome(assignment, remove[k], current);
        if !ok {
          RefusedRemovalStays(before, assignment, remove, k + 1, |remove|);
          return current, false;
        }
      }
      return current, true;
    }

    method ReprioritizeOutcome(assignment: Id, outcome: string, priority: int, copy: Rows) returns (current: Rows)
      requires OneRowEach(rows) && copy == RowsIn(rows, assignment)
      modifies this`rows
      ensures Data() == ReprioritizeOne(old(Data()), assignment, outcome, priority)
      ensures current == RowsIn(rows, assignment)
    {
      current := copy;
      if id :| id in current && current[id].outcomeId == outcome {
        CopyFinds(rows, assignment, outcome, id);
        var updated := rows[id].(priority := priority);
        rows := rows[id := updated];
        current := current[id := updated];
      } else {
        CopyMisses(rows, assignment, outcome);
      }
    }

    method ReprioritizeOutcomes(assignment: Id, priorities: seq<Priority>, copy: Rows) returns (current: Rows)
      requires Inv(Data()) && copy == RowsIn(rows, assignment)
      modifies this`rows
      ensures Data() == ReprioritizeAll(old(Data()), assignment, priorities, |priorities|)
      ensures current == RowsIn(rows, assignment)
      ensures Inv(Data())
    {
      hide Inv, ReprioritizeOne, RowsIn;
      ghost var before := Data();
      current := copy;
      for k := 0 to |priorities|
        invariant Data() == ReprioritizeAll(before, assignment, priorities, k)
        invariant current == RowsIn(rows, assignment)
        invariant Inv(Data())
      {
        ReprioritizeAllFacts(before, assignment, priorities, k + 1);
        InvForWrites(Data());
        current := ReprioritizeOutcome(assignment, priorities[k].outcomeId, priorities[k].priority, current);
      }
    }

    /** Three loops over one local copy of the assignment's rows, which is what the caller gets back. */
    method PatchOutcomes(learner: string, add: seq<Addition>, remove: seq<string>, priorities: seq<Priority>)
      returns (answer: Answer, current: Rows)
      requires Inv(Data())
      modifies this`rows, this`nextId
      ensures (Data(), answer) == Step(old(Data()), Patch(learner, add, remove, priorities)) && Inv(Data())
      ensures Does(old(Data()), Patch(learner, add, remove, priorities), Data(), answer)
      ensures answer == Done ==>
        ActiveOf(old(Data()), learner).Some? && current == RowsIn(rows, ActiveOf(old(Data()), learner).value)
    {
      StepDoes(Data(), Patch(learner, add, remove, priorities));
      hide Inv, RowsIn, AddAll, RemoveAll, ReprioritizeAll, Does;
      current := map[];
      var active := FindActiveByLearner(learner);
      if active.None? {
        return Invalid, current;
      }
      var ok: bool;
      current, ok := AddOutcomes(learner, active.value, add);
      if !ok {
        return Invalid, current;
      }
      current, ok := RemoveOutcomes(active.value, remove, current);
      if !ok {
        return Invalid, current;
      }
      current := ReprioritizeOutcomes(active.value, priorities, current);
      return Done, current;
    }

    method WriteVerdict(id: Id, verdict: V.Verdict, score: int, now: int) returns (isRepeatFailure: bool)
      requires id in rows
      modifies this`rows, this`applied
      ensures Data() == ApplyVerdict(old(Data()), id, verdict, score, now).(events := old(events))
      ensures isRepeatFailure <==> !verdict.Achieved? && old(rows)[id].attemptCount + 1 > 1
    {
      var achieved := verdict.Achieved?;
      var outcome := rows[id].(status := if achieved then Achieved else InProgress, lastScore := Some(score),
                               achievedAt := if achieved then Some(now) else None, attemptCount := rows[id].attemptCount + 1);
      rows := rows[id := outcome];
      applied := applied + [Applied(id, verdict, score, now)];
      return !achieved && outcome.attemptCount > 1;
    }

    /** The write, and the event of a repeat failure, which counts from the row as it was read before the write. */
    method JudgeOutcome(learner: string, assignment: Id, outcome: string, verdict: V.Verdict, score: int, now: int)
      requires OneRowEach(rows)
      requires forall id :: id in rows && rows[id].assignmentId == assignment ==> rows[id].learnerId == learner
      modifies this`rows, this`applied, this`events
      ensures Data() == JudgeOne(old(Data()), assignment, outcome, verdict, score, now)
    {
      if id :| id in rows && rows[id].learnerId == learner && IsRowFor(rows, assignment, outcome, id) {
        OnlyRow(rows, assignment, outcome, id);
        var attemptCount := rows[id].attemptCount;
        assert events + [] == events;
        var isRepeatFailure := WriteVerdict(id, verdict, score, now);
        if isRepeatFailure {
          events := events + [Event(id, learner, outcome, attemptCount + 1)];
        }
      }
    }

    /** One session's verdict, written to each of its outcomes that the active assignment has a row for. */
    method UpdateLearnerOutcomes(learner: string, verdict: V.Verdict, score: int, outcomes: seq<string>, now: int)
      requires Inv(Data())
      modifies this`rows, this`applied, this`events
      ensures Data() == Step(old(Data()), Complete(learner, verdict, score, outcomes, now)).0 && Inv(Data())
      ensures Completes(old(Data()), Data(), learner, verdict, score, outcomes, now)
    {
      CompletingCompletes(Data(), learner, verdict, score, outcomes, now);
      StepCompletes(Data(), learner, verdict, score, outcomes, now);
      hide Inv, JudgeOne, IsActiveOf, ActiveOf, Completes, CompleteStep, Step, OneRowEach;
      ghost var before := Data();
      var active := FindActiveByLearner(learner);
      if active.None? {
        return;
      }
      var assignment := active.value;
      ActiveIsActive(before, learner);
      for k := 0 to |outcomes|
        invariant Data() == JudgeAll(before, assignment, verdict, score, outcomes, now, k)
        invariant Inv(Data())
      {
        JudgeAllKeeps(before, assignment, verdict, score, outcomes, now, k);
        JudgeAllKeeps(before, assignment, verdict, score, outcomes, now, k + 1);
        RowsAreTheLearners(before, Data(), learner, assignment);
        JudgeOutcome(learner, assignment, outcomes[k], verdict, score, now);
      }
    }
  }

  lemma StepCompletes(s: State, learner: string, verdict: V.Verdict, score: int, outcomes: seq<string>, now: int)
    ensures Step(s, Complete(learner, verdict, score, outcomes, now)).0 == CompleteStep(s, learner, verdict, score, outcomes, now)
    ensures CompleteStep(s, learner, verdict, score, outcomes, now) == match ActiveOf(s, learner)
      case None => s
      case Some(a) => JudgeAll(s, a, verdict, score, outcomes, now, |outcomes|)
  {
  }

  lemma InvForWrites(s: State)
    requires Inv(s)
    ensures OneRowEach(s.rows) && s.nextId !in s.rows
  {
  }

  lemma ActiveIsActive(s: State, learner: string)
    requires ActiveOf(s, learner).Some?
    ensures IsActiveOf(s, learner, ActiveOf(s, learner).value)
  {
  }

  lemma OneToRetire(s: State, learner: string, a: Id)
    requires Inv(s) && IsActiveOf(s, learner, a)
    ensures forall b :: IsActiveOf(s, learner, b) ==> b == a
  {
    forall b | IsActiveOf(s, learner, b) ensures b == a {
      if b != a {
        assert BothActive(s.assignments, a, b);
      }
    }
  }

  lemma RowsAreTheLearners(s: State, t: State, learner: string, assignment: Id)
    requires Inv(t) && t.assignments == s.assignments && IsActiveOf(s, learner, assignment)
    ensures OneRowEach(t.rows)
    ensures forall id :: id in t.rows && t.rows[id].assignmentId == assignment ==> t.rows[id].learnerId == learner
  {
    forall id | id in t.rows && t.rows[id].assignmentId == assignment ensures t.rows[id].learnerId == learner {
      assert RowFits(t, t.rows[id]);
    }
  }
}
