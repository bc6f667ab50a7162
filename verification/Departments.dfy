/** The learner-department repair script: its dry run predicts what `--apply` does. */
module DepartmentRepair {
  import opened Wrappers
  import opened Seqs

  datatype Learner = Learner(id: string, organizationId: string, teamId: string, departmentId: Option<string>)

  datatype Team = Team(organizationId: string, departmentId: string)

  datatype Track = Track(organizationId: string, departmentId: Option<string>)

  datatype Move = Move(learnerId: string, fromDepartmentId: Option<string>, toDepartmentId: Option<string>)

  /** `departments` gives each department's organization. */
  datatype Data = Data(learners: seq<Learner>, teams: map<string, Team>, tracks: seq<Track>, departments: map<string, string>)

  // ----- pass 1

  function TeamDepartment(teams: map<string, Team>, learner: Learner): Option<string> {
    if learner.teamId in teams then Some(teams[learner.teamId].departmentId) else None
  }

  predicate Misplaced(teams: map<string, Team>, learner: Learner, org: string, onlyMismatched: bool) {
    && learner.organizationId == org
    && learner.departmentId != TeamDepartment(teams, learner)
    && !(onlyMismatched && learner.departmentId.None?)
  }

  function MoveOf(teams: map<string, Team>, learner: Learner): Move {
    Move(learner.id, learner.departmentId, TeamDepartment(teams, learner))
  }

  function MovesOf(teams: map<string, Team>, learners: seq<Learner>, org: string, onlyMismatched: bool): seq<Move> {
    if learners == [] then []
    else
      var n := |learners| - 1;
      MovesOf(teams, learners[..n], org, onlyMismatched)
      + if Misplaced(teams, learners[n], org, onlyMismatched) then [MoveOf(teams, learners[n])] else []
  }

  function Placed(teams: map<string, Team>, learner: Learner, org: string, onlyMismatched: bool): Learner {
    if Misplaced(teams, learner, org, onlyMismatched) then learner.(departmentId := TeamDepartment(teams, learner)) else learner
  }

  function AllPlaced(teams: map<string, Team>, learners: seq<Learner>, org: string, onlyMismatched: bool): (r: seq<Learner>)
    ensures |r| == |learners|
    ensures forall i :: 0 <= i < |r| ==> r[i] == Placed(teams, learners[i], org, onlyMismatched)
  {
    Map(learners, (learner: Learner) => Placed(teams, learner, org, onlyMismatched))
  }

  // ----- pass 2

  function VacatedIds(moves: seq<Move>): seq<string> {
    if moves == [] then []
    else
      var n := |moves| - 1;
      VacatedIds(moves[..n]) + if moves[n].fromDepartmentId.Some? then [moves[n].fromDepartmentId.value] else []
  }

  function Vacated(moves: seq<Move>): seq<string> {
    Distinct(VacatedIds(moves))
  }

  function LearnersIn(learners: seq<Learner>, department: string): int {
    |Filter(learners, (learner: Learner) => learner.departmentId == Some(department))|
  }

  function MovesFrom(moves: seq<Move>, department: string): int {
    |Filter(moves, (move: Move) => move.fromDepartmentId == Some(department))|
  }

  function TracksIn(tracks: seq<Track>, department: string): int {
    |Filter(tracks, (track: Track) => track.departmentId == Some(department))|
  }

  function TeamsOf(teams: map<string, Team>, department: string): set<string> {
    set id | id in teams && teams[id].departmentId == department
  }

  function TeamsIn(teams: map<string, Team>, department: string): int {
    |TeamsOf(teams, department)|
  }

  /** Nothing holds the department; a dry run discounts the learners it would move off it. */
  predicate IsOrphan(d: Data, org: string, moves: seq<Move>, apply: bool, department: string) {
    && department in d.departments && d.departments[department] == org
    && TeamsIn(d.teams, department) == 0 && TracksIn(d.tracks, department) == 0
    && LearnersIn(d.learners, department) - (if apply then 0 else MovesFrom(moves, department)) <= 0
  }

  function OrphansAmong(d: Data, org: string, moves: seq<Move>, apply: bool, ids: seq<string>): seq<string> {
    Filter(ids, department => IsOrphan(d, org, moves, apply, department))
  }

  function Orphans(d: Data, org: string, moves: seq<Move>, apply: bool): seq<string> {
    OrphansAmong(d, org, moves, apply, Vacated(moves))
  }

  lemma OrphansPush(d: Data, org: string, moves: seq<Move>, apply: bool, ids: seq<string>, id: string)
    ensures OrphansAmong(d, org, moves, apply, ids + [id])
         == OrphansAmong(d, org, moves, apply, ids) + if IsOrphan(d, org, moves, apply, id) then [id] else []
  {
    FilterConcat(ids, [id], department => IsOrphan(d, org, moves, apply, department));
  }

  /** What one organization's run reports and leaves behind. */
  function Repair(d: Data, org: string, onlyMismatched: bool, apply: bool): (Data, seq<Move>, seq<string>) {
    var moves := MovesOf(d.teams, d.learners, org, onlyMismatched);
    if !apply then (d, moves, Orphans(d, org, moves, false))
    else
      var moved := d.(learners := AllPlaced(d.teams, d.learners, org, onlyMismatched));
      var orphans := Orphans(moved, org, moves, true);
      (moved.(departments := moved.departments - SetOf(orphans)), moves, orphans)
  }

  // ----- counting through the moves

  lemma LearnersInPush(learners: seq<Learner>, learner: Learner, department: string)
    ensures LearnersIn(learners + [learner], department)
         == LearnersIn(learners, department) + if learner.departmentId == Some(department) then 1 else 0
  {
    FilterConcat(learners, [learner], (l: Learner) => l.departmentId == Some(department));
  }

  lemma MovesFromPush(moves: seq<Move>, move: Move, department: string)
    ensures MovesFrom(moves + [move], department)
         == MovesFrom(moves, department) + if move.fromDepartmentId == Some(department) then 1 else 0
  {
    FilterConcat(moves, [move], (m: Move) => m.fromDepartmentId == Some(department));
  }

  /** Moving everybody takes out of a department exactly its movers, unless somebody is moved into it. */
  lemma {:induction false} PlacingCounts(teams: map<string, Team>, learners: seq<Learner>, org: string, onlyMismatched: bool,
                                         department: string)
    requires TeamsIn(teams, department) == 0
    ensures LearnersIn(AllPlaced(teams, learners, org, onlyMismatched), department)
         == LearnersIn(learners, department) - MovesFrom(MovesOf(teams, learners, org, onlyMismatched), department)
  {
    if learners != [] {
      var n := |learners| - 1;
      var front, last := learners[..n], learners[n];
      PlacingCounts(teams, front, org, onlyMismatched, department);
      assert learners == front + [last];
      LearnersInPush(front, last, department);
      var placed := AllPlaced(teams, front, org, onlyMismatched);
      assert AllPlaced(teams, learners, org, onlyMismatched) == placed + [Placed(teams, last, org, onlyMismatched)];
      LearnersInPush(placed, Placed(teams, last, org, onlyMismatched), department);
      NobodyMovesWithoutTeam(teams, last, department);
      var moves := MovesOf(teams, front, org, onlyMismatched);
      if Misplaced(teams, last, org, onlyMismatched) {
        MovesFromPush(moves, MoveOf(teams, last), department);
      } else {
        assert moves + [] == moves;
      }
    }
  }

  /** A learner is only ever moved to a department that has a team. */
  lemma NobodyMovesWithoutTeam(teams: map<string, Team>, learner: Learner, department: string)
    requires TeamsIn(teams, department) == 0
    ensures TeamDepartment(teams, learner) != Some(department)
  {
    assert TeamsOf(teams, department) == {} && learner.teamId !in TeamsOf(teams, department);
  }

  /** The departments a dry run lists are exactly those `--apply` deletes, in the same order. */
  lemma DryRunPredictsApply(d: Data, org: string, onlyMismatched: bool)
    ensures Repair(d, org, onlyMismatched, false).1 == Repair(d, org, onlyMismatched, true).1
    ensures Repair(d, org, onlyMismatched, false).2 == Repair(d, org, onlyMismatched, true).2
  {
    var moves := MovesOf(d.teams, d.learners, org, onlyMismatched);
    var moved := d.(learners := AllPlaced(d.teams, d.learners, org, onlyMismatched));
    forall department ensures IsOrphan(d, org, moves, false, department) == IsOrphan(moved, org, moves, true, department) {
      if TeamsIn(d.teams, department) == 0 {
        PlacingCounts(d.teams, d.learners, org, onlyMismatched, department);
      }
    }
    FilterSame(Vacated(moves), department => IsOrphan(d, org, moves, false, department),
               department => IsOrphan(moved, org, moves, true, department));
  }

  // ----- what a run leaves behind

  ghost predicate Refers(d: Data, department: string) {
    || (exists learner :: learner in d.learners && learner.departmentId == Some(department))
    || (exists id :: id in d.teams && d.teams[id].departmentId == department)
    || (exists track :: track in d.tracks && track.departmentId == Some(department))
  }

  lemma UnheldMeansUnreferenced(d: Data, department: string)
    requires LearnersIn(d.learners, department) <= 0 && TeamsIn(d.teams, department) == 0 && TracksIn(d.tracks, department) == 0
    ensures !Refers(d, department)
  {
    FilterMembers(d.learners, (learner: Learner) => learner.departmentId == Some(department));
    FilterMembers(d.tracks, (track: Track) => track.departmentId == Some(department));
    var mine := Filter(d.learners, (learner: Learner) => learner.departmentId == Some(department));
    assert mine == [];
    assert Filter(d.tracks, (track: Track) => track.departmentId == Some(department)) == [];
    assert TeamsOf(d.teams, department) == {};
    forall id | id in d.teams ensures d.teams[id].departmentId != department {
      assert id !in TeamsOf(d.teams, department);
    }
  }

  /** After `--apply`, nobody refers to a deleted department, and only vacated ones of this organization are deleted. */
  lemma DeletedAreUnreferenced(d: Data, org: string, onlyMismatched: bool, department: string)
    requires department in d.departments && department !in Repair(d, org, onlyMismatched, true).0.departments
    ensures !Refers(Repair(d, org, onlyMismatched, true).0, department)
    ensures d.departments[department] == org
    ensures department in Vacated(Repair(d, org, onlyMismatched, true).1)
  {
    var moves := MovesOf(d.teams, d.learners, org, onlyMismatched);
    var moved := d.(learners := AllPlaced(d.teams, d.learners, org, onlyMismatched));
    FilterMembers(Vacated(moves), dep => IsOrphan(moved, org, moves, true, dep));
    assert department in Orphans(moved, org, moves, true);
    UnheldMeansUnreferenced(moved, department);
  }

  lemma {:induction false} NoMovesWhenNoneMisplaced(teams: map<string, Team>, learners: seq<Learner>, org: string, onlyMismatched: bool)
    requires forall i :: 0 <= i < |learners| ==> !Misplaced(teams, learners[i], org, onlyMismatched)
    ensures MovesOf(teams, learners, org, onlyMismatched) == []
  {
    if learners != [] {
      NoMovesWhenNoneMisplaced(teams, learners[..|learners| - 1], org, onlyMismatched);
    }
  }

  /** A second run, in the same scope mode, finds nothing to move and nothing to delete. */
  lemma SecondRunIsIdle(d: Data, org: string, onlyMismatched: bool, apply: bool)
    ensures var after := Repair(d, org, onlyMismatched, true).0;
      Repair(after, org, onlyMismatched, apply) == (after, [], [])
  {
    var after := Repair(d, org, onlyMismatched, true).0;
    NoMovesWhenNoneMisplaced(after.teams, after.learners, org, onlyMismatched);
    assert AllPlaced(after.teams, after.learners, org, onlyMismatched) == after.learners;
    assert after.departments - SetOf([]) == after.departments;
  }

  // ----- what a run reports and leaves, learner by learner and department by department

  /** The department of the learner's team, if the team is known. */
  ghost predicate SitsWithTeam(teams: map<string, Team>, learner: Learner, departmentId: Option<string>) {
    if learner.teamId in teams then departmentId == Some(teams[learner.teamId].departmentId) else departmentId == None
  }

  /** Whom a run moves: its own learners that sit elsewhere, unless `onlyMismatched` skips one without a department. */
  ghost predicate IsMoved(d: Data, org: string, onlyMismatched: bool, learner: Learner) {
    && learner.organizationId == org && !SitsWithTeam(d.teams, learner, learner.departmentId)
    && (onlyMismatched ==> learner.departmentId.Some?)
  }

  ghost predicate EndsWithTeam(d: Data, org: string, onlyMismatched: bool, before: Learner, after: Learner) {
    && after == before.(departmentId := after.departmentId)
    && (before.organizationId != org ==> after == before)
    && (before.organizationId == org && onlyMismatched && before.departmentId.None? ==> after == before)
    && (before.organizationId == org && !(onlyMismatched && before.departmentId.None?) ==>
          SitsWithTeam(d.teams, before, after.departmentId))
  }

  /** A move tells whom it takes where. */
  ghost predicate Tells(d: Data, learner: Learner, move: Move) {
    && move.learnerId == learner.id && move.fromDepartmentId == learner.departmentId
    && SitsWithTeam(d.teams, learner, move.toDepartmentId)
  }

  /** One move for each learner to move, in order, and no other. */
  ghost predicate ReportsMoves(d: Data, org: string, onlyMismatched: bool, learners: seq<Learner>, moves: seq<Move>) {
    var moved := Filter(learners, (learner: Learner) => IsMoved(d, org, onlyMismatched, learner));
    |moves| == |moved| && forall k :: 0 <= k < |moves| ==> Tells(d, moved[k], moves[k])
  }

  /** What `--apply` empties: a department of the organization that a move leaves and that nothing refers to any more. */
  ghost predicate IsEmptied(d: Data, e: Data, org: string, onlyMismatched: bool, department: string) {
    && department in d.departments && d.departments[department] == org && !Refers(e, department)
    && exists i :: 0 <= i < |d.learners| && d.learners[i].departmentId == Some(department) && IsMoved(d, org, onlyMismatched, d.learners[i])
  }

  /** The data `e` after a run with `--apply`. */
  ghost predicate Repairs(d: Data, e: Data, org: string, onlyMismatched: bool) {
    && e.teams == d.teams && e.tracks == d.tracks && |e.learners| == |d.learners|
    && (forall i :: 0 <= i < |d.learners| ==> EndsWithTeam(d, org, onlyMismatched, d.learners[i], e.learners[i]))
    && (forall department :: department in e.departments <==>
          department in d.departments && !IsEmptied(d, e, org, onlyMismatched, department))
    && (forall department :: department in e.departments ==> e.departments[department] == d.departments[department])
  }

  lemma {:induction false} MovesAreReported(d: Data, org: string, onlyMismatched: bool, learners: seq<Learner>)
    ensures ReportsMoves(d, org, onlyMismatched, learners, MovesOf(d.teams, learners, org, onlyMismatched))
  {
    if learners != [] {
      var n := |learners| - 1;
      var p := (learner: Learner) => IsMoved(d, org, onlyMismatched, learner);
      MovesAreReported(d, org, onlyMismatched, learners[..n]);
      FilterConcat(learners[..n], [learners[n]], p);
      assert learners == learners[..n] + [learners[n]];
    }
  }

  lemma {:induction false} VacatedMeans(moves: seq<Move>, department: string)
    ensures department in VacatedIds(moves) <==> exists k :: 0 <= k < |moves| && moves[k].fromDepartmentId == Some(department)
  {
    if moves != [] {
      var n := |moves| - 1;
      VacatedMeans(moves[..n], department);
      assert moves == moves[..n] + [moves[n]];
    }
  }

  lemma VacatedIsLeft(d: Data, org: string, onlyMismatched: bool, department: string)
    ensures department in Vacated(MovesOf(d.teams, d.learners, org, onlyMismatched)) <==>
      exists i :: 0 <= i < |d.learners| && d.learners[i].departmentId == Some(department) && IsMoved(d, org, onlyMismatched, d.learners[i])
  {
    var moves := MovesOf(d.teams, d.learners, org, onlyMismatched);
    VacatedMeans(moves, department);
    if k :| 0 <= k < |moves| && moves[k].fromDepartmentId == Some(department) {
      var i := MovesNameMisplaced(d.teams, d.learners, org, onlyMismatched, k);
      assert d.learners[i].departmentId == Some(department) && IsMoved(d, org, onlyMismatched, d.learners[i]);
    }
    if i :| 0 <= i < |d.learners| && d.learners[i].departmentId == Some(department) && IsMoved(d, org, onlyMismatched, d.learners[i]) {
      var k := MovedIsListed(d, org, onlyMismatched, d.learners, i);
    }
  }

  lemma {:induction false} MovedIsListed(d: Data, org: string, onlyMismatched: bool, learners: seq<Learner>, i: nat) returns (k: nat)
    requires i < |learners| && IsMoved(d, org, onlyMismatched, learners[i])
    ensures k < |MovesOf(d.teams, learners, org, onlyMismatched)|
    ensures MovesOf(d.teams, learners, org, onlyMismatched)[k].fromDepartmentId == learners[i].departmentId
  {
    var n := |learners| - 1;
    if i < n {
      k := MovedIsListed(d, org, onlyMismatched, learners[..n], i);
    } else {
      k := |MovesOf(d.teams, learners[..n], org, onlyMismatched)|;
    }
  }

  lemma UnreferencedMeansUnheld(d: Data, department: string)
    requires !Refers(d, department)
    ensures LearnersIn(d.learners, department) == TeamsIn(d.teams, department) == TracksIn(d.tracks, department) == 0
  {
    FilterNone(d.learners, (learner: Learner) => learner.departmentId == Some(department));
    FilterNone(d.tracks, (track: Track) => track.departmentId == Some(department));
    assert TeamsOf(d.teams, department) == {};
  }

  /** Every department to be emptied, once. */
  ghost predicate ListsEmptied(d: Data, e: Data, org: string, onlyMismatched: bool, orphans: seq<string>) {
    NoDup(orphans) && forall department :: department in orphans <==> IsEmptied(d, e, org, onlyMismatched, department)
  }

  ghost predicate RepairsAndLists(d: Data, e: Data, org: string, onlyMismatched: bool, orphans: seq<string>) {
    Repairs(d, e, org, onlyMismatched) && ListsEmptied(d, e, org, onlyMismatched, orphans)
  }

  /** A run with `--apply` repairs the data, reports every move, and lists what it deletes once each. */
  lemma RepairIs(d: Data, org: string, onlyMismatched: bool)
    ensures var (e, moves, orphans) := Repair(d, org, onlyMismatched, true);
      ReportsMoves(d, org, onlyMismatched, d.learners, moves) && RepairsAndLists(d, e, org, onlyMismatched, orphans)
  {
    var (e, moves, orphans) := Repair(d, org, onlyMismatched, true);
    MovesAreReported(d, org, onlyMismatched, d.learners);
    var moved := d.(learners := AllPlaced(d.teams, d.learners, org, onlyMismatched));
    EmptiedAreListed(d, moved, e, org, onlyMismatched);
    forall i | 0 <= i < |d.learners| ensures EndsWithTeam(d, org, onlyMismatched, d.learners[i], e.learners[i]) {}
    hide Orphans, IsEmptied, EndsWithTeam, AllPlaced, MovesOf;
  }

  lemma EmptiedAreListed(d: Data, moved: Data, e: Data, org: string, onlyMismatched: bool)
    requires moved == d.(learners := moved.learners)
    requires e.learners == moved.learners && e.teams == moved.teams && e.tracks == moved.tracks
    ensures ListsEmptied(d, e, org, onlyMismatched, Orphans(moved, org, MovesOf(d.teams, d.learners, org, onlyMismatched), true))
  {
    var moves := MovesOf(d.teams, d.learners, org, onlyMismatched);
    FilterNoDup(Vacated(moves), department => IsOrphan(moved, org, moves, true, department));
    FilterMembers(Vacated(moves), department => IsOrphan(moved, org, moves, true, department));
    forall department
      ensures department in Vacated(moves) && IsOrphan(moved, org, moves, true, department)
        <==> IsEmptied(d, e, org, onlyMismatched, department)
    {
      VacatedIsLeft(d, org, onlyMismatched, department);
      OrphanIsEmptied(moved, e, org, moves, department);
      hide Vacated, IsOrphan, Refers, IsMoved;
    }
    hide Vacated, IsOrphan, IsEmptied, MovesOf;
  }

  lemma OrphanIsEmptied(moved: Data, e: Data, org: string, moves: seq<Move>, department: string)
    requires e.learners == moved.learners && e.teams == moved.teams && e.tracks == moved.tracks
    ensures IsOrphan(moved, org, moves, true, department)
      <==> department in moved.departments && moved.departments[department] == org && !Refers(e, department)
  {
    if !Refers(e, department) {
      UnreferencedMeansUnheld(e, department);
    }
    if LearnersIn(e.learners, department) <= 0 && TeamsIn(e.teams, department) == 0 && TracksIn(e.tracks, department) == 0 {
      UnheldMeansUnreferenced(e, department);
    }
  }

  // ----- the script itself

  /** Learner ids are primary keys. */
  ghost predicate UniqueLearners(learners: seq<Learner>) {
    forall i, j :: 0 <= i < j < |learners| ==> learners[i].id != learners[j].id
  }

  /** The learners after the first `k` updates of the move loop. */
  ghost predicate MovedSoFar(teams: map<string, Team>, before: seq<Learner>, now: seq<Learner>, moves: seq<Move>, k: nat)
    requires k <= |moves|
  {
    |now| == |before| && forall i :: 0 <= i < |before| ==>
      now[i] == if Names(moves[..k], before[i].id) then before[i].(departmentId := TeamDepartment(teams, before[i])) else before[i]
  }

  ghost predicate Names(moves: seq<Move>, id: string) {
    exists k :: 0 <= k < |moves| && moves[k].learnerId == id
  }

  lemma NamesPush(moves: seq<Move>, k: nat, id: string)
    requires k < |moves|
    ensures Names(moves[..k + 1], id) <==> Names(moves[..k], id) || moves[k].learnerId == id
  {
    if Names(moves[..k], id) {
      var j :| 0 <= j < k && moves[..k][j].learnerId == id;
      assert moves[..k + 1][j].learnerId == id;
    }
    assert moves[..k + 1][k] == moves[k];
    if Names(moves[..k + 1], id) {
      var j :| 0 <= j < k + 1 && moves[..k + 1][j].learnerId == id;
      assert j == k || moves[..k][j].learnerId == id;
    }
  }

  /** Each move names one misplaced learner of the organization, and carries that learner's team department. */
  lemma {:induction false} MovesNameMisplaced(teams: map<string, Team>, learners: seq<Learner>, org: string, onlyMismatched: bool,
                                              k: nat)
    returns (i: nat)
    requires k < |MovesOf(teams, learners, org, onlyMismatched)|
    ensures i < |learners| && Misplaced(teams, learners[i], org, onlyMismatched)
    ensures MovesOf(teams, learners, org, onlyMismatched)[k] == MoveOf(teams, learners[i])
  {
    var n := |learners| - 1;
    var front := MovesOf(teams, learners[..n], org, onlyMismatched);
    if k < |front| {
      i := MovesNameMisplaced(teams, learners[..n], org, onlyMismatched, k);
    } else {
      i := n;
    }
  }

  lemma {:induction false} MisplacedAreNamed(teams: map<string, Team>, learners: seq<Learner>, org: string, onlyMismatched: bool, i: nat)
    requires i < |learners| && Misplaced(teams, learners[i], org, onlyMismatched)
    ensures Names(MovesOf(teams, learners, org, onlyMismatched), learners[i].id)
  {
    var n := |learners| - 1;
    var moves, front := MovesOf(teams, learners, org, onlyMismatched), MovesOf(teams, learners[..n], org, onlyMismatched);
    if i < n {
      MisplacedAreNamed(teams, learners[..n], org, onlyMismatched, i);
      var k :| 0 <= k < |front| && front[k].learnerId == learners[i].id;
      assert moves[k] == front[k];
    } else {
      assert moves[|front|].learnerId == learners[i].id;
    }
  }

  lemma NoMovesMeansPlaced(teams: map<string, Team>, learners: seq<Learner>, org: string, onlyMismatched: bool)
    requires MovesOf(teams, learners, org, onlyMismatched) == []
    ensures AllPlaced(teams, learners, org, onlyMismatched) == learners
  {
    forall i | 0 <= i < |learners| ensures !Misplaced(teams, learners[i], org, onlyMismatched) {
      if Misplaced(teams, learners[i], org, onlyMismatched) {
        MisplacedAreNamed(teams, learners, org, onlyMismatched, i);
      }
    }
  }

  lemma AllMovesPlaceEverybody(teams: map<string, Team>, before: seq<Learner>, now: seq<Learner>, org: string, onlyMismatched: bool)
    requires UniqueLearners(before)
    requires var moves := MovesOf(teams, before, org, onlyMismatched); MovedSoFar(teams, before, now, moves, |moves|)
    ensures now == AllPlaced(teams, before, org, onlyMismatched)
  {
    var moves := MovesOf(teams, before, org, onlyMismatched);
    assert moves[..|moves|] == moves;
    forall i | 0 <= i < |before| ensures Names(moves, before[i].id) <==> Misplaced(teams, before[i], org, onlyMismatched) {
      if Misplaced(teams, before[i], org, onlyMismatched) {
        MisplacedAreNamed(teams, before, org, onlyMismatched, i);
      }
      if k :| 0 <= k < |moves| && moves[k].learnerId == before[i].id {
        var j := MovesNameMisplaced(teams, before, org, onlyMismatched, k);
      }
    }
  }

  function Redirected(learner: Learner, org: string, id: string, departmentId: Option<string>): Learner {
    if learner.id == id && learner.organizationId == org then learner.(departmentId := departmentId) else learner
  }

  class Database {
    var learners: seq<Learner>
    var teams: map<string, Team>
    var tracks: seq<Track>
    var departments: map<string, string>

    ghost function Contents(): Data
      reads this
    {
      Data(learners, teams, tracks, departments)
    }

    constructor (d: Data)
      ensures Contents() == d
    {
      learners, teams, tracks, departments := d.learners, d.teams, d.tracks, d.departments;
    }

    method CollectMoves(org: string, onlyMismatched: bool) returns (moves: seq<Move>)
      ensures moves == MovesOf(teams, learners, org, onlyMismatched)
    {
      moves := [];
      for i := 0 to |learners|
        invariant moves == MovesOf(teams, learners[..i], org, onlyMismatched)
      {
        var learner := learners[i];
        assert learners[..i + 1][..i] == learners[..i];
        if learner.organizationId != org || learner.departmentId == TeamDepartment(teams, learner) {
          continue;
        }
        if onlyMismatched && learner.departmentId.None? {
          continue;
        }
        moves := moves + [MoveOf(teams, learner)];
      }
      assert learners[..|learners|] == learners;
    }

    /** `learner.update({ where: { id } })` inside the organization's tenant frame. */
    method UpdateLearner(org: string, id: string, departmentId: Option<string>)
      modifies this`learners
      ensures |learners| == |old(learners)|
      ensures forall i :: 0 <= i < |learners| ==> learners[i] == Redirected(old(learners)[i], org, id, departmentId)
    {
      learners := Map(learners, (learner: Learner) => Redirected(learner, org, id, departmentId));
    }

    method ApplyMoves(org: string, onlyMismatched: bool, moves: seq<Move>)
      requires UniqueLearners(learners) && moves == MovesOf(teams, learners, org, onlyMismatched)
      modifies this`learners
      ensures learners == AllPlaced(teams, old(learners), org, onlyMismatched)
    {
      for k := 0 to |moves|
        invariant MovedSoFar(teams, old(learners), learners, moves, k)
      {
        ghost var i := MovesNameMisplaced(teams, old(learners), org, onlyMismatched, k);
        forall j | 0 <= j < |learners| ensures Names(moves[..k + 1], old(learners)[j].id)
          <==> Names(moves[..k], old(learners)[j].id) || j == i
        {
          NamesPush(moves, k, old(learners)[j].id);
        }
        UpdateLearner(org, moves[k].learnerId, moves[k].toDepartmentId);
      }
      AllMovesPlaceEverybody(teams, old(learners), learners, org, onlyMismatched);
    }

    method FindOrphans(org: string, moves: seq<Move>, apply: bool, emptied: seq<string>) returns (orphans: seq<string>)
      ensures orphans == OrphansAmong(Contents(), org, moves, apply, emptied)
    {
      orphans := [];
      var d := Data(learners, teams, tracks, departments);
      for i := 0 to |emptied|
        invariant orphans == OrphansAmong(d, org, moves, apply, emptied[..i])
      {
        TakeMore(emptied, i);
        OrphansPush(d, org, moves, apply, emptied[..i], emptied[i]);
        if IsOrphan(d, org, moves, apply, emptied[i]) {
          orphans := orphans + [emptied[i]];
        }
      }
      assert emptied[..|emptied|] == emptied;
    }

    method MovePass(org: string, onlyMismatched: bool, apply: bool) returns (moves: seq<Move>)
      requires UniqueLearners(learners)
      modifies this`learners
      ensures moves == MovesOf(teams, old(learners), org, onlyMismatched)
      ensures learners == if apply then AllPlaced(teams, old(learners), org, onlyMismatched) else old(learners)
    {
      moves := CollectMoves(org, onlyMismatched);
      if apply && |moves| > 0 {
        ApplyMoves(org, onlyMismatched, moves);
      } else if apply {
        NoMovesMeansPlaced(teams, learners, org, onlyMismatched);
      }
    }

    /** `repairOrganization`: what it reports and leaves is `Repair`, in both modes. */
    method RepairOrganization(org: string, onlyMismatched: bool, apply: bool) returns (moves: seq<Move>, orphans: seq<string>)
      requires UniqueLearners(learners)
      modifies this
      ensures (Contents(), moves, orphans) == Repair(old(Contents()), org, onlyMismatched, apply)
      ensures ReportsMoves(old(Contents()), org, onlyMismatched, old(learners), moves)
      ensures apply ==> RepairsAndLists(old(Contents()), Contents(), org, onlyMismatched, orphans)
      ensures !apply ==> Contents() == old(Contents())
      ensures !apply ==> exists e :: RepairsAndLists(Contents(), e, org, onlyMismatched, orphans)
    {
      RepairIs(Contents(), org, onlyMismatched);
      DryRunPredictsApply(Contents(), org, onlyMismatched);
      moves := MovePass(org, onlyMismatched, apply);
      orphans := FindOrphans(org, moves, apply, Vacated(moves));
      if apply && |orphans| > 0 {
        departments := departments - SetOf(orphans);
      }
      assert old(departments) - SetOf([]) == old(departments);
    }
  }

  // ----- every organization in turn

  function RepairAll(d: Data, orgs: seq<string>, onlyMismatched: bool, apply: bool): (Data, seq<seq<string>>)
    decreases |orgs|
  {
    if orgs == [] then (d, [])
    else
      var (next, _, orphans) := Repair(d, orgs[0], onlyMismatched, apply);
      var (end, rest) := RepairAll(next, orgs[1..], onlyMismatched, apply);
      (end, [orphans] + rest)
  }

  /** Each organization is repaired in the data that those before it left. */
  lemma {:induction false} ScriptRepairsEach(d: Data, orgs: seq<string>, onlyMismatched: bool, apply: bool, k: nat)
    requires k < |orgs|
    ensures |RepairAll(d, orgs, onlyMismatched, apply).1| == |orgs|
    ensures var before := RepairAll(d, orgs[..k], onlyMismatched, apply).0;
      && RepairAll(d, orgs[..k + 1], onlyMismatched, apply).0 == Repair(before, orgs[k], onlyMismatched, apply).0
      && RepairAll(d, orgs, onlyMismatched, apply).1[k] == Repair(before, orgs[k], onlyMismatched, apply).2
    decreases |orgs|
  {
    hide Repair;
    var next := Repair(d, orgs[0], onlyMismatched, apply).0;
    assert orgs[..k + 1][1..] == orgs[1..][..k];
    if k > 0 {
      ScriptRepairsEach(next, orgs[1..], onlyMismatched, apply, k - 1);
      assert orgs[..k][1..] == orgs[1..][..k - 1];
    } else if |orgs| > 1 {
      ScriptRepairsEach(next, orgs[1..], onlyMismatched, apply, 0);
    }
  }

  function MovesBy(d: Data, org: string, onlyMismatched: bool): seq<Move> {
    MovesOf(d.teams, d.learners, org, onlyMismatched)
  }

  /** How many learners the first `k` organizations move off a department. */
  function LeaversUpTo(d: Data, orgs: seq<string>, onlyMismatched: bool, department: string, k: nat): int
    requires k <= |orgs|
  {
    if k == 0 then 0
    else
      LeaversUpTo(d, orgs, onlyMismatched, department, k - 1)
      + MovesFrom(MovesBy(d, orgs[k - 1], onlyMismatched), department)
  }

  /** A department that `org` owns and vacates, held by no team and no track: whether it goes is up to its learners. */
  ghost predicate Candidate(d: Data, org: string, onlyMismatched: bool, department: string) {
    && department in Vacated(MovesBy(d, org, onlyMismatched))
    && department in d.departments && d.departments[department] == org
    && TeamsIn(d.teams, department) == 0 && TracksIn(d.tracks, department) == 0
  }

  /** Its own organization would leave learners in it, but organizations repaired before take those out. */
  ghost predicate EmptiedByOthers(d: Data, orgs: seq<string>, onlyMismatched: bool, k: nat, department: string) {
    && k < |orgs| && Candidate(d, orgs[k], onlyMismatched, department)
    && MovesFrom(MovesBy(d, orgs[k], onlyMismatched), department) < LearnersIn(d.learners, department)
    && LearnersIn(d.learners, department) <= LeaversUpTo(d, orgs, onlyMismatched, department, k + 1)
  }

  /** Every learner's department belongs to the learner's own organization, if it exists at all. */
  ghost predicate OwnDepartments(d: Data) {
    forall i :: 0 <= i < |d.learners| ==> InOwnDepartment(d, d.learners[i])
  }

  ghost predicate InOwnDepartment(d: Data, learner: Learner) {
    learner.departmentId.Some? && learner.departmentId.value in d.departments ==>
      d.departments[learner.departmentId.value] == learner.organizationId
  }

  /** `e` is what `--apply` makes of `d` in the first `k` organizations. */
  ghost predicate AfterFirst(d: Data, e: Data, orgs: seq<string>, onlyMismatched: bool, k: nat)
    requires k <= |orgs|
  {
    && e.teams == d.teams && e.tracks == d.tracks
    && SameElsewhere(d, e, orgs[..k])
    && (forall dep | TeamsIn(d.teams, dep) == 0 ::
          LearnersIn(e.learners, dep) == LearnersIn(d.learners, dep) - LeaversUpTo(d, orgs, onlyMismatched, dep, k))
  }

  /** Learners and departments of organizations not yet repaired are untouched. */
  ghost predicate SameElsewhere(d: Data, e: Data, repaired: seq<string>) {
    && |e.learners| == |d.learners|
    && (forall i :: 0 <= i < |d.learners| ==> e.learners[i].organizationId == d.learners[i].organizationId)
    && (forall i :: 0 <= i < |d.learners| && d.learners[i].organizationId !in repaired ==> e.learners[i] == d.learners[i])
    && (forall dep :: dep in e.departments ==> dep in d.departments && e.departments[dep] == d.departments[dep])
    && (forall dep :: dep in d.departments && d.departments[dep] !in repaired ==> dep in e.departments)
  }

  lemma SameAfterOneMore(d: Data, e: Data, next: Data, repaired: seq<string>, org: string)
    requires SameElsewhere(d, e, repaired) && SameElsewhere(e, next, [org])
    ensures SameElsewhere(d, next, repaired + [org])
  {
  }

  /** `org` is not affected: its learners and departments stand as before, teamless ones with as many learners. */
  ghost predicate SameFor(d: Data, e: Data, org: string) {
    && e.teams == d.teams && e.tracks == d.tracks && |e.learners| == |d.learners|
    && (forall i :: 0 <= i < |d.learners| ==> e.learners[i].organizationId == d.learners[i].organizationId)
    && (forall i :: 0 <= i < |d.learners| && d.learners[i].organizationId == org ==> e.learners[i] == d.learners[i])
    && (forall dep :: (dep in d.departments && d.departments[dep] == org) <==> (dep in e.departments && e.departments[dep] == org))
    && (forall dep | dep in d.departments && d.departments[dep] == org && TeamsIn(d.teams, dep) == 0 ::
          LearnersIn(e.learners, dep) == LearnersIn(d.learners, dep))
  }

  lemma {:induction false} SameMoves(teams: map<string, Team>, a: seq<Learner>, b: seq<Learner>, org: string, onlyMismatched: bool)
    requires |a| == |b|
    requires forall i :: 0 <= i < |a| ==> a[i].organizationId == b[i].organizationId
    requires forall i :: 0 <= i < |a| && a[i].organizationId == org ==> a[i] == b[i]
    ensures MovesOf(teams, a, org, onlyMismatched) == MovesOf(teams, b, org, onlyMismatched)
  {
    if a != [] {
      SameMoves(teams, a[..|a| - 1], b[..|b| - 1], org, onlyMismatched);
    }
  }

  /** A department that no mover of `org` leaves keeps its head count, unless it has a team. */
  lemma {:induction false} NoMoversFrom(teams: map<string, Team>, learners: seq<Learner>, org: string, onlyMismatched: bool,
                                        department: string)
    requires forall i :: 0 <= i < |learners| && learners[i].organizationId == org ==> learners[i].departmentId != Some(department)
    ensures MovesFrom(MovesOf(teams, learners, org, onlyMismatched), department) == 0
  {
    if learners != [] {
      var n := |learners| - 1;
      NoMoversFrom(teams, learners[..n], org, onlyMismatched, department);
      MovesFromPush(MovesOf(teams, learners[..n], org, onlyMismatched), MoveOf(teams, learners[n]), department);
      assert MovesOf(teams, learners[..n], org, onlyMismatched) + [] == MovesOf(teams, learners[..n], org, onlyMismatched);
    }
  }

  /** Repairing one organization leaves another as it is exactly when it moves nobody off that one's teamless departments. */
  lemma ApplyLeavesOthers(d: Data, org: string, onlyMismatched: bool, other: string)
    requires other != org
    ensures SameFor(d, Repair(d, org, onlyMismatched, true).0, other)
      <==> forall dep | dep in d.departments && d.departments[dep] == other && TeamsIn(d.teams, dep) == 0 ::
        MovesFrom(MovesBy(d, org, onlyMismatched), dep) == 0
  {
    AppliedTo(d, org, onlyMismatched);
    hide Repair, MovesBy, LearnersIn, MovesFrom, TeamsIn;
  }

  lemma AppliedOne(d: Data, e: Data, orgs: seq<string>, onlyMismatched: bool, k: nat)
    requires NoDup(orgs) && k < |orgs| && AfterFirst(d, e, orgs, onlyMismatched, k)
    ensures MovesBy(e, orgs[k], onlyMismatched) == MovesBy(d, orgs[k], onlyMismatched)
    ensures AfterFirst(d, Repair(e, orgs[k], onlyMismatched, true).0, orgs, onlyMismatched, k + 1)
  {
    var org := orgs[k];
    TakeMore(orgs, k);
    assert org !in orgs[..k];
    SameMoves(d.teams, d.learners, e.learners, org, onlyMismatched);
    AppliedTo(e, org, onlyMismatched);
    hide Repair, MovesBy, LearnersIn, MovesFrom, TeamsIn, SameElsewhere;
    SameAfterOneMore(d, e, Repair(e, org, onlyMismatched, true).0, orgs[..k], org);
  }

  /** What one applied repair changes, whoever refers to whom. */
  lemma AppliedTo(e: Data, org: string, onlyMismatched: bool)
    ensures var next := Repair(e, org, onlyMismatched, true).0;
      && next.teams == e.teams && next.tracks == e.tracks && SameElsewhere(e, next, [org])
      && (forall dep | TeamsIn(e.teams, dep) == 0 ::
            LearnersIn(next.learners, dep) == LearnersIn(e.learners, dep) - MovesFrom(MovesBy(e, org, onlyMismatched), dep))
  {
    var next := Repair(e, org, onlyMismatched, true).0;
    forall dep | dep in e.departments && e.departments[dep] != org ensures dep in next.departments {
      if dep !in next.departments {
        DeletedAreUnreferenced(e, org, onlyMismatched, dep);
      }
    }
    forall dep | TeamsIn(e.teams, dep) == 0
      ensures LearnersIn(next.learners, dep) == LearnersIn(e.learners, dep) - MovesFrom(MovesBy(e, org, onlyMismatched), dep)
    {
      PlacingCounts(e.teams, e.learners, org, onlyMismatched, dep);
    }
  }

  lemma {:induction false} LeaversAreCounted(d: Data, orgs: seq<string>, onlyMismatched: bool, department: string, k: nat)
    requires k <= |orgs|
    ensures LeaversUpTo(d, orgs, onlyMismatched, department, k) >= 0
  {
    if k > 0 {
      LeaversAreCounted(d, orgs, onlyMismatched, department, k - 1);
    }
  }

  lemma JudgedAlike(d: Data, e: Data, orgs: seq<string>, onlyMismatched: bool, k: nat, department: string)
    requires k < |orgs| && AfterFirst(d, e, orgs, onlyMismatched, k) && orgs[k] !in orgs[..k]
    requires department in Vacated(MovesBy(d, orgs[k], onlyMismatched))
    ensures IsOrphan(d, orgs[k], MovesBy(d, orgs[k], onlyMismatched), false, department)
         == IsOrphan(e, orgs[k], MovesBy(d, orgs[k], onlyMismatched), false, department)
      <==> !EmptiedByOthers(d, orgs, onlyMismatched, k, department)
  {
    hide LearnersIn, MovesFrom, Vacated, MovesBy;
    LeaversAreCounted(d, orgs, onlyMismatched, department, k);
  }

  lemma FiltersDiffer<T(!new)>(s: seq<T>, p: T -> bool, q: T -> bool, x: T)
    requires x in s && p(x) != q(x)
    ensures Filter(s, p) != Filter(s, q)
  {
    FilterMembers(s, p);
    FilterMembers(s, q);
  }

  /** The k-th lists of the dry run and of `--apply` are the same exactly when no department of the k-th organization is emptied by others. */
  lemma ListsAgreeExactly(d: Data, e: Data, orgs: seq<string>, onlyMismatched: bool, k: nat)
    requires NoDup(orgs) && k < |orgs| && AfterFirst(d, e, orgs, onlyMismatched, k)
    ensures Repair(d, orgs[k], onlyMismatched, false).2 == Repair(e, orgs[k], onlyMismatched, true).2
      <==> forall department :: !EmptiedByOthers(d, orgs, onlyMismatched, k, department)
  {
    hide EmptiedByOthers, AfterFirst, IsOrphan, Vacated, MovesBy;
    var org, moves := orgs[k], MovesBy(d, orgs[k], onlyMismatched);
    AppliedOne(d, e, orgs, onlyMismatched, k);
    DryRunPredictsApply(e, org, onlyMismatched);
    DryLists(d, org, onlyMismatched);
    DryLists(e, org, onlyMismatched);
    var ids := Vacated(moves);
    var p := department => IsOrphan(d, org, moves, false, department);
    var q := department => IsOrphan(e, org, moves, false, department);
    assert OrphansAmong(d, org, moves, false, ids) == Filter(ids, p) && OrphansAmong(e, org, moves, false, ids) == Filter(ids, q);
    forall department | department in ids
      ensures p(department) == q(department) <==> !EmptiedByOthers(d, orgs, onlyMismatched, k, department)
    {
      JudgedAlike(d, e, orgs, onlyMismatched, k, department);
    }
    if department :| EmptiedByOthers(d, orgs, onlyMismatched, k, department) {
      EmptiedIsCandidate(d, orgs, onlyMismatched, k, department);
      FiltersDiffer(ids, p, q, department);
    } else {
      FilterSame(ids, p, q);
    }
  }

  lemma DryLists(d: Data, org: string, onlyMismatched: bool)
    ensures var moves := MovesBy(d, org, onlyMismatched);
      Repair(d, org, onlyMismatched, false).2 == OrphansAmong(d, org, moves, false, Vacated(moves))
  {
  }

  lemma EmptiedIsCandidate(d: Data, orgs: seq<string>, onlyMismatched: bool, k: nat, department: string)
    requires EmptiedByOthers(d, orgs, onlyMismatched, k, department)
    ensures k < |orgs| && department in Vacated(MovesBy(d, orgs[k], onlyMismatched))
  {
  }

  lemma {:induction false} PredictsExactlyFrom(d: Data, e: Data, orgs: seq<string>, onlyMismatched: bool, k: nat)
    requires NoDup(orgs) && k <= |orgs| && AfterFirst(d, e, orgs, onlyMismatched, k)
    ensures RepairAll(d, orgs[k..], onlyMismatched, false).1 == RepairAll(e, orgs[k..], onlyMismatched, true).1
      <==> forall j: nat, department | k <= j < |orgs| :: !EmptiedByOthers(d, orgs, onlyMismatched, j, department)
    decreases |orgs| - k
  {
    hide EmptiedByOthers, AfterFirst, Repair;
    if k < |orgs| {
      var next := Repair(e, orgs[k], onlyMismatched, true).0;
      AppliedOne(d, e, orgs, onlyMismatched, k);
      ListsAgreeExactly(d, e, orgs, onlyMismatched, k);
      PredictsExactlyFrom(d, next, orgs, onlyMismatched, k + 1);
      DryRunWritesNothing(d, orgs[k], onlyMismatched);
      assert orgs[k..][1..] == orgs[k + 1..] && orgs[k..][0] == orgs[k];
      SameListExactly(Repair(d, orgs[k], onlyMismatched, false).2, RepairAll(d, orgs[k + 1..], onlyMismatched, false).1,
                      Repair(e, orgs[k], onlyMismatched, true).2, RepairAll(next, orgs[k + 1..], onlyMismatched, true).1);
    }
  }

  lemma SameListExactly<T>(x: T, s: seq<T>, y: T, t: seq<T>)
    ensures [x] + s == [y] + t <==> x == y && s == t
  {
    assert ([x] + s)[0] == x && ([y] + t)[0] == y && ([x] + s)[1..] == s && ([y] + t)[1..] == t;
  }

  lemma DryRunWritesNothing(d: Data, org: string, onlyMismatched: bool)
    ensures Repair(d, org, onlyMismatched, false).0 == d
  {
  }

  /**
   * The whole script, over any list of organizations: the dry run's lists are what `--apply` deletes exactly
   * when no organization's vacated department loses its remaining learners to organizations repaired before.
   */
  lemma ScriptPredictsExactly(d: Data, orgs: seq<string>, onlyMismatched: bool)
    requires NoDup(orgs)
    ensures RepairAll(d, orgs, onlyMismatched, false).1 == RepairAll(d, orgs, onlyMismatched, true).1
      <==> forall k: nat, department :: !EmptiedByOthers(d, orgs, onlyMismatched, k, department)
  {
    assert orgs[0..] == orgs;
    PredictsExactlyFrom(d, d, orgs, onlyMismatched, 0);
  }

  lemma {:induction false} OwnLeavers(d: Data, orgs: seq<string>, onlyMismatched: bool, department: string, k: nat)
    requires OwnDepartments(d) && department in d.departments && k <= |orgs| && d.departments[department] !in orgs[..k]
    ensures LeaversUpTo(d, orgs, onlyMismatched, department, k) == 0
  {
    hide LearnersIn, MovesFrom;
    if k > 0 {
      TakeMore(orgs, k - 1);
      OwnLeavers(d, orgs, onlyMismatched, department, k - 1);
      forall i | 0 <= i < |d.learners| && d.learners[i].organizationId == orgs[k - 1]
        ensures d.learners[i].departmentId != Some(department)
      {
        assert InOwnDepartment(d, d.learners[i]);
      }
      NoMoversFrom(d.teams, d.learners, orgs[k - 1], onlyMismatched, department);
    }
  }

  /** In particular it does when every learner's department is one of the learner's own organization. */
  lemma ScriptDryRunPredictsApply(d: Data, orgs: seq<string>, onlyMismatched: bool)
    requires NoDup(orgs) && OwnDepartments(d)
    ensures RepairAll(d, orgs, onlyMismatched, false).1 == RepairAll(d, orgs, onlyMismatched, true).1
  {
    forall k: nat, department ensures !EmptiedByOthers(d, orgs, onlyMismatched, k, department) {
      if k < |orgs| && Candidate(d, orgs[k], onlyMismatched, department) {
        OwnLeavers(d, orgs, onlyMismatched, department, k);
      }
    }
    ScriptPredictsExactly(d, orgs, onlyMismatched);
  }

  lemma OneMove(teams: map<string, Team>, a: Learner, b: Learner, org: string, department: string)
    requires a.organizationId != org && b.organizationId == org
    requires b.departmentId == Some(department) && TeamsIn(teams, department) == 0
    ensures MovesOf(teams, [a, b], org, false) == [MoveOf(teams, b)]
    ensures MovesFrom([MoveOf(teams, b)], department) == 1 && Vacated([MoveOf(teams, b)]) == [department]
  {
    var moves := [MoveOf(teams, b)];
    NobodyMovesWithoutTeam(teams, b, department);
    assert [a, b][..1] == [a] && [a][..0] == [];
    assert MovesOf(teams, [a], org, false) == [];
    OneVacates(MoveOf(teams, b), department);
  }

  lemma OneVacates(move: Move, department: string)
    requires move.fromDepartmentId == Some(department)
    ensures MovesFrom([move], department) == 1 && Vacated([move]) == [department]
  {
    FilterCons(move, [], (m: Move) => m.fromDepartmentId == Some(department));
    assert [move] + [] == [move];
    OneVacatedId(move, department);
    DistinctOne(department);
    hide Distinct, VacatedIds;
  }

  lemma OneVacatedId(move: Move, department: string)
    requires move.fromDepartmentId == Some(department)
    ensures VacatedIds([move]) == [department]
  {
    assert [move][..0] == [] && VacatedIds([]) == [];
  }

  lemma DistinctOne(x: string)
    ensures Distinct([x]) == [x]
  {
    assert [x][..0] == [];
  }

  lemma CountTwo(a: Learner, b: Learner, department: string)
    ensures LearnersIn([a, b], department)
      == (if a.departmentId == Some(department) then 1 else 0) + (if b.departmentId == Some(department) then 1 else 0)
  {
    LearnersInPush([], a, department);
    LearnersInPush([a], b, department);
    assert [] + [a] == [a] && [a] + [b] == [a, b];
  }

  lemma ReportOnTwo(d: Data, a: Learner, b: Learner, org: string, department: string, apply: bool)
    requires d.learners == [a, b] && a.organizationId != org && b.organizationId == org
    requires b.departmentId == Some(department) && TeamsIn(d.teams, department) == 0
    ensures var moves := MovesOf(d.teams, d.learners, org, false);
      && MovesFrom(moves, department) == 1
      && LearnersIn(d.learners, department) == (if a.departmentId == Some(department) then 2 else 1)
      && Orphans(d, org, moves, apply) == (if IsOrphan(d, org, moves, apply, department) then [department] else [])
  {
    OneMove(d.teams, a, b, org, department);
    CountTwo(a, b, department);
    OrphansPush(d, org, [MoveOf(d.teams, b)], apply, [], department);
    assert [] + [department] == [department];
  }

  lemma FirstLeaves(d: Data, a: Learner, b: Learner, department: string)
    requires d.learners == [a, b] && a.organizationId != b.organizationId && a.departmentId == Some(department)
    requires department in d.departments && d.departments[department] == b.organizationId && TeamsIn(d.teams, department) == 0
    ensures var e := Repair(d, a.organizationId, false, true).0;
      && e.teams == d.teams && e.tracks == d.tracks && |e.learners| == 2 && e.learners[1] == b
      && e.learners[0].organizationId == a.organizationId && e.learners[0].departmentId != Some(department)
      && department in e.departments && e.departments[department] == b.organizationId
  {
    var e := Repair(d, a.organizationId, false, true).0;
    AppliedTo(d, a.organizationId, false);
    hide LearnersIn, MovesFrom, Filter, Vacated, MovesOf, Orphans, IsOrphan;
    NobodyMovesWithoutTeam(d.teams, a, department);
    assert e.learners[1] == d.learners[1] && e.learners[0] == Placed(d.teams, a, a.organizationId, false);
  }

  /**
   * A family for which the prediction fails: `a` sits in a department of `b`'s organization and leaves it
   * when its own organization is repaired first, so the dry run keeps what `--apply` deletes.
   */
  lemma CrossOrganizationReferencesBreakPrediction(d: Data, a: Learner, b: Learner, department: string)
    requires d.learners == [a, b] && a.organizationId != b.organizationId
    requires a.departmentId == b.departmentId == Some(department)
    requires department in d.departments && d.departments[department] == b.organizationId
    requires TeamsIn(d.teams, department) == 0 && TracksIn(d.tracks, department) == 0
    ensures !OwnDepartments(d)
    ensures Repair(d, b.organizationId, false, false).2 == []
    ensures Repair(Repair(d, a.organizationId, false, true).0, b.organizationId, false, true).2 == [department]
  {
    assert !InOwnDepartment(d, d.learners[0]);
    FirstLeaves(d, a, b, department);
    var e := Repair(d, a.organizationId, false, true).0;
    var moved := e.learners[0];
    assert e.learners == [moved, b];
    ReportOnTwo(d, a, b, b.organizationId, department, false);
    ReportOnTwo(e, moved, b, b.organizationId, department, false);
    DryRunPredictsApply(e, b.organizationId, false);
    hide LearnersIn, MovesFrom, Filter, Vacated, MovesOf, OwnDepartments, AllPlaced;
  }
}
