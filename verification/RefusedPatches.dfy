/** Refused patches: a patch is not one transaction, so what it did before the refusal stays. */
module RefusedPatches {
  import opened Wrappers
  import opened Seqs
  import opened Assignments

  lemma {:induction false} RefusedAdditionStays(s: State, learner: string, assignment: Id, add: seq<Addition>, k: nat, n: nat)
    requires k <= n <= |add| && !AddAll(s, learner, assignment, add, k).1
    ensures AddAll(s, learner, assignment, add, n) == AddAll(s, learner, assignment, add, k)
    decreases n
  {
    if k < n {
      RefusedAdditionStays(s, learner, assignment, add, k, n - 1);
    }
  }

  lemma {:induction false} RefusedRemovalStays(s: State, assignment: Id, remove: seq<string>, k: nat, n: nat)
    requires k <= n <= |remove| && !RemoveAll(s, assignment, remove, k).1
    ensures RemoveAll(s, assignment, remove, n) == RemoveAll(s, assignment, remove, k)
    decreases n
  {
    if k < n {
      RefusedRemovalStays(s, assignment, remove, k, n - 1);
    }
  }

  /** The first addition whose outcome does not exist. */
  function FirstUnknown(add: seq<Addition>, from: nat): (i: nat)
    requires from <= |add| && AllFound(add, from)
    ensures from <= i <= |add| && AllFound(add, i) && (i < |add| ==> !add[i].found)
    decreases |add| - from
  {
    if from < |add| && add[from].found then FirstUnknown(add, from + 1) else from
  }

  /** The first removal that names a base outcome. */
  function FirstBase(remove: seq<string>, base: set<string>, from: nat): (j: nat)
    requires from <= |remove| && NoneIn(remove, from, base)
    ensures from <= j <= |remove| && NoneIn(remove, j, base) && (j < |remove| ==> remove[j] in base)
    decreases |remove| - from
  {
    if from < |remove| && remove[from] !in base then FirstBase(remove, base, from + 1) else from
  }

  /** How far a patch of this assignment gets: its additions, and its removals once all additions went through. */
  function Additions(add: seq<Addition>): nat {
    FirstUnknown(add, 0)
  }

  function Removals(rows: Rows, assignment: Id, add: seq<Addition>, remove: seq<string>): nat {
    if Additions(add) < |add| then 0 else FirstBase(remove, BaseOf(rows, assignment), 0)
  }

  /** What it added was there already or went again, and nothing it removed had been there before. */
  ghost predicate TraceLess(rows: Rows, assignment: Id, add: seq<Addition>, remove: seq<string>, i: nat, j: nat)
    requires i <= |add| && j <= |remove|
  {
    && (forall k :: 0 <= k < i ==> add[k].outcomeId in OutcomesOf(rows, assignment) || add[k].outcomeId in remove[..j])
    && (forall k :: 0 <= k < j ==> remove[k] !in OutcomesOf(rows, assignment))
  }

  ghost predicate LeavesNoTrace(rows: Rows, assignment: Id, add: seq<Addition>, remove: seq<string>) {
    Removals(rows, assignment, add, remove) <= |remove|
    && TraceLess(rows, assignment, add, remove, Additions(add), Removals(rows, assignment, add, remove))
  }

  ghost predicate NewOutcomesOnly(s: State, t: State, assignment: Id) {
    forall id :: id in t.rows && id !in s.rows ==> t.rows[id].outcomeId !in OutcomesOf(s.rows, assignment)
  }

  lemma AddOneIsNew(s: State, t: State, learner: string, assignment: Id, outcome: string)
    requires NewOutcomesOnly(s, t, assignment) && OutcomesOf(s.rows, assignment) <= OutcomesOf(t.rows, assignment)
    ensures NewOutcomesOnly(s, AddOne(t, learner, assignment, outcome), assignment)
  {
    OutcomesMean(t.rows, assignment);
    hide OutcomesOf, RowsOf;
    if RowFor(t.rows, assignment, outcome).None? {
      assert outcome !in OutcomesOf(t.rows, assignment);
    }
  }

  lemma {:induction false} AddAllIsNew(s: State, learner: string, assignment: Id, add: seq<Addition>, k: nat)
    requires k <= |add| && Inv(s) && IsActiveOf(s, learner, assignment) && AllFound(add, k)
    ensures NewOutcomesOnly(s, AddAll(s, learner, assignment, add, k).0, assignment)
  {
    hide Inv, OutcomesOf, IsActiveOf, AddOne;
    if k > 0 {
      AddAllIsNew(s, learner, assignment, add, k - 1);
      AddAllFacts(s, learner, assignment, add, k - 1);
      var t := AddAll(s, learner, assignment, add, k - 1).0;
      hide NewOutcomesOnly;
      AddOneIsNew(s, t, learner, assignment, add[k - 1].outcomeId);
    }
  }

  ghost predicate Shrinks(s: State, t: State) {
    t.rows.Keys <= s.rows.Keys && forall id :: id in t.rows ==> t.rows[id] == s.rows[id]
  }

  lemma {:induction false} RemoveAllShrinks(s: State, assignment: Id, remove: seq<string>, k: nat)
    requires k <= |remove|
    ensures Shrinks(s, RemoveAll(s, assignment, remove, k).0)
  {
    if k > 0 {
      RemoveAllShrinks(s, assignment, remove, k - 1);
    }
  }

  /** With the outcomes it had before, and no second row for any of them, an assignment has the very same rows. */
  lemma SameOutcomesSameRows(s: State, t: State, assignment: Id)
    requires Inv(s) && Patched(s, t, assignment, false) && NewOutcomesOnly(s, t, assignment)
    requires OutcomesOf(t.rows, assignment) == OutcomesOf(s.rows, assignment)
    ensures t.rows == s.rows
  {
    OutcomesMean(s.rows, assignment);
    OutcomesMean(t.rows, assignment);
    hide OutcomesOf, Inv;
    forall id | id in t.rows ensures id in s.rows {
      assert t.rows[id].assignmentId == assignment ==> IsRowFor(t.rows, assignment, t.rows[id].outcomeId, id);
    }
    forall id | id in s.rows ensures id in t.rows {
      if s.rows[id].assignmentId == assignment {
        var outcome := s.rows[id].outcomeId;
        assert IsRowFor(s.rows, assignment, outcome, id);
        assert outcome in OutcomesOf(s.rows, assignment) && outcome in OutcomesOf(t.rows, assignment);
        var other :| IsRowFor(t.rows, assignment, outcome, other);
        assert IsRowFor(s.rows, assignment, outcome, other);
        InvForRows(s);
        OnlyRow(s.rows, assignment, outcome, id);
        OnlyRow(s.rows, assignment, outcome, other);
      }
    }
  }

  lemma InvForRows(s: State)
    requires Inv(s)
    ensures OneRowEach(s.rows)
  {
  }

  lemma SameSetExactly(before: set<string>, added: set<string>, removed: set<string>)
    ensures before + added - removed == before <==> (forall o :: o in added ==> o in before || o in removed) && before !! removed
  {
    if before + added - removed == before {
      forall o | o in added ensures o in before || o in removed {
        assert o in before + added - removed || o in removed;
      }
      forall o | o in before ensures o !in removed {
        assert o in before + added - removed;
      }
    }
  }

  lemma TraceLessMeans(rows: Rows, assignment: Id, add: seq<Addition>, remove: seq<string>, i: nat, j: nat)
    requires i <= |add| && j <= |remove|
    ensures TraceLess(rows, assignment, add, remove, i, j) <==>
      (forall o :: o in Added(add, i) ==> o in OutcomesOf(rows, assignment) || o in SetOf(remove[..j]))
      && OutcomesOf(rows, assignment) !! SetOf(remove[..j])
  {
    hide OutcomesOf;
    forall k | 0 <= k < i ensures add[k].outcomeId in Added(add, i) {
    }
    forall k | 0 <= k < j ensures remove[k] in SetOf(remove[..j]) {
      assert remove[..j][k] == remove[k];
    }
  }

  /** After `i` additions and `j` removals, none of them refused, the rows are as before exactly if that left no trace. */
  lemma RowsStayExactly(s: State, learner: string, assignment: Id, add: seq<Addition>, remove: seq<string>, i: nat, j: nat)
    requires Inv(s) && IsActiveOf(s, learner, assignment)
    requires i <= |add| && j <= |remove| && AllFound(add, i) && NoneIn(remove, j, BaseOf(s.rows, assignment))
    ensures RemoveAll(AddAll(s, learner, assignment, add, i).0, assignment, remove, j).0.rows == s.rows
      <==> TraceLess(s.rows, assignment, add, remove, i, j)
  {
    var added := AddAll(s, learner, assignment, add, i).0;
    var t := RemoveAll(added, assignment, remove, j).0;
    AddAllFacts(s, learner, assignment, add, i);
    AddAllIsNew(s, learner, assignment, add, i);
    RemoveAllFacts(added, assignment, remove, j);
    RemoveAllShrinks(added, assignment, remove, j);
    assert NewOutcomesOnly(s, t, assignment);
    hide *;
    PatchedAgain(s, added, t, assignment, false, false);
    SameSetExactly(OutcomesOf(s.rows, assignment), Added(add, i), SetOf(remove[..j]));
    TraceLessMeans(s.rows, assignment, add, remove, i, j);
    if OutcomesOf(t.rows, assignment) == OutcomesOf(s.rows, assignment) {
      SameOutcomesSameRows(s, t, assignment);
    }
  }

  lemma AdditionsStop(s: State, learner: string, assignment: Id, add: seq<Addition>)
    requires Inv(s) && IsActiveOf(s, learner, assignment)
    ensures AddAll(s, learner, assignment, add, |add|) == (AddAll(s, learner, assignment, add, Additions(add)).0, Additions(add) == |add|)
  {
    var i := Additions(add);
    AddAllFacts(s, learner, assignment, add, i);
    hide Inv, Patched, OutcomesOf, BaseOf, IsActiveOf, AddOne;
    if i < |add| {
      assert AddAll(s, learner, assignment, add, i + 1) == (AddAll(s, learner, assignment, add, i).0, false);
      RefusedAdditionStays(s, learner, assignment, add, i + 1, |add|);
    }
  }

  lemma RemovalsStop(s: State, assignment: Id, remove: seq<string>)
    requires Inv(s)
    ensures var j := FirstBase(remove, BaseOf(s.rows, assignment), 0);
      RemoveAll(s, assignment, remove, |remove|) == (RemoveAll(s, assignment, remove, j).0, j == |remove|)
  {
    hide Inv, Patched, OutcomesOf, BaseOf, RemoveOne, FirstBase, SetOf;
    var j := FirstBase(remove, BaseOf(s.rows, assignment), 0);
    RemoveAllFacts(s, assignment, remove, j);
    if j < |remove| {
      var t := RemoveAll(s, assignment, remove, j).0;
      RemoveOneFacts(t, assignment, remove[j]);
      RefusedRemovalLeaves(t, assignment, remove[j]);
      assert RemoveAll(s, assignment, remove, j + 1) == (t, false);
      RefusedRemovalStays(s, assignment, remove, j + 1, |remove|);
    }
  }

  /** A refused patch ends after the additions and removals before the one that is refused. */
  lemma RefusedPatchStops(s: State, learner: string, assignment: Id, add: seq<Addition>, remove: seq<string>, priorities: seq<Priority>)
    requires Inv(s) && IsActiveOf(s, learner, assignment)
    requires PatchOutcomes(s, learner, add, remove, priorities).1 != Done
    ensures var j := Removals(s.rows, assignment, add, remove);
      && j <= |remove| && NoneIn(remove, j, BaseOf(s.rows, assignment))
      && PatchOutcomes(s, learner, add, remove, priorities).0
        == RemoveAll(AddAll(s, learner, assignment, add, Additions(add)).0, assignment, remove, j).0
  {
    var added := AddAll(s, learner, assignment, add, Additions(add)).0;
    OnlyActiveInv(s, learner, assignment);
    AdditionsStop(s, learner, assignment, add);
    AddAllFacts(s, learner, assignment, add, Additions(add));
    RemovalsStop(added, assignment, remove);
    hide Inv, Patched, OutcomesOf, BaseOf, IsActiveOf, AddOne, RemoveOne, ReprioritizeAll, FirstUnknown, FirstBase, ActiveOf;
  }

  lemma RefusedRemovalLeaves(s: State, assignment: Id, outcome: string)
    requires !RemoveOne(s, assignment, outcome).1
    ensures RemoveOne(s, assignment, outcome).0 == s
  {
  }

  /**
   * A refused patch leaves the rows alone exactly when, up to the refused item, every added outcome was there
   * already or is removed again, and no removal names an outcome that was there.
   */
  lemma RefusedPatchLeavesRowsExactly(s: State, learner: string, add: seq<Addition>, remove: seq<string>, priorities: seq<Priority>)
    requires Inv(s) && PatchOutcomes(s, learner, add, remove, priorities).1 != Done
    ensures PatchOutcomes(s, learner, add, remove, priorities).0.rows == s.rows <==>
      (ActiveOf(s, learner).None? || LeavesNoTrace(s.rows, ActiveOf(s, learner).value, add, remove))
  {
    hide Inv, TraceLess, Additions, Removals, AddAll, RemoveAll, BaseOf, NoneIn, PatchRows;
    if ActiveOf(s, learner).Some? {
      var a := ActiveOf(s, learner).value;
      RefusedPatchStops(s, learner, a, add, remove, priorities);
      AdditionsFound(add);
      RowsStayExactly(s, learner, a, add, remove, Additions(add), Removals(s.rows, a, add, remove));
    }
  }

  lemma AdditionsFound(add: seq<Addition>)
    ensures Additions(add) <= |add| && AllFound(add, Additions(add))
  {
  }

  /** For example: a new outcome followed by an unknown one. The patch is refused and the first one stays. */
  lemma RefusedPatchKeepsAdditions(s: State, learner: string, assignment: Id, known: string, unknown: string)
    requires Inv(s) && IsActiveOf(s, learner, assignment) && known !in OutcomesOf(s.rows, assignment)
    ensures var (t, answer) := PatchOutcomes(s, learner, [Addition(known, true), Addition(unknown, false)], [], []);
      answer == Invalid && known in OutcomesOf(t.rows, assignment) && t.rows != s.rows
  {
    var add := [Addition(known, true), Addition(unknown, false)];
    OnlyActiveInv(s, learner, assignment);
    AddOneFacts(s, learner, assignment, known);
    assert AddAll(s, learner, assignment, add, 0) == (s, true);
    assert AddAll(s, learner, assignment, add, 1) == (AddOne(s, learner, assignment, known), true);
    assert AddAll(s, learner, assignment, add, 2) == (AddOne(s, learner, assignment, known), false);
  }
}
