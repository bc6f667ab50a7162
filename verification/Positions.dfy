/** Sibling positions under a unique constraint: levels of a track, outcomes of a level. */
module Positions {
  import opened Wrappers
  import opened Seqs

  datatype Row = Row(parentId: string, order: int)

  type Table = map<string, Row>

  /** The clearance that the first phase of a reorder adds to the number of siblings. */
  const CLEARANCE := 1000

  ghost predicate SamePlace(t: Table, a: string, b: string)
    requires a in t && b in t
  {
    t[a].parentId == t[b].parentId && t[a].order == t[b].order
  }

  /** The unique constraint on (parent, order). */
  ghost predicate Unique(t: Table) {
    forall a, b :: a in t && b in t && a != b ==> !SamePlace(t, a, b)
  }

  function Siblings(t: Table, parent: string): set<string> {
    set id | id in t && t[id].parentId == parent
  }

  // ----- single statements, each checked against the constraint

  predicate Taken(t: Table, id: string, parent: string, position: int) {
    exists other :: other in t && other != id && t[other].parentId == parent && t[other].order == position
  }

  function WriteRow(t: Table, id: string, position: int): Option<Table> {
    if id !in t || Taken(t, id, t[id].parentId, position) then None else Some(t[id := t[id].(order := position)])
  }

  function InsertRow(t: Table, id: string, parent: string, position: int): Option<Table> {
    if id in t || Taken(t, id, parent, position) then None else Some(t[id := Row(parent, position)])
  }

  lemma WriteKeepsUnique(t: Table, id: string, position: int)
    requires Unique(t) && WriteRow(t, id, position).Some?
    ensures Unique(WriteRow(t, id, position).value)
  {
    var s := WriteRow(t, id, position).value;
    forall a, b | a in s && b in s && a != b ensures !SamePlace(s, a, b) {
      assert !SamePlace(t, a, b);
    }
  }

  lemma InsertKeepsUnique(t: Table, id: string, parent: string, position: int)
    requires Unique(t) && InsertRow(t, id, parent, position).Some?
    ensures Unique(InsertRow(t, id, parent, position).value)
  {
    var s := InsertRow(t, id, parent, position).value;
    forall a, b | a in s && b in s && a != b ensures !SamePlace(s, a, b) {
      if a != id && b != id {
        assert !SamePlace(t, a, b);
      }
    }
  }

  // ----- max + 1 numbering

  /** One more than the largest position among `ids`, and at least 0. */
  ghost function NextOf(t: Table, ids: set<string>): nat
    requires ids <= t.Keys
  {
    if ids == {} then 0
    else
      var id :| id in ids;
      var rest := NextOf(t, ids - {id});
      if rest < t[id].order + 1 then t[id].order + 1 else rest
  }

  ghost function Next(t: Table, parent: string): nat {
    NextOf(t, Siblings(t, parent))
  }

  lemma {:induction false} NextOfFacts(t: Table, ids: set<string>)
    requires ids <= t.Keys
    ensures forall id :: id in ids ==> t[id].order < NextOf(t, ids)
    ensures NextOf(t, ids) == 0 || exists id :: id in ids && t[id].order + 1 == NextOf(t, ids)
    decreases |ids|
  {
    if ids != {} {
      var id :| id in ids && NextOf(t, ids)
        == if NextOf(t, ids - {id}) < t[id].order + 1 then t[id].order + 1 else NextOf(t, ids - {id});
      NextOfFacts(t, ids - {id});
    }
  }

  /** The numbering is determined by the two facts a reader expects of it. */
  lemma NextIs(t: Table, parent: string, next: nat)
    requires forall id :: id in Siblings(t, parent) ==> t[id].order < next
    requires next == 0 || exists id :: id in Siblings(t, parent) && t[id].order + 1 == next
    ensures Next(t, parent) == next
  {
    NextOfFacts(t, Siblings(t, parent));
  }

  /** The next position is free. */
  lemma NextIsFree(t: Table, parent: string, id: string)
    ensures !Taken(t, id, parent, Next(t, parent))
  {
    NextOfFacts(t, Siblings(t, parent));
    forall other | other in t && t[other].parentId == parent ensures t[other].order != Next(t, parent) {
      assert other in Siblings(t, parent);
    }
  }

  // ----- the two-phase reorder

  /** The first `k` writes of one phase: `order[i]` goes to `base + i`. */
  function WriteAll(t: Table, order: seq<string>, base: int, k: nat): Option<Table>
    requires k <= |order|
  {
    if k == 0 then Some(t)
    else
      match WriteAll(t, order, base, k - 1)
      case None => None
      case Some(s) => WriteRow(s, order[k - 1], base + k - 1)
  }

  function Transaction(t: Table, order: seq<string>): Option<Table> {
    match WriteAll(t, order, |order| + CLEARANCE, |order|)
    case None => None
    case Some(s) => WriteAll(s, order, 0, |order|)
  }

  /** After `k` writes of a phase: the rows written lie in the phase's range, the others are as they were. */
  ghost predicate Spread(t: Table, s: Table, order: seq<string>, base: int, k: nat)
    requires k <= |order|
  {
    && s.Keys == t.Keys
    && (forall id :: id in t ==> s[id].parentId == t[id].parentId)
    && (forall id :: id in t && id in order[..k] ==> base <= s[id].order < base + k)
    && (forall id :: id in t && id !in order[..k] ==> s[id] == t[id])
  }

  lemma SpreadNone(t: Table, order: seq<string>, base: int)
    ensures Spread(t, t, order, base, 0)
  {
  }

  lemma SpreadPush(t: Table, s: Table, order: seq<string>, base: int, k: nat)
    requires k < |order| && order[k] in s && Spread(t, s, order, base, k)
    ensures Spread(t, s[order[k] := s[order[k]].(order := base + k)], order, base, k + 1)
  {
    TakeMore(order, k);
  }

  lemma {:induction false} PhaseSpreads(t: Table, order: seq<string>, base: int, k: nat)
    requires k <= |order| && WriteAll(t, order, base, k).Some?
    ensures Spread(t, WriteAll(t, order, base, k).value, order, base, k)
    ensures Unique(t) ==> Unique(WriteAll(t, order, base, k).value)
  {
    hide Taken, Unique, Spread;
    if k == 0 {
      SpreadNone(t, order, base);
    } else {
      var s := WriteAll(t, order, base, k - 1).value;
      PhaseSpreads(t, order, base, k - 1);
      SpreadPush(t, s, order, base, k - 1);
      if Unique(t) {
        WriteKeepsUnique(s, order[k - 1], base + k - 1);
      }
    }
  }

  /** `order` names exactly the rows of one parent, each once. */
  ghost predicate Permutes(t: Table, parent: string, order: seq<string>) {
    NoDup(order) && SetOf(order) == Siblings(t, parent)
  }

  /** Row `order[j]` has not moved yet and sits where `order[i]` is about to go. */
  ghost predicate InTheWay(t: Table, order: seq<string>, base: int, i: nat, j: nat) {
    i < j < |order| && order[j] in t && t[order[j]].order == base + i
  }

  ghost predicate Clear(t: Table, order: seq<string>, base: int, k: nat) {
    forall i: nat, j: nat :: i < k ==> !InTheWay(t, order, base, i, j)
  }

  /** The rows moved so far stand exactly where the phase puts them. */
  ghost predicate Moved(t: Table, s: Table, order: seq<string>, base: int, k: nat)
    requires k <= |order|
  {
    && s.Keys == t.Keys
    && (forall id :: id in t ==> s[id].parentId == t[id].parentId)
    && (forall i :: 0 <= i < k ==> order[i] in s && s[order[i]].order == base + i)
    && (forall i :: k <= i < |order| ==> order[i] in s && s[order[i]] == t[order[i]])
  }

  lemma NextWriteCollides(t: Table, s: Table, parent: string, order: seq<string>, base: int, k: nat)
    requires k < |order| && Permutes(t, parent, order) && Moved(t, s, order, base, k)
    ensures Taken(s, order[k], s[order[k]].parentId, base + k) <==> exists j: nat :: InTheWay(t, order, base, k, j)
  {
    assert order[k] in SetOf(order);
    if other :| other in s && other != order[k] && s[other].parentId == parent && s[other].order == base + k {
      assert other in Siblings(t, parent);
      var j :| 0 <= j < |order| && order[j] == other;
      assert InTheWay(t, order, base, k, j);
    }
    if j: nat :| InTheWay(t, order, base, k, j) {
      assert order[j] in SetOf(order);
      assert order[j] != order[k] && s[order[j]].order == base + k;
    }
  }

  lemma MovedPush(t: Table, s: Table, order: seq<string>, base: int, k: nat)
    requires k < |order| && NoDup(order) && Moved(t, s, order, base, k)
    ensures Moved(t, s[order[k] := s[order[k]].(order := base + k)], order, base, k + 1)
  {
  }

  lemma {:induction false} PhaseSucceedsExactly(t: Table, parent: string, order: seq<string>, base: int, k: nat)
    requires k <= |order| && Permutes(t, parent, order)
    ensures WriteAll(t, order, base, k).Some? <==> Clear(t, order, base, k)
    ensures WriteAll(t, order, base, k).Some? ==> Moved(t, WriteAll(t, order, base, k).value, order, base, k)
  {
    hide Taken, InTheWay;
    if k == 0 {
      forall i | 0 <= i < |order| ensures order[i] in t {
        assert order[i] in SetOf(order);
      }
    } else {
      PhaseSucceedsExactly(t, parent, order, base, k - 1);
      if WriteAll(t, order, base, k - 1).Some? {
        var s := WriteAll(t, order, base, k - 1).value;
        NextWriteCollides(t, s, parent, order, base, k - 1);
        MovedPush(t, s, order, base, k - 1);
      }
    }
  }

  /** Positions 0, 1, 2 and so on, in the requested order. */
  ghost predicate Numbered(t: Table, parent: string, order: seq<string>) {
    forall i :: 0 <= i < |order| ==> order[i] in t && t[order[i]] == Row(parent, i)
  }

  /** A reorder fails exactly when a row still waiting sits at the temporary position of one written before it. */
  lemma ReorderSucceedsExactly(t: Table, parent: string, order: seq<string>)
    requires Permutes(t, parent, order)
    ensures Transaction(t, order).Some? <==> Clear(t, order, |order| + CLEARANCE, |order|)
    ensures Transaction(t, order).Some? ==> Numbered(Transaction(t, order).value, parent, order)
    ensures Transaction(t, order).Some? ==> Spread(t, Transaction(t, order).value, order, 0, |order|)
  {
    if Transaction(t, order).Some? {
      ReorderSpreads(t, order);
    }
    var base := |order| + CLEARANCE;
    PhaseSucceedsExactly(t, parent, order, base, |order|);
    if WriteAll(t, order, base, |order|).Some? {
      var s := WriteAll(t, order, base, |order|).value;
      assert Siblings(s, parent) == Siblings(t, parent);
      assert Clear(s, order, 0, |order|);
      PhaseSucceedsExactly(s, parent, order, 0, |order|);
      forall i | 0 <= i < |order| ensures order[i] in Siblings(t, parent) {
        assert order[i] in SetOf(order);
      }
      assert Transaction(t, order) == WriteAll(s, order, 0, |order|);
    }
  }

  /** With every position below the temporary range, no order of the siblings can collide. */
  lemma LowPositionsNeverCollide(t: Table, parent: string, order: seq<string>)
    requires Permutes(t, parent, order)
    requires forall id :: id in Siblings(t, parent) ==> t[id].order < |order| + CLEARANCE
    ensures Transaction(t, order).Some?
  {
    forall j | 0 <= j < |order| ensures order[j] in t && t[order[j]].order < |order| + CLEARANCE {
      assert order[j] in SetOf(order);
    }
    ReorderSucceedsExactly(t, parent, order);
  }

  lemma ReorderSpreads(t: Table, order: seq<string>)
    requires Transaction(t, order).Some?
    ensures Spread(t, Transaction(t, order).value, order, 0, |order|)
    ensures Unique(t) ==> Unique(Transaction(t, order).value)
  {
    var base := |order| + CLEARANCE;
    var s := WriteAll(t, order, base, |order|).value;
    PhaseSpreads(t, order, base, |order|);
    PhaseSpreads(s, order, 0, |order|);
    assert order[..|order|] == order;
  }

  // ----- the services' operations

  datatype Operation =
    | Create(parentId: string, id: string)
    | Duplicate(sourceId: string, id: string)
    | Delete(id: string, hasChildren: bool)
    | Reorder(parentId: string, order: seq<string>)

  datatype Answer = Done | NotFound | Invalid | Conflict

  /** The service's check: as many ids as siblings, every one of them a sibling. */
  predicate Accepted(t: Table, parent: string, order: seq<string>) {
    |order| == |Siblings(t, parent)| && forall id :: id in order ==> id in Siblings(t, parent)
  }

  ghost function Committed(t: Table, result: Option<Table>): (Table, Answer) {
    match result
    case Some(s) => (s, Done)
    case None => (t, Conflict)
  }

  ghost function Step(t: Table, parents: set<string>, op: Operation): (Table, Answer) {
    match op
    case Create(parent, id) =>
      if parent !in parents then (t, NotFound) else Committed(t, InsertRow(t, id, parent, Next(t, parent)))
    case Duplicate(source, id) =>
      if source !in t then (t, NotFound)
      else Committed(t, InsertRow(t, id, t[source].parentId, Next(t, t[source].parentId)))
    case Delete(id, hasChildren) =>
      if id !in t then (t, NotFound) else if hasChildren then (t, Invalid) else (t - {id}, Done)
    case Reorder(parent, order) =>
      if parent !in parents then (t, NotFound)
      else if !Accepted(t, parent, order) then (t, Invalid)
      else Committed(t, Transaction(t, order))
  }

  ghost function Run(t: Table, parents: set<string>, ops: seq<Operation>): Table
    decreases |ops|
  {
    if ops == [] then t else Run(Step(t, parents, ops[0]).0, parents, ops[1..])
  }

  /** The check and distinctness together say that the order is a permutation of the siblings. */
  lemma AcceptedPermutes(t: Table, parent: string, order: seq<string>)
    requires Accepted(t, parent, order) && NoDup(order)
    ensures Permutes(t, parent, order)
  {
    SizeOfSetOf(order);
    SubsetSize(SetOf(order), Siblings(t, parent));
  }

  /** What the check lets through besides: with a repeated id a reorder can succeed, but never as requested. */
  lemma DoneAsRequestedExactly(t: Table, parents: set<string>, parent: string, order: seq<string>)
    requires Step(t, parents, Reorder(parent, order)).1 == Done
    ensures (forall i :: 0 <= i < |order| ==>
        order[i] in Step(t, parents, Reorder(parent, order)).0 && Step(t, parents, Reorder(parent, order)).0[order[i]].order == i)
      <==> NoDup(order)
  {
    if NoDup(order) {
      AcceptedPermutes(t, parent, order);
      ReorderSucceedsExactly(t, parent, order);
    }
  }

  lemma StepKeepsUnique(t: Table, parents: set<string>, op: Operation)
    requires Unique(t)
    ensures Unique(Step(t, parents, op).0)
  {
    match op
    case Create(parent, id) =>
      if InsertRow(t, id, parent, Next(t, parent)).Some? {
        InsertKeepsUnique(t, id, parent, Next(t, parent));
      }
    case Duplicate(source, id) =>
      if source in t && InsertRow(t, id, t[source].parentId, Next(t, t[source].parentId)).Some? {
        InsertKeepsUnique(t, id, t[source].parentId, Next(t, t[source].parentId));
      }
    case Delete(id, _) =>
      forall a, b | a in t - {id} && b in t - {id} && a != b ensures !SamePlace(t - {id}, a, b) {
        assert !SamePlace(t, a, b);
      }
    case Reorder(_, order) =>
      if Transaction(t, order).Some? {
        ReorderSpreads(t, order);
      }
  }

  /** Over any run, positions stay distinct among siblings. */
  lemma {:induction false} RunKeepsUnique(t: Table, parents: set<string>, ops: seq<Operation>)
    requires Unique(t)
    ensures Unique(Run(t, parents, ops))
    decreases |ops|
  {
    if ops != [] {
      StepKeepsUnique(t, parents, ops[0]);
      RunKeepsUnique(Step(t, parents, ops[0]).0, parents, ops[1..]);
    }
  }

  function ParentOf(t: Table, op: Operation): string
    requires op.Create? || (op.Duplicate? && op.sourceId in t)
  {
    if op.Create? then op.parentId else t[op.sourceId].parentId
  }

  /** Creating and duplicating never meet the constraint: a new id is always accepted, behind all its siblings. */
  lemma NumberingNeverConflicts(t: Table, parents: set<string>, op: Operation)
    requires op.Create? ==> op.parentId in parents
    requires op.Duplicate? ==> op.sourceId in t
    requires (op.Create? || op.Duplicate?) && op.id !in t
    ensures Step(t, parents, op).1 == Done
    ensures Step(t, parents, op).0 == t[op.id := Row(ParentOf(t, op), Next(t, ParentOf(t, op)))]
    ensures forall id :: id in Siblings(t, ParentOf(t, op)) ==> t[id].order < Next(t, ParentOf(t, op))
  {
    var parent := ParentOf(t, op);
    NextIsFree(t, parent, op.id);
    NextOfFacts(t, Siblings(t, parent));
  }

  // ----- what each operation does, row by row

  /** The position behind all rows of a parent. */
  ghost predicate IsBehind(t: Table, parent: string, next: int) {
    && next >= 0 && (forall id :: id in t && t[id].parentId == parent ==> t[id].order < next)
    && (next == 0 || exists id :: id in t && t[id].parentId == parent && t[id].order + 1 == next)
  }

  ghost predicate Appends(t: Table, id: string, parent: string, after: Table, answer: Answer) {
    if id in t then after == t && answer == Conflict
    else answer == Done && exists next :: IsBehind(t, parent, next) && after == t[id := Row(parent, next)]
  }

  ghost predicate IsLast(order: seq<string>, i: nat) {
    i < |order| && forall j :: i < j < |order| ==> order[j] != order[i]
  }

  /** Every named row stands where it is named last; all others are as they were. */
  ghost predicate Reorders(t: Table, order: seq<string>, after: Table) {
    && after.Keys == t.Keys
    && (forall i: nat :: IsLast(order, i) ==> order[i] in t && after[order[i]] == t[order[i]].(order := i))
    && (forall id :: id in t && id !in order ==> after[id] == t[id])
  }

  ghost predicate NamesSiblings(t: Table, parent: string, order: seq<string>) {
    && |order| == |set id | id in t && t[id].parentId == parent|
    && forall id :: id in order ==> id in t && t[id].parentId == parent
  }

  /** The `j`-th row still waits and stands where the first phase is about to put the `i`-th. */
  ghost predicate Blocks(t: Table, order: seq<string>, i: nat, j: nat) {
    i < j < |order| && order[j] in t && t[order[j]].order == |order| + 1000 + i
  }

  ghost predicate Clashes(t: Table, order: seq<string>) {
    exists i, j :: Blocks(t, order, i, j)
  }

  ghost predicate Does(t: Table, parents: set<string>, op: Operation, after: Table, answer: Answer) {
    match op
    case Create(parent, id) =>
      if parent !in parents then after == t && answer == NotFound else Appends(t, id, parent, after, answer)
    case Duplicate(source, id) =>
      if source !in t then after == t && answer == NotFound else Appends(t, id, t[source].parentId, after, answer)
    case Delete(id, hasChildren) =>
      if id !in t then after == t && answer == NotFound
      else if hasChildren then after == t && answer == Invalid
      else answer == Done && after.Keys == t.Keys - {id} && forall other :: other in after ==> after[other] == t[other]
    case Reorder(parent, order) =>
      if parent !in parents then after == t && answer == NotFound
      else if !NamesSiblings(t, parent, order) then after == t && answer == Invalid
      else
        && (answer == Done || (answer == Conflict && after == t)) && (answer == Done ==> Reorders(t, order, after))
        && (NoDup(order) ==> (answer == Conflict <==> Clashes(t, order)))
  }

  lemma {:induction false} LastWriteCounts(t: Table, order: seq<string>, base: int, k: nat)
    requires k <= |order| && WriteAll(t, order, base, k).Some?
    ensures StandsLast(t, WriteAll(t, order, base, k).value, order, base, k)
  {
    hide Taken;
    if k > 0 {
      LastWriteCounts(t, order, base, k - 1);
      var before := WriteAll(t, order, base, k - 1).value;
      LastWritePush(t, before, order, base, k - 1);
    }
  }

  ghost predicate StandsLast(t: Table, s: Table, order: seq<string>, base: int, k: nat)
    requires k <= |order|
  {
    && s.Keys == t.Keys
    && (forall id :: id in t ==> s[id].parentId == t[id].parentId)
    && (forall i :: 0 <= i < k && (forall j :: i < j < k ==> order[j] != order[i]) ==> order[i] in s && s[order[i]].order == base + i)
  }

  lemma LastWritePush(t: Table, s: Table, order: seq<string>, base: int, k: nat)
    requires k < |order| && order[k] in s && StandsLast(t, s, order, base, k)
    ensures StandsLast(t, s[order[k] := s[order[k]].(order := base + k)], order, base, k + 1)
  {
    var after := s[order[k] := s[order[k]].(order := base + k)];
    forall i | 0 <= i < k + 1 && forall j :: i < j < k + 1 ==> order[j] != order[i]
      ensures order[i] in after && after[order[i]].order == base + i
    {
      assert i < k ==> order[k] != order[i];
    }
  }

  lemma AppendingAppends(t: Table, id: string, parent: string)
    ensures var (after, answer) := Committed(t, InsertRow(t, id, parent, Next(t, parent))); Appends(t, id, parent, after, answer)
  {
    NextOfFacts(t, Siblings(t, parent));
    NextIsFree(t, parent, id);
    hide Next, NextOf, Taken;
    assert IsBehind(t, parent, Next(t, parent));
  }

  lemma ReorderingReorders(t: Table, order: seq<string>)
    requires Transaction(t, order).Some?
    ensures Reorders(t, order, Transaction(t, order).value)
  {
    var base := |order| + CLEARANCE;
    var s := WriteAll(t, order, base, |order|).value;
    LastWriteCounts(t, order, base, |order|);
    LastWriteCounts(s, order, 0, |order|);
    ReorderSpreads(t, order);
    assert order[..|order|] == order;
  }

  lemma ClashesExactly(t: Table, order: seq<string>)
    ensures Clear(t, order, |order| + CLEARANCE, |order|) <==> !Clashes(t, order)
  {
    if !Clear(t, order, |order| + CLEARANCE, |order|) {
      var i: nat, j: nat :| i < |order| && InTheWay(t, order, |order| + CLEARANCE, i, j);
      assert Blocks(t, order, i, j);
    }
    if i, j :| Blocks(t, order, i, j) {
      assert InTheWay(t, order, |order| + CLEARANCE, i, j);
    }
  }

  lemma StepDoes(t: Table, parents: set<string>, op: Operation)
    ensures Does(t, parents, op, Step(t, parents, op).0, Step(t, parents, op).1)
  {
    match op
    case Create(parent, id) => AppendingAppends(t, id, parent);
    case Duplicate(source, id) =>
      if source in t {
        AppendingAppends(t, id, t[source].parentId);
      }
    case Delete(_, _) =>
    case Reorder(parent, order) =>
      assert Siblings(t, parent) == set id | id in t && t[id].parentId == parent;
      assert NamesSiblings(t, parent, order) <==> Accepted(t, parent, order);
      if Transaction(t, order).Some? {
        ReorderingReorders(t, order);
      }
      if Accepted(t, parent, order) && NoDup(order) {
        AcceptedPermutes(t, parent, order);
        ReorderSucceedsExactly(t, parent, order);
        ClashesExactly(t, order);
      }
      hide Transaction, Reorders, Clashes, NamesSiblings, Accepted, Clear;
  }

  /** Each operation of a run does its work on the table that its predecessors left. */
  lemma {:induction false} RunDoesEach(t: Table, parents: set<string>, ops: seq<Operation>, k: nat)
    requires k < |ops|
    ensures var before := Run(t, parents, ops[..k]);
      Does(before, parents, ops[k], Run(t, parents, ops[..k + 1]), Step(before, parents, ops[k]).1)
    decreases k
  {
    hide Step, Does;
    if k == 0 {
      StepDoes(t, parents, ops[0]);
      assert ops[..1] == [ops[0]] && ops[..0] == [];
    } else {
      RunDoesEach(Step(t, parents, ops[0]).0, parents, ops[1..], k - 1);
      assert ops[..k + 1][1..] == ops[1..][..k] && ops[..k][1..] == ops[1..][..k - 1];
    }
  }

  // ----- when a reorder is certain to succeed

  /** No position of the parent's rows exceeds their number by more than `debt`. */
  ghost predicate Within(t: Table, parent: string, debt: nat) {
    forall id :: id in Siblings(t, parent) ==> t[id].order < |Siblings(t, parent)| + debt
  }

  /** Deletions from a parent since its last faithful reorder. */
  ghost function DebtAfter(t: Table, parents: set<string>, op: Operation, parent: string, debt: nat): nat {
    if Step(t, parents, op).1 != Done then debt
    else if op.Delete? && t[op.id].parentId == parent then debt + 1
    else if op.Reorder? && op.parentId == parent && NoDup(op.order) then 0
    else debt
  }

  ghost function Debt(t: Table, parents: set<string>, ops: seq<Operation>, parent: string, debt: nat): nat
    decreases |ops|
  {
    if ops == [] then debt
    else Debt(Step(t, parents, ops[0]).0, parents, ops[1..], parent, DebtAfter(t, parents, ops[0], parent, debt))
  }

  lemma NextWithin(t: Table, parent: string, debt: nat)
    requires Within(t, parent, debt)
    ensures Next(t, parent) <= |Siblings(t, parent)| + debt
  {
    NextOfFacts(t, Siblings(t, parent));
  }

  lemma InsertKeepsWithin(t: Table, id: string, parent: string, other: string, debt: nat)
    requires InsertRow(t, id, other, Next(t, other)).Some? && Within(t, parent, debt)
    ensures Within(InsertRow(t, id, other, Next(t, other)).value, parent, debt)
  {
    hide Next;
    var s := InsertRow(t, id, other, Next(t, other)).value;
    if other == parent {
      assert Siblings(s, parent) == Siblings(t, parent) + {id};
      NextWithin(t, parent, debt);
    } else {
      assert Siblings(s, parent) == Siblings(t, parent);
    }
  }

  lemma DeleteKeepsWithin(t: Table, id: string, parent: string, debt: nat)
    requires id in t && Within(t, parent, debt)
    ensures Within(t - {id}, parent, if t[id].parentId == parent then debt + 1 else debt)
  {
    if t[id].parentId == parent {
      assert Siblings(t - {id}, parent) == Siblings(t, parent) - {id};
      assert id in Siblings(t, parent);
    } else {
      assert Siblings(t - {id}, parent) == Siblings(t, parent);
    }
  }

  lemma ReorderKeepsWithin(t: Table, order: seq<string>, parent: string, other: string, debt: nat)
    requires Accepted(t, other, order) && Transaction(t, order).Some? && Within(t, parent, debt)
    ensures Within(Transaction(t, order).value, parent, if other == parent && NoDup(order) then 0 else debt)
  {
    var s := Transaction(t, order).value;
    ReorderSpreads(t, order);
    assert order[..|order|] == order;
    assert Siblings(s, parent) == Siblings(t, parent);
    if NoDup(order) {
      AcceptedPermutes(t, other, order);
    }
    forall id | id in Siblings(s, parent)
      ensures s[id].order < |Siblings(s, parent)| + if other == parent && NoDup(order) then 0 else debt
    {
      if other == parent && NoDup(order) {
        assert id in SetOf(order);
      }
    }
  }

  lemma StepKeepsWithin(t: Table, parents: set<string>, op: Operation, parent: string, debt: nat)
    requires Within(t, parent, debt)
    ensures Within(Step(t, parents, op).0, parent, DebtAfter(t, parents, op, parent, debt))
  {
    hide Within, Next, Transaction, Accepted, Siblings;
    if Step(t, parents, op).1 == Done {
      match op
      case Create(other, id) => InsertKeepsWithin(t, id, parent, other, debt);
      case Duplicate(source, id) => InsertKeepsWithin(t, id, parent, t[source].parentId, debt);
      case Delete(id, _) => DeleteKeepsWithin(t, id, parent, debt);
      case Reorder(other, order) => ReorderKeepsWithin(t, order, parent, other, debt);
    }
  }

  lemma {:induction false} RunKeepsWithin(t: Table, parents: set<string>, ops: seq<Operation>, parent: string, debt: nat)
    requires Within(t, parent, debt)
    ensures Within(Run(t, parents, ops), parent, Debt(t, parents, ops, parent, debt))
    decreases |ops|
  {
    if ops != [] {
      StepKeepsWithin(t, parents, ops[0], parent, debt);
      RunKeepsWithin(Step(t, parents, ops[0]).0, parents, ops[1..], parent, DebtAfter(t, parents, ops[0], parent, debt));
    }
  }

  /** Up to a thousand deletions since the last reorder, any order of the siblings is carried out. */
  lemma ReorderSucceedsAfterRun(parents: set<string>, ops: seq<Operation>, parent: string, order: seq<string>)
    requires parent in parents && Debt(map[], parents, ops, parent, 0) <= 1000
    requires NoDup(order) && Accepted(Run(map[], parents, ops), parent, order)
    ensures Step(Run(map[], parents, ops), parents, Reorder(parent, order)).1 == Done
  {
    var t := Run(map[], parents, ops);
    RunKeepsWithin(map[], parents, ops, parent, 0);
    AcceptedPermutes(t, parent, order);
    LowPositionsNeverCollide(t, parent, order);
  }

  // ----- and one deletion more is too many

  function Id(k: nat): (id: string)
    ensures |id| == k
  {
    seq(k, i => 'x')
  }

  /** Delete the older of two siblings and create a new one, `n` times. */
  function Churn(k: nat, n: nat): seq<Operation>
    decreases n
  {
    if n == 0 then [] else [Delete(Id(k), false), Create("p", Id(k + 2))] + Churn(k + 1, n - 1)
  }

  function Pair(k: nat): Table {
    map[Id(k) := Row("p", k), Id(k + 1) := Row("p", k + 1)]
  }

  lemma ChurnOnce(k: nat)
    ensures Step(Pair(k), {"p"}, Delete(Id(k), false)) == (map[Id(k + 1) := Row("p", k + 1)], Done)
    ensures Step(map[Id(k + 1) := Row("p", k + 1)], {"p"}, Create("p", Id(k + 2))) == (Pair(k + 1), Done)
  {
    var t: Table := map[Id(k + 1) := Row("p", k + 1)];
    assert |Id(k)| != |Id(k + 1)| && |Id(k + 1)| != |Id(k + 2)|;
    assert Pair(k) - {Id(k)} == t;
    assert Id(k + 1) in Siblings(t, "p");
    NextIs(t, "p", k + 2);
    NextIsFree(t, "p", Id(k + 2));
  }

  lemma {:induction false} ChurnClimbs(k: nat, n: nat, debt: nat)
    ensures Run(Pair(k), {"p"}, Churn(k, n)) == Pair(k + n)
    ensures Debt(Pair(k), {"p"}, Churn(k, n), "p", debt) == debt + n
    decreases n
  {
    if n > 0 {
      ChurnOnce(k);
      var ops := Churn(k, n);
      assert ops[1..][1..] == Churn(k + 1, n - 1);
      assert ops[0] == Delete(Id(k), false) && ops[1..][0] == Create("p", Id(k + 2));
      ChurnClimbs(k + 1, n - 1, debt + 1);
    }
  }

  /** Two siblings from an empty table, 1001 deletions, and the order they already have is refused. */
  lemma OneDeletionMoreCanFail() returns (ops: seq<Operation>, order: seq<string>)
    ensures Debt(map[], {"p"}, ops, "p", 0) == 1001
    ensures NoDup(order) && Accepted(Run(map[], {"p"}, ops), "p", order)
    ensures Step(Run(map[], {"p"}, ops), {"p"}, Reorder("p", order)).1 == Conflict
  {
    hide Step, DebtAfter, Accepted, Pair;
    var n := CLEARANCE + 1;
    ops := [Create("p", Id(0)), Create("p", Id(1))] + Churn(0, n);
    order := [Id(n), Id(n + 1)];
    StartsAsPair(Churn(0, n));
    ChurnClimbs(0, n, 0);
    PairIsRefused(n);
  }

  lemma PairIsRefused(n: nat)
    requires n == CLEARANCE + 1
    ensures NoDup([Id(n), Id(n + 1)]) && Accepted(Pair(n), "p", [Id(n), Id(n + 1)])
    ensures Step(Pair(n), {"p"}, Reorder("p", [Id(n), Id(n + 1)])).1 == Conflict
  {
    var t, order := Pair(n), [Id(n), Id(n + 1)];
    assert |Id(n)| != |Id(n + 1)|;
    assert Siblings(t, "p") == {Id(n), Id(n + 1)};
    AcceptedPermutes(t, "p", order);
    assert InTheWay(t, order, |order| + CLEARANCE, 0, 1);
    ReorderSucceedsExactly(t, "p", order);
  }

  lemma StartsAsPair(rest: seq<Operation>)
    ensures Run(map[], {"p"}, [Create("p", Id(0)), Create("p", Id(1))] + rest) == Run(Pair(0), {"p"}, rest)
    ensures Debt(map[], {"p"}, [Create("p", Id(0)), Create("p", Id(1))] + rest, "p", 0) == Debt(Pair(0), {"p"}, rest, "p", 0)
  {
    var ops := [Create("p", Id(0)), Create("p", Id(1))] + rest;
    assert ops[1..][0] == Create("p", Id(1)) && ops[1..][1..] == rest;
    FirstTwo();
  }

  lemma FirstTwo()
    ensures Step(map[], {"p"}, Create("p", Id(0))) == (map[Id(0) := Row("p", 0)], Done)
    ensures Step(map[Id(0) := Row("p", 0)], {"p"}, Create("p", Id(1))) == (Pair(0), Done)
  {
    NextIs(map[], "p", 0);
    NextIsFree(map[], "p", Id(0));
    var t: Table := map[Id(0) := Row("p", 0)];
    assert Id(0) in Siblings(t, "p") && |Id(0)| != |Id(1)|;
    NextIs(t, "p", 1);
    NextIsFree(t, "p", Id(1));
  }

  // ----- the store

  class Store {
    var table: Table
    const parents: set<string>

    constructor (parents: set<string>)
      ensures this.parents == parents && table == map[]
    {
      this.parents := parents;
      table := map[];
    }

    method MaxPlusOne(parent: string) returns (next: nat)
      ensures next == Next(table, parent)
    {
      next := 0;
      var seen: set<string> := {};
      var left := Siblings(table, parent);
      while left != {}
        invariant seen + left == Siblings(table, parent)
        invariant forall id :: id in seen ==> table[id].order < next
        invariant next == 0 || exists id :: id in seen && table[id].order + 1 == next
        decreases |left|
      {
        var id :| id in left;
        if next < table[id].order + 1 {
          next := table[id].order + 1;
        }
        seen, left := seen + {id}, left - {id};
      }
      NextIs(table, parent, next);
    }

    method InsertLast(parent: string, id: string) returns (answer: Answer)
      modifies this`table
      ensures (table, answer) == Committed(old(table), InsertRow(old(table), id, parent, Next(old(table), parent)))
    {
      var next := MaxPlusOne(parent);
      var result := InsertRow(table, id, parent, next);
      if result.None? {
        return Conflict;
      }
      table := result.value;
      return Done;
    }

    method Create(parent: string, id: string) returns (answer: Answer)
      modifies this`table
      ensures (table, answer) == Step(old(table), parents, Operation.Create(parent, id))
      ensures Does(old(table), parents, Operation.Create(parent, id), table, answer)
    {
      StepDoes(table, parents, Operation.Create(parent, id));
      hide Does;
      if parent !in parents {
        return NotFound;
      }
      answer := InsertLast(parent, id);
    }

    method Duplicate(source: string, id: string) returns (answer: Answer)
      modifies this`table
      ensures (table, answer) == Step(old(table), parents, Operation.Duplicate(source, id))
      ensures Does(old(table), parents, Operation.Duplicate(source, id), table, answer)
    {
      StepDoes(table, parents, Operation.Duplicate(source, id));
      hide Does;
      if source !in table {
        return NotFound;
      }
      answer := InsertLast(table[source].parentId, id);
    }

    method Delete(id: string, hasChildren: bool) returns (answer: Answer)
      modifies this`table
      ensures (table, answer) == Step(old(table), parents, Operation.Delete(id, hasChildren))
      ensures Does(old(table), parents, Operation.Delete(id, hasChildren), table, answer)
    {
      StepDoes(table, parents, Operation.Delete(id, hasChildren));
      hide Does;
      if id !in table {
        return NotFound;
      }
      if hasChildren {
        return Invalid;
      }
      table := table - {id};
      return Done;
    }

    /** One phase of single-row updates, stopping at the first one the constraint refuses. */
    method WritePhase(order: seq<string>, base: int) returns (ok: bool)
      modifies this`table
      ensures ok == WriteAll(old(table), order, base, |order|).Some?
      ensures ok ==> WriteAll(old(table), order, base, |order|) == Some(table)
    {
      ghost var before := table;
      for k := 0 to |order|
        invariant WriteAll(before, order, base, k) == Some(table)
      {
        var result := WriteRow(table, order[k], base + k);
        if result.None? {
          RefusedForGood(before, order, base, k + 1, |order|);
          return false;
        }
        table := result.value;
      }
      return true;
    }

    /** The transaction: both phases, or nothing. */
    method WriteOrder(order: seq<string>) returns (answer: Answer)
      modifies this`table
      ensures (table, answer) == Committed(old(table), Transaction(old(table), order))
    {
      var before := table;
      var ok := WritePhase(order, |order| + CLEARANCE);
      if ok {
        ok := WritePhase(order, 0);
      }
      if !ok {
        table := before;
        return Conflict;
      }
      return Done;
    }

    method Reorder(parent: string, order: seq<string>) returns (answer: Answer)
      modifies this`table
      ensures (table, answer) == Step(old(table), parents, Operation.Reorder(parent, order))
      ensures Does(old(table), parents, Operation.Reorder(parent, order), table, answer)
    {
      StepDoes(table, parents, Operation.Reorder(parent, order));
      hide Does;
      if parent !in parents {
        return NotFound;
      }
      if !Accepted(table, parent, order) {
        return Invalid;
      }
      answer := WriteOrder(order);
    }
  }

  lemma {:induction false} RefusedForGood(t: Table, order: seq<string>, base: int, k: nat, n: nat)
    requires k <= n <= |order| && WriteAll(t, order, base, k).None?
    ensures WriteAll(t, order, base, n).None?
    decreases n
  {
    if k < n {
      RefusedForGood(t, order, base, k, n - 1);
    }
  }
}
