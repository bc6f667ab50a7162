/** Columns that are unique across organizations: what one organization can learn of another through them, exactly. */
module SharedKeys {
  import opened Wrappers
  import opened Seqs
  import opened Tenancy

  /** A value in a column that may hold it only once in the whole table. */
  datatype Key = Key(column: string, value: string)

  predicate Holds(row: Row, k: Key) {
    k.column in row.fields && row.fields[k.column] == k.value
  }

  function Held(rows: seq<Row>, k: Key): nat {
    |Filter(rows, (row: Row) => Holds(row, k))|
  }

  ghost predicate Unique(rows: seq<Row>, columns: set<string>) {
    forall k: Key :: k.column in columns ==> Held(rows, k) <= 1
  }

  /** The rows of the other organizations. */
  ghost function Foreign(rows: seq<Row>, org: string): seq<Row> {
    Filter(rows, (row: Row) => row.organizationId != org)
  }

  /** The database refuses a write that would leave a key twice, and then nothing changes. */
  ghost function Guarded(rows: seq<Row>, op: Operation, args: Args, columns: set<string>): (seq<Row>, Answer) {
    var (after, answer) := Execute(rows, op, args);
    if Unique(after, columns) then (after, answer) else (rows, Conflict)
  }

  ghost function GuardedRun(rows: seq<Row>, requests: seq<Request>, org: string, columns: set<string>): (seq<Row>, seq<Answer>)
    decreases |requests|
  {
    if requests == [] then (rows, [])
    else
      var (mid, first) := Guarded(rows, requests[0].op, Scope(requests[0].op, requests[0].args, org), columns);
      var (end, rest) := GuardedRun(mid, requests[1..], org, columns);
      (end, [first] + rest)
  }

  // ----- a scoped operation works on the organization's rows and leaves the others lying beside them

  ghost predicate Splits(whole: seq<Row>, foreign: seq<Row>, mine: seq<Row>) {
    multiset(whole) == multiset(foreign) + multiset(mine)
  }

  lemma ViewSplits(rows: seq<Row>, org: string)
    ensures Splits(rows, Foreign(rows, org), View(rows, org))
  {
    FilterMultiset(rows, (row: Row) => row.organizationId == org);
    FilterMultiset(rows, (row: Row) => row.organizationId != org);
  }

  lemma ForeignCons(row: Row, rows: seq<Row>, org: string)
    ensures Foreign([row] + rows, org) == if row.organizationId != org then [row] + Foreign(rows, org) else Foreign(rows, org)
  {
    assert [] + Foreign(rows, org) == Foreign(rows, org);
    FilterCons(row, rows, (x: Row) => x.organizationId != org);
  }

  lemma {:induction false} UpdatedSplits(rows: seq<Row>, w: Where, data: Data, all: bool, org: string)
    requires Pinned(w, org)
    ensures Splits(Updated(rows, w, data, all), Foreign(rows, org), Updated(View(rows, org), w, data, all))
  {
    if rows != [] {
      var head, tail := rows[0], rows[1..];
      assert rows == [head] + tail;
      UpdatedSplits(tail, w, data, all, org);
      ViewCons(head, tail, org);
      ForeignCons(head, tail, org);
      ViewSplits(tail, org);
      var mine := View(tail, org);
      assert ([head] + mine)[1..] == mine;
      hide View, Foreign;
    }
  }

  lemma {:induction false} DeletedSplits(rows: seq<Row>, w: Where, all: bool, org: string)
    requires Pinned(w, org)
    ensures Splits(Deleted(rows, w, all), Foreign(rows, org), Deleted(View(rows, org), w, all))
  {
    if rows != [] {
      var head, tail := rows[0], rows[1..];
      assert rows == [head] + tail;
      DeletedSplits(tail, w, all, org);
      ViewCons(head, tail, org);
      ForeignCons(head, tail, org);
      ViewSplits(tail, org);
      var mine := View(tail, org);
      assert ([head] + mine)[1..] == mine;
      hide View, Foreign;
    }
  }

  lemma WritesSplit(rows: seq<Row>, op: Operation, scoped: Args, org: string)
    requires Writes(op) && Pinned(scoped.where_, org)
    ensures Splits(Execute(rows, op, scoped).0, Foreign(rows, org), Execute(View(rows, org), op, scoped).0)
  {
    ViewSplits(rows, org);
    MatchingInView(rows, scoped.where_, org);
    UpdatedSplits(rows, scoped.where_, scoped.data, op == updateMany, org);
    DeletedSplits(rows, scoped.where_, op == deleteMany, org);
    hide View, Foreign, Matching, Updated, Deleted, Pinned;
  }

  lemma ReadsSplit(rows: seq<Row>, op: Operation, scoped: Args, org: string)
    requires op in READ_OR_DELETE_OPERATIONS && !Writes(op)
    ensures Execute(rows, op, scoped).0 == rows && Execute(View(rows, org), op, scoped).0 == View(rows, org)
  {
    hide View, Matching;
  }

  lemma CreatesSplit(rows: seq<Row>, op: Operation, scoped: Args, org: string)
    requires op == create || op == createMany
    ensures Splits(Execute(rows, op, scoped).0, Foreign(rows, org), Execute(View(rows, org), op, scoped).0)
  {
    ViewSplits(rows, org);
    hide View, Foreign;
  }

  /** The table a scoped operation leaves: the other organizations' rows as before, and what it makes of the organization's own. */
  lemma ExecuteSplits(rows: seq<Row>, op: Operation, args: Args, org: string)
    requires Scoped(op)
    ensures var scoped := Scope(op, args, org);
      Splits(Execute(rows, op, scoped).0, Foreign(rows, org), Execute(View(rows, org), op, scoped).0)
  {
    hide View, Foreign, Execute;
    if op == create || op == createMany {
      CreatesSplit(rows, op, Scope(op, args, org), org);
    } else if Writes(op) {
      WritesSplit(rows, op, Scope(op, args, org), org);
    } else {
      ViewSplits(rows, org);
      ReadsSplit(rows, op, Scope(op, args, org), org);
    }
  }

  lemma CountSplits(whole: seq<Row>, foreign: seq<Row>, mine: seq<Row>, p: Row -> bool)
    requires Splits(whole, foreign, mine)
    ensures |Filter(whole, p)| == |Filter(foreign, p)| + |Filter(mine, p)|
  {
    var both := foreign + mine;
    assert multiset(both) == multiset(whole);
    FilterMultiset(whole, p);
    FilterMultiset(both, p);
    FilterConcat(foreign, mine, p);
    hide Filter;
    assert multiset(Filter(whole, p)) == multiset(Filter(both, p));
    assert |multiset(Filter(whole, p))| == |multiset(Filter(both, p))|;
  }

  lemma HeldSplits(whole: seq<Row>, foreign: seq<Row>, mine: seq<Row>, k: Key)
    requires Splits(whole, foreign, mine)
    ensures Held(whole, k) == Held(foreign, k) + Held(mine, k)
  {
    CountSplits(whole, foreign, mine, (row: Row) => Holds(row, k));
  }

  lemma ForeignHeldSplits(whole: seq<Row>, rows: seq<Row>, mine: seq<Row>, org: string, k: Key)
    requires Splits(whole, Foreign(rows, org), mine)
    ensures Held(Foreign(whole, org), k) == Held(Foreign(rows, org), k) + Held(Foreign(mine, org), k)
  {
    var abroad, holds := (row: Row) => row.organizationId != org, (row: Row) => Holds(row, k);
    var both := (row: Row) => abroad(row) && holds(row);
    CountSplits(whole, Foreign(rows, org), mine, both);
    FilterFilter(whole, abroad, holds, both);
    FilterFilter(mine, abroad, holds, both);
    FilterMembers(rows, abroad);
    FilterSame(Foreign(rows, org), both, holds);
  }

  // ----- one operation

  predicate SetsIn(data: Data, k: Key) {
    k.column in data.fields && data.fields[k.column] == k.value
  }

  /** The request writes this key: in a new row, or over a row it finds. */
  ghost predicate Sets(rows: seq<Row>, op: Operation, scoped: Args, k: Key) {
    match op
    case create => SetsIn(scoped.data, k)
    case createMany => exists i :: 0 <= i < |scoped.batch| && SetsIn(scoped.batch[i], k)
    case update => SetsIn(scoped.data, k) && Matching(rows, scoped.where_) != []
    case updateMany => SetsIn(scoped.data, k) && Matching(rows, scoped.where_) != []
    case _ => false
  }

  lemma HeldMeans(rows: seq<Row>, k: Key)
    ensures Held(rows, k) > 0 <==> exists i :: 0 <= i < |rows| && Holds(rows[i], k)
  {
    var p := (row: Row) => Holds(row, k);
    FilterMembers(rows, p);
    var held := Filter(rows, p);
    if held != [] {
      assert held[0] in rows;
    }
    if i :| 0 <= i < |rows| && Holds(rows[i], k) {
      assert rows[i] in held;
    }
  }

  lemma HeldCons(row: Row, rows: seq<Row>, k: Key)
    ensures Held([row] + rows, k) == Held(rows, k) + if Holds(row, k) then 1 else 0
  {
    FilterCons(row, rows, (x: Row) => Holds(x, k));
  }

  lemma {:induction false} UpdatedHolds(rows: seq<Row>, w: Where, data: Data, all: bool, k: Key)
    requires Held(rows, k) == 0
    ensures Held(Updated(rows, w, data, all), k) > 0 <==> SetsIn(data, k) && Matching(rows, w) != []
  {
    if rows != [] {
      var head, tail := rows[0], rows[1..];
      assert rows == [head] + tail;
      HeldCons(head, tail, k);
      UpdatedHolds(tail, w, data, all, k);
      if w.Matches(head) {
        HeldCons(data.Update(head), if all then Updated(tail, w, data, all) else tail, k);
      } else {
        HeldCons(head, Updated(tail, w, data, all), k);
      }
      hide Held;
    }
  }

  lemma {:induction false} DeletedHolds(rows: seq<Row>, w: Where, all: bool, k: Key)
    ensures Held(Deleted(rows, w, all), k) <= Held(rows, k)
  {
    if rows != [] {
      var head, tail := rows[0], rows[1..];
      assert rows == [head] + tail;
      HeldCons(head, tail, k);
      DeletedHolds(tail, w, all, k);
      if !w.Matches(head) {
        HeldCons(head, Deleted(tail, w, all), k);
      }
      hide Held;
    }
  }

  lemma AppendedHolds(rows: seq<Row>, more: seq<Row>, k: Key)
    ensures Held(rows + more, k) == Held(rows, k) + Held(more, k)
  {
    FilterConcat(rows, more, (row: Row) => Holds(row, k));
  }

  lemma CreatesHold(rows: seq<Row>, op: Operation, scoped: Args, k: Key)
    requires op == create || op == createMany
    requires if op == create then scoped.data.organizationId.Some?
      else forall i :: 0 <= i < |scoped.batch| ==> scoped.batch[i].organizationId.Some?
    requires Held(rows, k) == 0
    ensures Held(Execute(rows, op, scoped).0, k) > 0 <==> Sets(rows, op, scoped, k)
  {
    var more := if op == create then [scoped.data.Insert()] else Inserted(scoped.batch);
    AppendedHolds(rows, more, k);
    HeldMeans(more, k);
    hide Held;
    if op == create {
      assert Holds(more[0], k) <==> SetsIn(scoped.data, k);
    } else {
      assert forall i :: 0 <= i < |more| ==> (Holds(more[i], k) <==> SetsIn(scoped.batch[i], k));
    }
  }

  lemma ChangesHold(rows: seq<Row>, op: Operation, scoped: Args, k: Key)
    requires op in READ_OR_DELETE_OPERATIONS && Held(rows, k) == 0
    ensures Held(Execute(rows, op, scoped).0, k) > 0 <==> Sets(rows, op, scoped, k)
  {
    UpdatedHolds(rows, scoped.where_, scoped.data, op == updateMany, k);
    DeletedHolds(rows, scoped.where_, op == deleteMany, k);
    hide Held, Matching, Updated, Deleted;
  }

  /** A key nobody held is held afterwards exactly when the request sets it. */
  lemma HeldIfSet(rows: seq<Row>, op: Operation, args: Args, org: string, k: Key)
    requires Scoped(op) && Held(rows, k) == 0
    ensures var scoped := Scope(op, args, org); Held(Execute(rows, op, scoped).0, k) > 0 <==> Sets(rows, op, scoped, k)
  {
    if op == create || op == createMany {
      CreatesHold(rows, op, Scope(op, args, org), k);
    } else {
      ChangesHold(rows, op, Scope(op, args, org), k);
    }
  }

  /** The organization's own rows allow the write, but it sets a key that another organization holds. */
  ghost predicate MeetsForeignKey(rows: seq<Row>, op: Operation, scoped: Args, org: string, columns: set<string>) {
    && Unique(Execute(View(rows, org), op, scoped).0, columns)
    && exists k: Key :: k.column in columns && Held(Foreign(rows, org), k) > 0 && Sets(View(rows, org), op, scoped, k)
  }

  /** In a table without doubled keys, the parts have none either and hold none in common. */
  lemma PartsAreUnique(rows: seq<Row>, org: string, columns: set<string>, k: Key)
    requires Unique(rows, columns) && k.column in columns
    ensures Held(Foreign(rows, org), k) + Held(View(rows, org), k) <= 1
  {
    ViewSplits(rows, org);
    HeldSplits(rows, Foreign(rows, org), View(rows, org), k);
  }

  /** A write goes through exactly when the organization's own rows allow it and it meets no foreign key. */
  lemma GoesThroughExactly(rows: seq<Row>, op: Operation, args: Args, org: string, columns: set<string>)
    requires Scoped(op) && Unique(rows, columns)
    ensures var scoped := Scope(op, args, org);
      Unique(Execute(rows, op, scoped).0, columns)
      <==> Unique(Execute(View(rows, org), op, scoped).0, columns) && !MeetsForeignKey(rows, op, scoped, org, columns)
  {
    var scoped := Scope(op, args, org);
    var whole, alone := Execute(rows, op, scoped).0, Execute(View(rows, org), op, scoped).0;
    ExecuteSplits(rows, op, args, org);
    forall k: Key | k.column in columns
      ensures Held(whole, k) == Held(Foreign(rows, org), k) + Held(alone, k)
      ensures Held(Foreign(rows, org), k) <= 1
      ensures Held(Foreign(rows, org), k) > 0 ==> (Held(alone, k) > 0 <==> Sets(View(rows, org), op, scoped, k))
    {
      HeldSplits(whole, Foreign(rows, org), alone, k);
      PartsAreUnique(rows, org, columns, k);
      if Held(Foreign(rows, org), k) > 0 {
        HeldIfSet(View(rows, org), op, args, org, k);
      }
    }
    hide Execute, Sets, View, Foreign, Held;
  }

  ghost predicate GuardedAsIfAlone(rows: seq<Row>, op: Operation, scoped: Args, org: string, columns: set<string>) {
    var (whole, answer) := Guarded(rows, op, scoped, columns);
    var (alone, answerAlone) := Guarded(View(rows, org), op, scoped, columns);
    answer == answerAlone && View(whole, org) == View(alone, org)
  }

  lemma OnlyWritesSet(rows: seq<Row>, op: Operation, scoped: Args, k: Key)
    requires Sets(rows, op, scoped, k)
    ensures Execute(rows, op, scoped).1 != Conflict
  {
  }

  /** An operation answers, and changes the organization's rows, as if the table held only those, unless it meets a foreign key. */
  lemma AsIfAloneExactly(rows: seq<Row>, op: Operation, args: Args, org: string, columns: set<string>)
    requires Scoped(op) && Unique(rows, columns)
    ensures var scoped := Scope(op, args, org);
      GuardedAsIfAlone(rows, op, scoped, org, columns) <==> !MeetsForeignKey(rows, op, scoped, org, columns)
  {
    var scoped := Scope(op, args, org);
    GoesThroughExactly(rows, op, args, org, columns);
    RunsAsIfAlone(rows, op, args, org);
    ViewOfView(rows, org);
    if MeetsForeignKey(rows, op, scoped, org, columns) {
      var k: Key :| k.column in columns && Held(Foreign(rows, org), k) > 0 && Sets(View(rows, org), op, scoped, k);
      OnlyWritesSet(View(rows, org), op, scoped, k);
    }
    hide Execute, View, Foreign, MeetsForeignKey, Unique, Sets;
  }

  // ----- whole runs

  ghost predicate SameForeignKeys(rows1: seq<Row>, rows2: seq<Row>, org: string, columns: set<string>) {
    forall k: Key :: k.column in columns ==> (Held(Foreign(rows1, org), k) > 0 <==> Held(Foreign(rows2, org), k) > 0)
  }

  /** What two tables share that one organization cannot tell apart. */
  ghost predicate Alike(rows1: seq<Row>, rows2: seq<Row>, org: string, columns: set<string>) {
    && Unique(rows1, columns) && Unique(rows2, columns)
    && View(rows1, org) == View(rows2, org) && SameForeignKeys(rows1, rows2, org, columns)
  }

  lemma ForeignKeysAfter(rows1: seq<Row>, rows2: seq<Row>, op: Operation, args: Args, org: string, columns: set<string>)
    requires Scoped(op) && View(rows1, org) == View(rows2, org) && SameForeignKeys(rows1, rows2, org, columns)
    ensures var scoped := Scope(op, args, org);
      SameForeignKeys(Execute(rows1, op, scoped).0, Execute(rows2, op, scoped).0, org, columns)
  {
    var scoped := Scope(op, args, org);
    var after1, after2, mine := Execute(rows1, op, scoped).0, Execute(rows2, op, scoped).0, Execute(View(rows1, org), op, scoped).0;
    ExecuteSplits(rows1, op, args, org);
    ExecuteSplits(rows2, op, args, org);
    hide Execute, View, Foreign, Held;
    forall k: Key | k.column in columns ensures Held(Foreign(after1, org), k) > 0 <==> Held(Foreign(after2, org), k) > 0 {
      ForeignHeldSplits(after1, rows1, mine, org, k);
      ForeignHeldSplits(after2, rows2, mine, org, k);
    }
  }

  lemma StepAlike(rows1: seq<Row>, rows2: seq<Row>, op: Operation, args: Args, org: string, columns: set<string>)
    requires Scoped(op) && Alike(rows1, rows2, org, columns)
    ensures var scoped := Scope(op, args, org);
      Guarded(rows1, op, scoped, columns).1 == Guarded(rows2, op, scoped, columns).1
      && Alike(Guarded(rows1, op, scoped, columns).0, Guarded(rows2, op, scoped, columns).0, org, columns)
  {
    var scoped := Scope(op, args, org);
    GoesThroughExactly(rows1, op, args, org, columns);
    GoesThroughExactly(rows2, op, args, org, columns);
    assert MeetsForeignKey(rows1, op, scoped, org, columns) <==> MeetsForeignKey(rows2, op, scoped, org, columns) by {
      hide Execute, View, Foreign, Held, Unique, Sets;
    }
    RunsAsIfAlone(rows1, op, args, org);
    RunsAsIfAlone(rows2, op, args, org);
    ForeignKeysAfter(rows1, rows2, op, args, org, columns);
    hide Execute, View, Foreign, MeetsForeignKey, Unique, SameForeignKeys;
  }

  ghost predicate AllScoped(requests: seq<Request>) {
    forall i :: 0 <= i < |requests| ==> Scoped(requests[i].op)
  }

  lemma {:induction false} RunAlike(rows1: seq<Row>, rows2: seq<Row>, requests: seq<Request>, org: string, columns: set<string>)
    requires AllScoped(requests) && Alike(rows1, rows2, org, columns)
    ensures GuardedRun(rows1, requests, org, columns).1 == GuardedRun(rows2, requests, org, columns).1
    ensures Alike(GuardedRun(rows1, requests, org, columns).0, GuardedRun(rows2, requests, org, columns).0, org, columns)
    decreases |requests|
  {
    hide Guarded, Alike;
    if requests != [] {
      var op, args := requests[0].op, requests[0].args;
      StepAlike(rows1, rows2, op, args, org, columns);
      var scoped := Scope(op, args, org);
      RunAlike(Guarded(rows1, op, scoped, columns).0, Guarded(rows2, op, scoped, columns).0, requests[1..], org, columns);
    }
  }

  /** No run of scoped requests answers differently on the two tables. */
  ghost predicate Indistinguishable(rows1: seq<Row>, rows2: seq<Row>, org: string, columns: set<string>) {
    forall requests :: AllScoped(requests) ==>
      GuardedRun(rows1, requests, org, columns).1 == GuardedRun(rows2, requests, org, columns).1
  }

  /** Asks for a new row that holds just this key. */
  function NewHolder(k: Key): Request {
    Request(create, Args(Where(None, (row: Row) => true), Data(None, map[k.column := k.value]), [], (rows: seq<Row>) => NotFound))
  }

  lemma NewHolderAnswers(rows: seq<Row>, k: Key, org: string, columns: set<string>)
    requires Unique(rows, columns) && k.column in columns && Held(View(rows, org), k) == 0
    ensures GuardedRun(rows, [NewHolder(k)], org, columns).1
      == [if Held(Foreign(rows, org), k) > 0 then Conflict else Rows([Row(org, map[k.column := k.value])])]
  {
    var scoped := Scope(create, NewHolder(k).args, org);
    var added := Row(org, map[k.column := k.value]);
    var mine := Execute(View(rows, org), create, scoped).0;
    GoesThroughExactly(rows, create, NewHolder(k).args, org, columns);
    forall other: Key | other.column in columns ensures Held(mine, other) <= 1 {
      PartsAreUnique(rows, org, columns, other);
      AppendedHolds(View(rows, org), [added], other);
      HeldCons(added, [], other);
      assert [added] + [] == [added];
    }
    assert [NewHolder(k)][1..] == [];
    hide View, Foreign, Held;
  }

  /**
   * What an organization can learn of the others, exactly: two tables with the same rows of its own answer every
   * run alike if and only if the others hold the same unique keys in both.
   */
  lemma IndistinguishableExactly(rows1: seq<Row>, rows2: seq<Row>, org: string, columns: set<string>)
    requires Unique(rows1, columns) && Unique(rows2, columns) && View(rows1, org) == View(rows2, org)
    ensures Indistinguishable(rows1, rows2, org, columns) <==> SameForeignKeys(rows1, rows2, org, columns)
  {
    hide Held, View, Foreign, GuardedRun;
    if SameForeignKeys(rows1, rows2, org, columns) {
      forall requests | AllScoped(requests)
        ensures GuardedRun(rows1, requests, org, columns).1 == GuardedRun(rows2, requests, org, columns).1
      {
        RunAlike(rows1, rows2, requests, org, columns);
      }
    }
    if Indistinguishable(rows1, rows2, org, columns) {
      forall k: Key | k.column in columns
        ensures Held(Foreign(rows1, org), k) > 0 <==> Held(Foreign(rows2, org), k) > 0
      {
        PartsAreUnique(rows1, org, columns, k);
        PartsAreUnique(rows2, org, columns, k);
        assert AllScoped([NewHolder(k)]);
        if Held(View(rows1, org), k) == 0 {
          NewHolderAnswers(rows1, k, org, columns);
          NewHolderAnswers(rows2, k, org, columns);
        }
      }
    }
  }
}
