/** The tenant extension: how it rewrites queries, and why organizations cannot observe one another through it. */
module Tenancy {
  import opened Wrappers
  import opened Seqs

  datatype Row = Row(organizationId: string, fields: map<string, string>)

  /** The top-level `organizationId` key, and every other condition. */
  datatype Where = Where(organizationId: Option<string>, rest: Row -> bool) {
    predicate Matches(row: Row) {
      (organizationId.Some? ==> row.organizationId == organizationId.value) && rest(row)
    }
  }

  datatype Data = Data(organizationId: Option<string>, fields: map<string, string>) {
    function Insert(): Row
      requires organizationId.Some?
    {
      Row(organizationId.value, fields)
    }

    function Update(row: Row): Row {
      Row(if organizationId.Some? then organizationId.value else row.organizationId, row.fields + fields)
    }
  }

  datatype Answer = Rows(rows: seq<Row>) | Count(n: int) | Text(text: string) | NotFound | Invalid | Refused | Conflict

  datatype Operation =
    | create | createMany
    | findFirst | findFirstOrThrow | findMany
    | update | updateMany | delete | deleteMany
    | count | aggregate | groupBy
    | findUnique | findUniqueOrThrow | upsert

  const READ_OR_DELETE_OPERATIONS := {
    findFirst, findFirstOrThrow, findMany, update, updateMany, delete, deleteMany, count, aggregate, groupBy }

  const TENANT_SCOPED_MODELS := {
    "PortalUser", "Team", "Learner", "Track", "ContentItem", "Recommendation", "TrainingPlan", "PlanTemplate",
    "Session", "Report", "AuditLog", "Skill", "PortalInvite", "Notification" }

  /** Ordering, paging, selecting, counting and grouping are all some function of the matching rows. */
  datatype Args = Args(where_: Where, data: Data, batch: seq<Data>, shape: seq<Row> -> Answer)

  // ----- the database underneath, for one model

  function Updated(rows: seq<Row>, w: Where, data: Data, all: bool): seq<Row> {
    if rows == [] then []
    else if w.Matches(rows[0]) then [data.Update(rows[0])] + if all then Updated(rows[1..], w, data, all) else rows[1..]
    else [rows[0]] + Updated(rows[1..], w, data, all)
  }

  function Deleted(rows: seq<Row>, w: Where, all: bool): seq<Row> {
    if rows == [] then []
    else if w.Matches(rows[0]) then if all then Deleted(rows[1..], w, all) else rows[1..]
    else [rows[0]] + Deleted(rows[1..], w, all)
  }

  function Inserted(batch: seq<Data>): seq<Row>
    requires forall k :: 0 <= k < |batch| ==> batch[k].organizationId.Some?
  {
    seq(|batch|, k requires 0 <= k < |batch| => batch[k].Insert())
  }

  function Matching(rows: seq<Row>, w: Where): seq<Row> {
    Filter(rows, (row: Row) => w.Matches(row))
  }

  function Execute(rows: seq<Row>, op: Operation, args: Args): (seq<Row>, Answer) {
    var m := Matching(rows, args.where_);
    match op
    case create =>
      if args.data.organizationId.None? then (rows, Invalid) else (rows + [args.data.Insert()], Rows([args.data.Insert()]))
    case createMany =>
      if exists k :: 0 <= k < |args.batch| && args.batch[k].organizationId.None? then (rows, Invalid)
      else (rows + Inserted(args.batch), Count(|args.batch|))
    case update => if m == [] then (rows, NotFound) else (Updated(rows, args.where_, args.data, false), Rows([args.data.Update(m[0])]))
    case updateMany => (Updated(rows, args.where_, args.data, true), Count(|m|))
    case delete => if m == [] then (rows, NotFound) else (Deleted(rows, args.where_, false), Rows([m[0]]))
    case deleteMany => (Deleted(rows, args.where_, true), Count(|m|))
    case findFirstOrThrow => if m == [] then (rows, NotFound) else (rows, args.shape(m))
    case findUniqueOrThrow => if m == [] then (rows, NotFound) else (rows, args.shape(m))
    case upsert =>
      if m != [] then (Updated(rows, args.where_, args.data, false), Rows([args.data.Update(m[0])]))
      else if args.data.organizationId.None? then (rows, Invalid)
      else (rows + [args.data.Insert()], Rows([args.data.Insert()]))
    case _ => (rows, args.shape(m))
  }

  // ----- what an operation does, row by row

  ghost predicate First(rows: seq<Row>, asked: Row -> bool, i: nat) {
    i < |rows| && asked(rows[i]) && forall j :: 0 <= j < i ==> !asked(rows[j])
  }

  ghost predicate NoneAsked(rows: seq<Row>, asked: Row -> bool) {
    forall i :: 0 <= i < |rows| ==> !asked(rows[i])
  }

  ghost predicate ChangesFirst(rows: seq<Row>, asked: Row -> bool, change: Row -> Row, after: seq<Row>, answer: Answer) {
    exists i: nat :: First(rows, asked, i) && after == rows[i := change(rows[i])] && answer == Rows([change(rows[i])])
  }

  ghost predicate RemovesFirst(rows: seq<Row>, asked: Row -> bool, after: seq<Row>, answer: Answer) {
    exists i: nat :: First(rows, asked, i) && after == rows[..i] + rows[i + 1..] && answer == Rows([rows[i]])
  }

  ghost predicate ChangesAll(rows: seq<Row>, asked: Row -> bool, change: Row -> Row, after: seq<Row>) {
    |after| == |rows| && forall i :: 0 <= i < |rows| ==> after[i] == if asked(rows[i]) then change(rows[i]) else rows[i]
  }

  /**
   * `op` asks for the rows at which `asked` holds, turns a row it updates into what `change` says, and appends
   * `inserted` if it creates; no `inserted` means that an organization is missing.
   */
  ghost predicate Performs(rows: seq<Row>, op: Operation, asked: Row -> bool, change: Row -> Row, inserted: Option<seq<Row>>,
                           shape: seq<Row> -> Answer, after: seq<Row>, answer: Answer)
  {
    match op
    case create =>
      if inserted.None? then after == rows && answer == Invalid
      else after == rows + inserted.value && answer == Rows(inserted.value)
    case createMany =>
      if inserted.None? then after == rows && answer == Invalid
      else after == rows + inserted.value && answer == Count(|inserted.value|)
    case update =>
      if NoneAsked(rows, asked) then after == rows && answer == NotFound else ChangesFirst(rows, asked, change, after, answer)
    case updateMany => ChangesAll(rows, asked, change, after) && answer == Count(|Filter(rows, asked)|)
    case delete =>
      if NoneAsked(rows, asked) then after == rows && answer == NotFound else RemovesFirst(rows, asked, after, answer)
    case deleteMany => after == Filter(rows, (row: Row) => !asked(row)) && answer == Count(|Filter(rows, asked)|)
    case upsert =>
      if !NoneAsked(rows, asked) then ChangesFirst(rows, asked, change, after, answer)
      else if inserted.None? then after == rows && answer == Invalid
      else after == rows + inserted.value && answer == Rows(inserted.value)
    case findFirstOrThrow =>
      after == rows && answer == if NoneAsked(rows, asked) then NotFound else shape(Filter(rows, asked))
    case findUniqueOrThrow =>
      after == rows && answer == if NoneAsked(rows, asked) then NotFound else shape(Filter(rows, asked))
    case _ => after == rows && answer == shape(Filter(rows, asked))
  }

  /** The row `row` becomes: the given organization if there is one, the given fields over its own. */
  ghost function Changing(data: Data): Row -> Row {
    (row: Row) => Row(match data.organizationId case Some(org) => org case None => row.organizationId, row.fields + data.fields)
  }

  /** The rows an unscoped create adds, if every one of them names its organization. */
  ghost function NewRows(batch: seq<Data>): Option<seq<Row>> {
    if exists k :: 0 <= k < |batch| && batch[k].organizationId.None? then None
    else Some(seq(|batch|, k requires 0 <= k < |batch| =>
      Row(if batch[k].organizationId.Some? then batch[k].organizationId.value else "", batch[k].fields)))
  }

  /** An operation as the caller wrote it. */
  ghost predicate DoesPlainly(rows: seq<Row>, op: Operation, args: Args, after: seq<Row>, answer: Answer) {
    var asked := (row: Row) =>
      (match args.where_.organizationId case Some(org) => row.organizationId == org case None => true) && args.where_.rest(row);
    Performs(rows, op, asked, Changing(args.data), NewRows(if op == createMany then args.batch else [args.data]), args.shape, after, answer)
  }

  /** An operation on the organization's own rows: those that meet the caller's other conditions; new rows are its own. */
  ghost predicate DoesAs(rows: seq<Row>, op: Operation, args: Args, org: string, after: seq<Row>, answer: Answer) {
    var asked := (row: Row) => row.organizationId == org && args.where_.rest(row);
    var inserted := if op == createMany then seq(|args.batch|, k requires 0 <= k < |args.batch| => Row(org, args.batch[k].fields))
      else [Row(org, args.data.fields)];
    Performs(rows, op, asked, Changing(args.data), Some(inserted), args.shape, after, answer)
  }

  lemma MatchingIs(rows: seq<Row>, w: Where, asked: Row -> bool)
    requires forall row :: asked(row) == w.Matches(row)
    ensures Matching(rows, w) == Filter(rows, asked)
    ensures Matching(rows, w) == [] <==> NoneAsked(rows, asked)
  {
    FilterSame(rows, (row: Row) => w.Matches(row), asked);
    FilterMembers(rows, asked);
    if !NoneAsked(rows, asked) {
      var i :| 0 <= i < |rows| && asked(rows[i]);
      assert rows[i] in Filter(rows, asked);
    } else {
      FilterNone(rows, asked);
    }
  }

  lemma {:induction false} UpdatesAll(rows: seq<Row>, w: Where, data: Data, asked: Row -> bool)
    requires forall row :: asked(row) == w.Matches(row)
    ensures ChangesAll(rows, asked, Changing(data), Updated(rows, w, data, true))
  {
    if rows != [] {
      UpdatesAll(rows[1..], w, data, asked);
    }
  }

  lemma {:induction false} UpdatesFirst(rows: seq<Row>, w: Where, data: Data, asked: Row -> bool) returns (i: nat)
    requires forall row :: asked(row) == w.Matches(row)
    requires Matching(rows, w) != []
    ensures First(rows, asked, i) && Matching(rows, w)[0] == rows[i]
    ensures Updated(rows, w, data, false) == rows[i := data.Update(rows[i])]
  {
    if w.Matches(rows[0]) {
      i := 0;
    } else {
      i := UpdatesFirst(rows[1..], w, data, asked);
      i := i + 1;
    }
  }

  lemma {:induction false} DeletesAll(rows: seq<Row>, w: Where, asked: Row -> bool)
    requires forall row :: asked(row) == w.Matches(row)
    ensures Deleted(rows, w, true) == Filter(rows, (row: Row) => !asked(row))
  {
    if rows != [] {
      DeletesAll(rows[1..], w, asked);
    }
  }

  lemma {:induction false} DeletesFirst(rows: seq<Row>, w: Where, asked: Row -> bool) returns (i: nat)
    requires forall row :: asked(row) == w.Matches(row)
    requires Matching(rows, w) != []
    ensures First(rows, asked, i) && Matching(rows, w)[0] == rows[i]
    ensures Deleted(rows, w, false) == rows[..i] + rows[i + 1..]
  {
    if w.Matches(rows[0]) {
      i := 0;
    } else {
      var head, tail := rows[0], rows[1..];
      var j := DeletesFirst(tail, w, asked);
      assert Deleted(rows, w, false) == [head] + Deleted(tail, w, false);
      assert Matching(rows, w) == [] + Matching(tail, w);
      hide Deleted, Matching;
      i := j + 1;
      ConsRemoved(rows, head, tail, j);
    }
  }

  lemma ConsRemoved<T>(s: seq<T>, head: T, tail: seq<T>, j: nat)
    requires s == [head] + tail && j < |tail|
    ensures [head] + (tail[..j] + tail[j + 1..]) == s[..j + 1] + s[j + 2..]
  {
    assert s[..j + 1] == [head] + tail[..j] && s[j + 2..] == tail[j + 1..];
  }

  lemma ChangingIs(data: Data, row: Row)
    ensures Changing(data)(row) == data.Update(row)
  {
  }

  lemma ChangesPerform(rows: seq<Row>, op: Operation, args: Args, asked: Row -> bool, inserted: Option<seq<Row>>)
    requires forall row :: asked(row) == args.where_.Matches(row)
    requires op == update || op == updateMany
    ensures Performs(rows, op, asked, Changing(args.data), inserted, args.shape, Execute(rows, op, args).0, Execute(rows, op, args).1)
  {
    MatchingIs(rows, args.where_, asked);
    UpdatesAll(rows, args.where_, args.data, asked);
    if Matching(rows, args.where_) != [] {
      var i := UpdatesFirst(rows, args.where_, args.data, asked);
      ChangingIs(args.data, rows[i]);
      assert ChangesFirst(rows, asked, Changing(args.data), Updated(rows, args.where_, args.data, false),
                          Rows([args.data.Update(Matching(rows, args.where_)[0])]));
    }
    hide Matching, Updated, Deleted, ChangesAll, ChangesFirst, RemovesFirst, NoneAsked, Changing, Filter;
  }

  lemma RemovalsPerform(rows: seq<Row>, op: Operation, args: Args, asked: Row -> bool, inserted: Option<seq<Row>>)
    requires forall row :: asked(row) == args.where_.Matches(row)
    requires op == delete || op == deleteMany
    ensures Performs(rows, op, asked, Changing(args.data), inserted, args.shape, Execute(rows, op, args).0, Execute(rows, op, args).1)
  {
    MatchingIs(rows, args.where_, asked);
    DeletesAll(rows, args.where_, asked);
    if Matching(rows, args.where_) != [] {
      var i := DeletesFirst(rows, args.where_, asked);
      assert RemovesFirst(rows, asked, Deleted(rows, args.where_, false), Rows([Matching(rows, args.where_)[0]]));
    }
    hide Matching, Updated, Deleted, ChangesAll, ChangesFirst, RemovesFirst, NoneAsked, Changing, Filter;
  }

  lemma NewRowsAre(batch: seq<Data>)
    ensures match NewRows(batch)
      case None => exists k :: 0 <= k < |batch| && batch[k].organizationId.None?
      case Some(new_) => (forall k :: 0 <= k < |batch| ==> batch[k].organizationId.Some?) && Inserted(batch) == new_
  {
  }

  lemma NewRowIs(data: Data)
    ensures match NewRows([data])
      case None => data.organizationId.None?
      case Some(new_) => data.organizationId.Some? && [data.Insert()] == new_
  {
    NewRowsAre([data]);
    assert [data][0] == data;
    hide NewRows;
  }

  lemma InsertsPerform(rows: seq<Row>, op: Operation, args: Args, asked: Row -> bool)
    requires forall row :: asked(row) == args.where_.Matches(row)
    requires op == create || op == createMany || op == upsert
    ensures Performs(rows, op, asked, Changing(args.data), NewRows(if op == createMany then args.batch else [args.data]), args.shape,
                     Execute(rows, op, args).0, Execute(rows, op, args).1)
  {
    NewRowsAre(args.batch);
    NewRowIs(args.data);
    MatchingIs(rows, args.where_, asked);
    if op == upsert && Matching(rows, args.where_) != [] {
      var i := UpdatesFirst(rows, args.where_, args.data, asked);
      ChangingIs(args.data, rows[i]);
      assert ChangesFirst(rows, asked, Changing(args.data), Updated(rows, args.where_, args.data, false),
                          Rows([args.data.Update(Matching(rows, args.where_)[0])]));
    }
    hide Matching, Updated, Deleted, ChangesAll, ChangesFirst, RemovesFirst, NoneAsked, Changing, Filter, NewRows, Inserted;
  }

  lemma ReadsPerform(rows: seq<Row>, op: Operation, args: Args, asked: Row -> bool, inserted: Option<seq<Row>>)
    requires forall row :: asked(row) == args.where_.Matches(row)
    requires !Writes(op) && op != create && op != createMany && op != upsert
    ensures Performs(rows, op, asked, Changing(args.data), inserted, args.shape, Execute(rows, op, args).0, Execute(rows, op, args).1)
  {
    MatchingIs(rows, args.where_, asked);
    hide Matching, Updated, Deleted, ChangesAll, ChangesFirst, RemovesFirst, NoneAsked, Changing, Filter;
  }

  lemma ExecutePerforms(rows: seq<Row>, op: Operation, args: Args, asked: Row -> bool, inserted: Option<seq<Row>>)
    requires forall row :: asked(row) == args.where_.Matches(row)
    requires inserted == NewRows(if op == createMany then args.batch else [args.data])
    ensures Performs(rows, op, asked, Changing(args.data), inserted, args.shape, Execute(rows, op, args).0, Execute(rows, op, args).1)
  {
    hide Performs, Execute, NewRows;
    if op == create || op == createMany || op == upsert {
      InsertsPerform(rows, op, args, asked);
    } else if op == update || op == updateMany {
      ChangesPerform(rows, op, args, asked, inserted);
    } else if op == delete || op == deleteMany {
      RemovalsPerform(rows, op, args, asked, inserted);
    } else {
      ReadsPerform(rows, op, args, asked, inserted);
    }
  }

  /** Scoped and run, an operation does to the organization's rows what the caller asked for. */
  lemma ScopedDoes(rows: seq<Row>, op: Operation, args: Args, org: string)
    requires !op.findUnique? && !op.findUniqueOrThrow? && !op.upsert?
    ensures DoesAs(rows, op, args, org, Execute(rows, op, Scope(op, args, org)).0, Execute(rows, op, Scope(op, args, org)).1)
  {
    var scoped := Scope(op, args, org);
    var inserted := NewRows(if op == createMany then scoped.batch else [scoped.data]);
    if op == create || op == createMany {
      ExecutePerforms(rows, op, scoped, (row: Row) => scoped.where_.Matches(row), inserted);
      hide Execute, Changing;
      if op == create {
        assert inserted == Some([Row(org, args.data.fields)]);
      } else {
        assert inserted.Some? && inserted.value == seq(|args.batch|, k requires 0 <= k < |args.batch| => Row(org, args.batch[k].fields));
      }
    } else {
      ExecutePerforms(rows, op, scoped, (row: Row) => row.organizationId == org && args.where_.rest(row), inserted);
    }
  }

  lemma UnscopedDoes(rows: seq<Row>, op: Operation, args: Args)
    ensures DoesPlainly(rows, op, args, Execute(rows, op, args).0, Execute(rows, op, args).1)
  {
    var asked := (row: Row) =>
      (match args.where_.organizationId case Some(org) => row.organizationId == org case None => true) && args.where_.rest(row);
    ExecutePerforms(rows, op, args, asked, NewRows(if op == createMany then args.batch else [args.data]));
  }

  // ----- the rewriting

  predicate Scoped(op: Operation) {
    op == create || op == createMany || op in READ_OR_DELETE_OPERATIONS
  }

  function StampAll(batch: seq<Data>, org: string): (r: seq<Data>)
    ensures |r| == |batch| && forall k :: 0 <= k < |batch| ==> r[k] == Data(Some(org), batch[k].fields)
  {
    seq(|batch|, k requires 0 <= k < |batch| => batch[k].(organizationId := Some(org)))
  }

  function Scope(op: Operation, args: Args, org: string): Args {
    if op == create then args.(data := args.data.(organizationId := Some(org)))
    else if op == createMany then args.(batch := StampAll(args.batch, org))
    else if op in READ_OR_DELETE_OPERATIONS then args.(where_ := args.where_.(organizationId := Some(org)))
    else args
  }

  predicate TenantScoped(model: Option<string>) {
    model.Some? && model.value in TENANT_SCOPED_MODELS
  }

  /** The caller's own arguments, but for the organization: on what is created, and otherwise as one more condition. */
  ghost predicate RewrittenFor(op: Operation, args: Args, org: string, scoped: Args) {
    && scoped.shape == args.shape && scoped.where_.rest == args.where_.rest
    && scoped.data.fields == args.data.fields && |scoped.batch| == |args.batch|
    && (forall k :: 0 <= k < |args.batch| ==> scoped.batch[k].fields == args.batch[k].fields)
    && match op
       case create => scoped.data.organizationId == Some(org) && scoped.where_ == args.where_ && scoped.batch == args.batch
       case createMany =>
         && (forall k :: 0 <= k < |args.batch| ==> scoped.batch[k].organizationId == Some(org))
         && scoped.where_ == args.where_ && scoped.data == args.data
       case _ => scoped.where_.organizationId == Some(org) && scoped.data == args.data && scoped.batch == args.batch
  }

  class QueryArgs {
    var value: Args

    constructor (value: Args)
      ensures this.value == value
    {
      this.value := value;
    }
  }

  class TenantClient {
    var rows: seq<Row>

    constructor ()
      ensures rows == []
    {
      rows := [];
    }

    method Query(op: Operation, args: QueryArgs) returns (answer: Answer)
      modifies this
      ensures (rows, answer) == Execute(old(rows), op, args.value)
    {
      var done := Execute(rows, op, args.value);
      rows, answer := done.0, done.1;
    }

    /** `$allOperations`: refuse without an organization, otherwise rewrite `args` in place and run it. */
    method AllOperations(model: Option<string>, op: Operation, args: QueryArgs, organizationId: Option<string>) returns (answer: Answer)
      modifies this, args
      ensures !TenantScoped(model) ==>
        args.value == old(args.value) && DoesPlainly(old(rows), op, old(args.value), rows, answer)
      ensures TenantScoped(model) && (organizationId.None? || organizationId.value == "") ==>
        answer == Refused && rows == old(rows) && args.value == old(args.value)
      ensures TenantScoped(model) && organizationId.Some? && organizationId.value != "" ==>
        if op.findUnique? || op.findUniqueOrThrow? || op.upsert? then
          args.value == old(args.value) && DoesPlainly(old(rows), op, old(args.value), rows, answer)
        else
          && RewrittenFor(op, old(args.value), organizationId.value, args.value)
          && DoesAs(old(rows), op, old(args.value), organizationId.value, rows, answer)
          && (rows, answer) == Execute(old(rows), op, Scope(op, old(args.value), organizationId.value))
    {
      UnscopedDoes(rows, op, args.value);
      if model.None? || model.value !in TENANT_SCOPED_MODELS {
        answer := Query(op, args);
        return;
      }
      if organizationId.None? || organizationId.value == "" {
        return Refused;
      }
      var org := organizationId.value;
      if !op.findUnique? && !op.findUniqueOrThrow? && !op.upsert? {
        ScopedDoes(rows, op, args.value, org);
      }
      hide DoesAs, DoesPlainly, Execute;
      if op == create {
        args.value := args.value.(data := args.value.data.(organizationId := Some(org)));
      } else if op == createMany {
        args.value := args.value.(batch := StampAll(args.value.batch, org));
      } else if op in READ_OR_DELETE_OPERATIONS {
        args.value := args.value.(where_ := args.value.where_.(organizationId := Some(org)));
      }
      answer := Query(op, args);
    }
  }

  // ----- what one organization sees

  ghost function View(rows: seq<Row>, org: string): seq<Row> {
    Filter(rows, (row: Row) => row.organizationId == org)
  }

  ghost predicate Pinned(w: Where, org: string) {
    w.organizationId == Some(org)
  }

  lemma ViewConcat(rows: seq<Row>, more: seq<Row>, org: string)
    ensures View(rows + more, org) == View(rows, org) + View(more, org)
  {
    FilterConcat(rows, more, (row: Row) => row.organizationId == org);
  }

  lemma ViewCons(row: Row, rows: seq<Row>, org: string)
    ensures View([row] + rows, org) == if row.organizationId == org then [row] + View(rows, org) else View(rows, org)
  {
    assert [] + View(rows, org) == View(rows, org);
    FilterCons(row, rows, (row: Row) => row.organizationId == org);
  }

  lemma ViewOfView(rows: seq<Row>, org: string)
    ensures View(View(rows, org), org) == View(rows, org)
  {
    FilterMembers(rows, (row: Row) => row.organizationId == org);
    FilterAll(View(rows, org), (row: Row) => row.organizationId == org);
  }

  /** A pinned condition finds the same rows in the whole table and in the organization's own view. */
  lemma MatchingInView(rows: seq<Row>, w: Where, org: string)
    requires Pinned(w, org)
    ensures Matching(View(rows, org), w) == Matching(rows, w)
  {
    FilterFilter(rows, (row: Row) => row.organizationId == org, (row: Row) => w.Matches(row), (row: Row) => w.Matches(row));
  }

  lemma {:induction false} UpdatedInView(rows: seq<Row>, w: Where, data: Data, all: bool, org: string)
    requires Pinned(w, org)
    ensures View(Updated(rows, w, data, all), org) == View(Updated(View(rows, org), w, data, all), org)
  {
    if rows != [] {
      var head, tail := rows[0], rows[1..];
      assert rows == [head] + tail;
      UpdatedInView(tail, w, data, all, org);
      ViewCons(head, tail, org);
      if head.organizationId == org {
        var mine := View(tail, org);
        assert ([head] + mine)[1..] == mine;
        if w.Matches(head) {
          ViewOfView(tail, org);
          ViewCons(data.Update(head), if all then Updated(tail, w, data, all) else tail, org);
          ViewCons(data.Update(head), if all then Updated(mine, w, data, all) else mine, org);
        } else {
          ViewCons(head, Updated(tail, w, data, all), org);
          ViewCons(head, Updated(mine, w, data, all), org);
        }
      } else {
        ViewCons(head, Updated(tail, w, data, all), org);
      }
    }
  }

  lemma {:induction false} DeletedInView(rows: seq<Row>, w: Where, all: bool, org: string)
    requires Pinned(w, org)
    ensures View(Deleted(rows, w, all), org) == View(Deleted(View(rows, org), w, all), org)
  {
    if rows != [] {
      var head, tail := rows[0], rows[1..];
      assert rows == [head] + tail;
      DeletedInView(tail, w, all, org);
      ViewCons(head, tail, org);
      if head.organizationId == org {
        var mine := View(tail, org);
        assert ([head] + mine)[1..] == mine;
        if w.Matches(head) {
          ViewOfView(tail, org);
        } else {
          ViewCons(head, Deleted(tail, w, all), org);
          ViewCons(head, Deleted(mine, w, all), org);
        }
      } else {
        ViewCons(head, Deleted(tail, w, all), org);
      }
    }
  }

  ghost predicate AsIfAlone(rows: seq<Row>, op: Operation, scoped: Args, org: string) {
    var (whole, answer) := Execute(rows, op, scoped);
    var (alone, answerAlone) := Execute(View(rows, org), op, scoped);
    answer == answerAlone && View(whole, org) == View(alone, org)
  }

  lemma CreatesAsIfAlone(rows: seq<Row>, op: Operation, scoped: Args, org: string)
    requires op == create || op == createMany
    ensures AsIfAlone(rows, op, scoped, org)
  {
    ViewOfView(rows, org);
    if op == create {
      if scoped.data.organizationId.Some? {
        InsertsAsIfAlone(rows, [scoped.data.Insert()], org);
      }
    } else if forall k :: 0 <= k < |scoped.batch| ==> scoped.batch[k].organizationId.Some? {
      InsertsAsIfAlone(rows, Inserted(scoped.batch), org);
    }
  }

  lemma UpdatesAsIfAlone(rows: seq<Row>, op: Operation, scoped: Args, org: string)
    requires (op == update || op == updateMany) && Pinned(scoped.where_, org)
    ensures AsIfAlone(rows, op, scoped, org)
  {
    MatchingInView(rows, scoped.where_, org);
    ViewOfView(rows, org);
    UpdatedInView(rows, scoped.where_, scoped.data, op == updateMany, org);
    hide View, Matching, Updated, Deleted, Pinned;
  }

  lemma DeletesAsIfAlone(rows: seq<Row>, op: Operation, scoped: Args, org: string)
    requires (op == delete || op == deleteMany) && Pinned(scoped.where_, org)
    ensures AsIfAlone(rows, op, scoped, org)
  {
    MatchingInView(rows, scoped.where_, org);
    ViewOfView(rows, org);
    DeletedInView(rows, scoped.where_, op == deleteMany, org);
    hide View, Matching, Updated, Deleted, Pinned;
  }

  predicate Writes(op: Operation) {
    op == update || op == updateMany || op == delete || op == deleteMany
  }

  lemma ReadsAsIfAlone(rows: seq<Row>, op: Operation, scoped: Args, org: string)
    requires op in READ_OR_DELETE_OPERATIONS && !Writes(op) && Pinned(scoped.where_, org)
    ensures AsIfAlone(rows, op, scoped, org)
  {
    MatchingInView(rows, scoped.where_, org);
    ViewOfView(rows, org);
    hide View, Matching, Updated, Deleted, Pinned;
  }

  lemma ReadsAndWritesAsIfAlone(rows: seq<Row>, op: Operation, scoped: Args, org: string)
    requires op in READ_OR_DELETE_OPERATIONS && Pinned(scoped.where_, org)
    ensures AsIfAlone(rows, op, scoped, org)
  {
    hide AsIfAlone, Pinned;
    if op == update || op == updateMany {
      UpdatesAsIfAlone(rows, op, scoped, org);
    } else if op == delete || op == deleteMany {
      DeletesAsIfAlone(rows, op, scoped, org);
    } else {
      ReadsAsIfAlone(rows, op, scoped, org);
    }
  }

  /** Running as `org` on the whole table answers, and changes `org`'s rows, as if the table held only those. */
  lemma RunsAsIfAlone(rows: seq<Row>, op: Operation, args: Args, org: string)
    requires Scoped(op)
    ensures AsIfAlone(rows, op, Scope(op, args, org), org)
  {
    if op == create || op == createMany {
      CreatesAsIfAlone(rows, op, Scope(op, args, org), org);
    } else {
      ReadsAndWritesAsIfAlone(rows, op, Scope(op, args, org), org);
    }
  }

  lemma InsertsAsIfAlone(rows: seq<Row>, more: seq<Row>, org: string)
    ensures View(rows + more, org) == View(View(rows, org) + more, org)
  {
    ViewOfView(rows, org);
    ViewConcat(rows, more, org);
    ViewConcat(View(rows, org), more, org);
  }

  // ----- what the other organizations see

  lemma {:induction false} UpdatedElsewhere(rows: seq<Row>, w: Where, data: Data, all: bool, org: string, other: string)
    requires Pinned(w, org) && other != org
    ensures Matching(rows, w) == [] ==> Updated(rows, w, data, all) == rows
    ensures data.organizationId != Some(other) ==> View(Updated(rows, w, data, all), other) == View(rows, other)
    ensures data.organizationId == Some(other) ==>
      |View(Updated(rows, w, data, all), other)| >= |View(rows, other)| + if Matching(rows, w) != [] then 1 else 0
  {
    if rows != [] {
      var head, tail := rows[0], rows[1..];
      assert rows == [head] + tail;
      UpdatedElsewhere(tail, w, data, all, org, other);
      ViewCons(head, tail, other);
      if w.Matches(head) {
        ViewCons(data.Update(head), if all then Updated(tail, w, data, all) else tail, other);
      } else {
        ViewCons(head, Updated(tail, w, data, all), other);
      }
    }
  }

  lemma {:induction false} DeletedElsewhere(rows: seq<Row>, w: Where, all: bool, org: string, other: string)
    requires Pinned(w, org) && other != org
    ensures View(Deleted(rows, w, all), other) == View(rows, other)
  {
    if rows != [] {
      var head, tail := rows[0], rows[1..];
      assert rows == [head] + tail;
      DeletedElsewhere(tail, w, all, org, other);
      ViewCons(head, tail, other);
      if !w.Matches(head) {
        ViewCons(head, Deleted(tail, w, all), other);
      }
    }
  }

  lemma InsertedElsewhere(batch: seq<Data>, org: string, other: string)
    requires other != org
    ensures View(Inserted(StampAll(batch, org)), other) == []
  {
    FilterNone(Inserted(StampAll(batch, org)), (row: Row) => row.organizationId == other);
  }

  /** The one way out: update data that names another organization, on a row that matches. */
  ghost predicate HandsOver(rows: seq<Row>, op: Operation, args: Args, org: string, other: string) {
    && (op == update || op == updateMany)
    && args.data.organizationId == Some(other)
    && Matching(rows, Scope(op, args, org).where_) != []
  }

  /** Another organization's rows stay exactly as they were, if and only if no row is handed to it. */
  lemma OthersUnchangedExactly(rows: seq<Row>, op: Operation, args: Args, org: string, other: string)
    requires Scoped(op) && other != org
    ensures View(Execute(rows, op, Scope(op, args, org)).0, other) == View(rows, other)
      <==> !HandsOver(rows, op, args, org, other)
  {
    var scoped := Scope(op, args, org);
    hide View, Matching, Updated, Deleted;
    assert View(rows, other) + [] == View(rows, other);
    if op == create {
      InsertedElsewhere([args.data], org, other);
      assert Inserted(StampAll([args.data], org)) == [scoped.data.Insert()];
      ViewConcat(rows, [scoped.data.Insert()], other);
    } else if op == createMany {
      InsertedElsewhere(args.batch, org, other);
      ViewConcat(rows, Inserted(scoped.batch), other);
    } else if op == update || op == updateMany {
      UpdatedElsewhere(rows, scoped.where_, scoped.data, op == updateMany, org, other);
    } else {
      DeletedElsewhere(rows, scoped.where_, op == deleteMany, org, other);
    }
  }

  // ----- whole runs

  datatype Request = Request(op: Operation, args: Args)

  /** A request the extension rewrites, whose update data does not reassign the organization. */
  ghost predicate WellBehaved(r: Request) {
    Scoped(r.op) && r.args.data.organizationId.None?
  }

  function RunAs(rows: seq<Row>, requests: seq<Request>, org: string): (seq<Row>, seq<Answer>)
    decreases |requests|
  {
    if requests == [] then (rows, [])
    else
      var (mid, first) := Execute(rows, requests[0].op, Scope(requests[0].op, requests[0].args, org));
      var (end, rest) := RunAs(mid, requests[1..], org);
      (end, [first] + rest)
  }

  /** Each request of a run does, in the table its predecessors left, what it asks for among the organization's rows. */
  lemma {:induction false} RunDoesEach(rows: seq<Row>, requests: seq<Request>, org: string, k: nat)
    requires k < |requests| && Scoped(requests[k].op)
    ensures |RunAs(rows, requests, org).1| == |requests|
    ensures DoesAs(RunAs(rows, requests[..k], org).0, requests[k].op, requests[k].args, org,
                   RunAs(rows, requests[..k + 1], org).0, RunAs(rows, requests, org).1[k])
    decreases |requests|
  {
    hide Execute, DoesAs;
    var op, args := requests[0].op, requests[0].args;
    var next := Execute(rows, op, Scope(op, args, org)).0;
    assert requests[..k + 1][1..] == requests[1..][..k];
    if k > 0 {
      RunDoesEach(next, requests[1..], org, k - 1);
      assert requests[..k][1..] == requests[1..][..k - 1];
    } else {
      ScopedDoes(rows, op, args, org);
      RunAnswers(next, requests[1..], org);
    }
  }

  lemma {:induction false} RunAnswers(rows: seq<Row>, requests: seq<Request>, org: string)
    ensures |RunAs(rows, requests, org).1| == |requests|
    decreases |requests|
  {
    if requests != [] {
      RunAnswers(Execute(rows, requests[0].op, Scope(requests[0].op, requests[0].args, org)).0, requests[1..], org);
    }
  }

  ghost predicate AsksFor(r: Request, org: string, row: Row) {
    row.organizationId == org && r.args.where_.rest(row)
  }

  lemma UnaskedStays(rows: seq<Row>, r: Request, org: string, after: seq<Row>, answer: Answer, row: Row)
    requires Scoped(r.op) && DoesAs(rows, r.op, r.args, org, after, answer)
    requires row in rows && !AsksFor(r, org, row)
    ensures row in after
  {
    if Writes(r.op) {
      UnaskedIsNotWritten(rows, r, org, after, answer, row);
    } else {
      hide Changing, Filter, NoneAsked;
    }
  }

  lemma UnaskedIsNotWritten(rows: seq<Row>, r: Request, org: string, after: seq<Row>, answer: Answer, row: Row)
    requires Writes(r.op) && DoesAs(rows, r.op, r.args, org, after, answer)
    requires row in rows && !AsksFor(r, org, row)
    ensures row in after
  {
    var asked := (x: Row) => x.organizationId == org && r.args.where_.rest(x);
    var k :| 0 <= k < |rows| && rows[k] == row;
    hide Changing, Filter, NoneAsked;
    if r.op == deleteMany {
      FilterMembers(rows, (x: Row) => !asked(x));
    } else if r.op == updateMany || NoneAsked(rows, asked) {
      assert after[k] == row;
    } else if r.op == update {
      var i: nat :| First(rows, asked, i) && after == rows[i := Changing(r.args.data)(rows[i])];
      assert after[k] == row;
    } else {
      var i: nat :| First(rows, asked, i) && after == rows[..i] + rows[i + 1..];
      InTheRest(rows, i, k);
    }
  }

  lemma InTheRest<T>(s: seq<T>, i: nat, k: nat)
    requires i < |s| && k < |s| && i != k
    ensures s[k] in s[..i] + s[i + 1..]
  {
    var rest := s[..i] + s[i + 1..];
    assert rest[if k < i then k else k - 1] == s[k];
  }

  /** A row that no request of a run asks for is still there at its end. */
  lemma {:induction false} UnaskedRowsStay(rows: seq<Row>, requests: seq<Request>, org: string, row: Row)
    requires forall k :: 0 <= k < |requests| ==> Scoped(requests[k].op) && !AsksFor(requests[k], org, row)
    requires row in rows
    ensures row in RunAs(rows, requests, org).0
    decreases |requests|
  {
    hide Execute, DoesAs;
    if requests != [] {
      var op, args := requests[0].op, requests[0].args;
      var (next, answer) := Execute(rows, op, Scope(op, args, org));
      ScopedDoes(rows, op, args, org);
      UnaskedStays(rows, requests[0], org, next, answer, row);
      UnaskedRowsStay(next, requests[1..], org, row);
    }
  }

  /** Two tables that agree on an organization's rows give it the same answers, and still agree afterwards. */
  lemma {:induction false} NonInterference(rows1: seq<Row>, rows2: seq<Row>, requests: seq<Request>, org: string)
    requires forall k :: 0 <= k < |requests| ==> Scoped(requests[k].op)
    requires View(rows1, org) == View(rows2, org)
    ensures RunAs(rows1, requests, org).1 == RunAs(rows2, requests, org).1
    ensures View(RunAs(rows1, requests, org).0, org) == View(RunAs(rows2, requests, org).0, org)
    decreases |requests|
  {
    if requests != [] {
      var r := requests[0];
      RunsAsIfAlone(rows1, r.op, r.args, org);
      RunsAsIfAlone(rows2, r.op, r.args, org);
      NonInterference(Execute(rows1, r.op, Scope(r.op, r.args, org)).0, Execute(rows2, r.op, Scope(r.op, r.args, org)).0,
                      requests[1..], org);
    }
  }

  /** Whatever one organization runs, every other organization's rows are untouched. */
  lemma {:induction false} OthersUntouched(rows: seq<Row>, requests: seq<Request>, org: string, other: string)
    requires forall k :: 0 <= k < |requests| ==> WellBehaved(requests[k])
    requires other != org
    ensures View(RunAs(rows, requests, org).0, other) == View(rows, other)
    decreases |requests|
  {
    if requests != [] {
      assert WellBehaved(requests[0]);
      OthersUnchangedExactly(rows, requests[0].op, requests[0].args, org, other);
      OthersUntouched(Execute(rows, requests[0].op, Scope(requests[0].op, requests[0].args, org)).0, requests[1..], org, other);
    }
  }
}
