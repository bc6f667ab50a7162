/**
 * One session's Teams meeting: `meeting.create` and `meeting.update` jobs, cancel requests and the trainer's reports,
 * interleaved between any two awaits, against an external calendar.
 */
module MeetingProtocol {
  import opened Wrappers
  import opened Seqs

  type EventId = nat

  datatype Status = SCHEDULED | INVITED | IN_PROGRESS | COMPLETED | NO_SHOW | CANCELLED

  datatype Session = Session(status: Status, graphEventId: Option<EventId>, hasJoinUrl: bool, meetingCancelled: bool)

  /** How far the create job has come; one runs at a time. */
  datatype CreateJob =
    | Idle
    | Loaded(session: Session)
    | HasMeeting(id: EventId)
    | LacksJoinUrl(id: EventId)
    | QueuesRemoval

  /** How far an update job has come, once it has read a CANCELLED session with an event. */
  datatype UpdateJob = Deleting(id: EventId) | Marking

  datatype CancelRequest = Read(session: Session) | QueuesUpdate | RemovesCreateJob

  /** What the trainer reports: that it starts the session or completes it. */
  datatype Report = Starts | Completes

  /** `lost` and `abandoned` are history: events whose id a failed poll lost, and events some removal job gave up on. */
  datatype State = State(
    row: Session,
    live: set<EventId>,
    created: set<EventId>,
    lost: set<EventId>,
    abandoned: set<EventId>,
    createQueued: nat,
    create: CreateJob,
    updateQueued: nat,
    updates: map<nat, UpdateJob>,
    cancels: map<nat, CancelRequest>,
    reports: map<nat, Report>)

  /** What the calendar service answers a create job. */
  datatype Reply =
    | Created(id: EventId)
    | CreatedWithoutJoinUrl(id: EventId)
    | CreatedIdLost(id: EventId)
    | JoinUrl
    | NoJoinUrlYet
    | Failed
    | NotConfigured

  datatype Action =
    | LoadForCreate
    | Proceed(reply: Reply, retried: bool)
    | RecordMeeting
    | RecordEventOnly(retried: bool)
    | QueueRemoval
    | LoadForUpdate(job: nat)
    | DeleteEvent(job: nat, ok: bool, retried: bool)
    | MarkCancelled(job: nat)
    | LoadForCancel(request: nat)
    | WriteCancelled(request: nat)
    | QueueUpdate(request: nat)
    | RemoveCreateJob(request: nat)
    | DeletedInOutlook(id: EventId)
    | LoadForReport(request: nat, report: Report)
    | WriteReport(request: nat, ok: bool)
    | Confirmed
    | Rescheduled

  predicate IsCreateAction(a: Action) {
    a.LoadForCreate? || a.Proceed? || a.RecordMeeting? || a.RecordEventOnly? || a.QueueRemoval?
  }

  predicate NeedsRemoval(session: Session) {
    session.graphEventId.Some? && !session.meetingCancelled
  }

  // ----- the create job, await by await

  /** The job throws: the queue runs it again unless its retries are used up or a cancel removed it. */
  function Throw(s: State, retried: bool): State {
    s.(create := Idle, createQueued := if retried then s.createQueued + 1 else s.createQueued)
  }

  function AfterLoad(s: State, session: Session, reply: Reply, retried: bool): State {
    if session.status == CANCELLED then
      s.(create := Idle, updateQueued := if NeedsRemoval(session) then s.updateQueued + 1 else s.updateQueued)
    else if session.graphEventId.Some? && session.hasJoinUrl then s.(create := Idle)
    else if reply.NotConfigured? then s.(create := Idle)
    else if session.graphEventId.Some? then
      if reply.JoinUrl? then s.(create := HasMeeting(session.graphEventId.value)) else Throw(s, retried)
    else AfterCreating(s, reply, retried)
  }

  function AfterCreating(s: State, reply: Reply, retried: bool): State {
    if reply.Created? && reply.id !in s.created then
      s.(create := HasMeeting(reply.id), live := s.live + {reply.id}, created := s.created + {reply.id})
    else if reply.CreatedWithoutJoinUrl? && reply.id !in s.created then
      s.(create := LacksJoinUrl(reply.id), live := s.live + {reply.id}, created := s.created + {reply.id})
    else if reply.CreatedIdLost? && reply.id !in s.created then
      Throw(s.(live := s.live + {reply.id}, created := s.created + {reply.id}, lost := s.lost + {reply.id}), retried)
    else Throw(s, retried)
  }

  function StepCreate(s: State, a: Action): State
    requires IsCreateAction(a)
  {
    match a
    case LoadForCreate =>
      if s.create.Idle? && s.createQueued > 0 then s.(create := Loaded(s.row), createQueued := s.createQueued - 1) else s
    case Proceed(reply, retried) =>
      if s.create.Loaded? then AfterLoad(s, s.create.session, reply, retried) else s
    case RecordMeeting =>
      if !s.create.HasMeeting? then s
      else
        var row := s.row.(graphEventId := Some(s.create.id), hasJoinUrl := true);
        if s.row.status == CANCELLED then s.(row := row, create := QueuesRemoval)
        else s.(row := row.(status := INVITED), create := Idle)
    case RecordEventOnly(retried) =>
      if !s.create.LacksJoinUrl? then s
      else
        var recorded := s.(row := s.row.(graphEventId := Some(s.create.id)));
        if s.row.status == CANCELLED then recorded.(create := QueuesRemoval) else Throw(recorded, retried)
    case QueueRemoval =>
      if s.create.QueuesRemoval? then s.(create := Idle, updateQueued := s.updateQueued + 1) else s
  }

  // ----- update jobs: the branch for a CANCELLED session

  // Deleting an event that is already gone fails like any other request, so it is never `ok`. A job that fails
  // goes back to its queue until its retries are used up.

  function StepUpdate(s: State, a: Action): State {
    match a
    case LoadForUpdate(job) =>
      if s.updateQueued == 0 || job in s.updates then s
      else if s.row.status == CANCELLED && s.row.graphEventId.Some? then
        s.(updateQueued := s.updateQueued - 1, updates := s.updates[job := Deleting(s.row.graphEventId.value)])
      else s.(updateQueued := s.updateQueued - 1)
    case DeleteEvent(job, ok, retried) =>
      if job !in s.updates || !s.updates[job].Deleting? then s
      else if ok && s.updates[job].id in s.live then
        s.(live := s.live - {s.updates[job].id}, updates := s.updates[job := Marking])
      else if retried then s.(updateQueued := s.updateQueued + 1, updates := s.updates - {job})
      else s.(abandoned := s.abandoned + {s.updates[job].id}, updates := s.updates - {job})
    case MarkCancelled(job) =>
      if job !in s.updates || !s.updates[job].Marking? then s
      else s.(row := s.row.(meetingCancelled := true), updates := s.updates - {job})
    case _ => s
  }

  // ----- cancel requests

  predicate Refuses(status: Status) {
    status == COMPLETED || status == NO_SHOW
  }

  function StepCancel(s: State, a: Action): State {
    match a
    case LoadForCancel(request) =>
      if request in s.cancels || Refuses(s.row.status) then s
      else s.(cancels := s.cancels[request := Read(s.row)])
    case WriteCancelled(request) =>
      if request !in s.cancels || !s.cancels[request].Read? then s
      else
        var before := s.cancels[request].session;
        var row := if before.status == CANCELLED then s.row else s.row.(status := CANCELLED);
        var cancelled := if before.status == CANCELLED then before else row;
        s.(row := row, cancels := s.cancels[request := if NeedsRemoval(cancelled) then QueuesUpdate else RemovesCreateJob])
    case QueueUpdate(request) =>
      if request !in s.cancels || !s.cancels[request].QueuesUpdate? then s
      else s.(updateQueued := s.updateQueued + 1, cancels := s.cancels[request := RemovesCreateJob])
    case RemoveCreateJob(request) =>
      if request !in s.cancels || !s.cancels[request].RemovesCreateJob? then s
      else s.(createQueued := 0, cancels := s.cancels - {request})
    case _ => s
  }

  // ----- everybody else

  /** A report is judged by the status it reads; the write that follows does not look at the status again. */
  predicate Accepts(status: Status, report: Report) {
    status == SCHEDULED || status == INVITED || (report.Completes? && status == IN_PROGRESS)
  }

  function Reported(report: Report): Status {
    match report
    case Starts => IN_PROGRESS
    case Completes => COMPLETED
  }

  function StepWorld(s: State, a: Action): State {
    match a
    case DeletedInOutlook(id) => s.(live := s.live - {id})
    case LoadForReport(request, report) =>
      if request in s.reports || !Accepts(s.row.status, report) then s else s.(reports := s.reports[request := report])
    case WriteReport(request, ok) =>
      if request !in s.reports then s
      else
        var row := if ok then s.row.(status := Reported(s.reports[request])) else s.row;
        s.(row := row, reports := s.reports - {request})
    case Confirmed => s.(createQueued := s.createQueued + 1)
    case Rescheduled => s.(updateQueued := s.updateQueued + 1)
    case _ => s
  }

  function Step(s: State, a: Action): State {
    if IsCreateAction(a) then StepCreate(s, a)
    else if a.LoadForUpdate? || a.DeleteEvent? || a.MarkCancelled? then StepUpdate(s, a)
    else if a.LoadForCancel? || a.WriteCancelled? || a.QueueUpdate? || a.RemoveCreateJob? then StepCancel(s, a)
    else StepWorld(s, a)
  }

  function Run(s: State, actions: seq<Action>): State {
    if actions == [] then s else Step(Run(s, actions[..|actions| - 1]), actions[|actions| - 1])
  }

  /** A session as it stands before its plan is first confirmed. */
  const INITIAL := State(Session(SCHEDULED, None, false, false), {}, {}, {}, {}, 0, Idle, 0, map[], map[], map[])

  // ----- the invariant

  ghost predicate Holds(s: State, id: EventId) {
    s.create == HasMeeting(id) || s.create == LacksJoinUrl(id)
  }

  /** At most one event was ever created with its id known; it is recorded, or in the create job's hands about to be. */
  ghost predicate OneEvent(s: State) {
    && (forall a, b :: a in s.created - s.lost && b in s.created - s.lost ==> a == b)
    && s.live <= s.created && s.lost <= s.created
    && (forall id :: id in s.created - s.lost ==> s.row.graphEventId == Some(id) || Holds(s, id))
    && (s.row.graphEventId.Some? ==> s.row.graphEventId.value in s.created - s.lost)
    && (forall id :: Holds(s, id) ==> id in s.created - s.lost)
  }

  /** A create job past its guards acts on what the row still says about the event. */
  ghost predicate CreateIsCurrent(s: State) {
    s.create.Loaded? ==>
      && (s.create.session.graphEventId.None? ==> s.created <= s.lost)
      && (s.create.session.graphEventId.Some? ==> s.row.graphEventId == s.create.session.graphEventId)
  }

  /** Deletions aim at the recorded event, and the row says "removed" only when nothing known is live. */
  ghost predicate RemovalIsTrue(s: State) {
    && (forall job :: job in s.updates && s.updates[job].Deleting? ==> s.row.graphEventId == Some(s.updates[job].id))
    && (forall job :: job in s.updates && s.updates[job].Marking? ==> s.row.graphEventId.Some? && s.live <= s.lost)
    && (s.row.meetingCancelled ==> s.row.graphEventId.Some? && s.live <= s.lost)
  }

  /** Somebody is bound to remove event `id`: a queued or running update job, or a step about to queue one. */
  ghost predicate RemovalPending(s: State, id: EventId) {
    || s.updateQueued > 0
    || s.create.QueuesRemoval?
    || (exists request :: request in s.cancels && s.cancels[request].QueuesUpdate?)
    || (exists job :: job in s.updates && s.updates[job] == Deleting(id))
  }

  ghost predicate Orphan(s: State, id: EventId) {
    s.row.status == CANCELLED && s.row.graphEventId == Some(id) && id in s.live
  }

  ghost predicate NoOrphan(s: State) {
    forall id :: Orphan(s, id) ==> RemovalPending(s, id) || id in s.abandoned
  }

  ghost predicate Inv(s: State) {
    OneEvent(s) && CreateIsCurrent(s) && RemovalIsTrue(s) && NoOrphan(s)
  }

  lemma RemovalStaysPending(s: State, t: State)
    requires NoOrphan(s) && t.updates == s.updates && t.cancels == s.cancels && t.updateQueued >= s.updateQueued
    requires s.create.QueuesRemoval? ==> t.create.QueuesRemoval? || t.updateQueued > 0
    requires s.abandoned <= t.abandoned
    requires forall id :: Orphan(t, id) ==> Orphan(s, id) || t.create.QueuesRemoval?
    ensures NoOrphan(t)
  {
    forall id | Orphan(t, id) ensures RemovalPending(t, id) || id in t.abandoned {
      if Orphan(s, id) {
        assert RemovalPending(s, id) || id in s.abandoned;
      }
    }
  }

  /** With an event recorded, or on a failure, the step after loading creates nothing. */
  lemma AfterLoadCreatesNothing(s: State, session: Session, reply: Reply, retried: bool)
    requires session.graphEventId.Some? || session.status == CANCELLED || reply.Failed?
    ensures var t := AfterLoad(s, session, reply, retried);
      && t == s.(create := t.create, createQueued := t.createQueued, updateQueued := t.updateQueued)
      && t.updateQueued >= s.updateQueued && (!retried ==> t.createQueued == s.createQueued)
      && (t.create.Idle? || (t.create.HasMeeting? && Some(t.create.id) == session.graphEventId))
  {
    hide NeedsRemoval;
  }

  lemma CreationKeeps(s: State, reply: Reply, retried: bool)
    requires Inv(s) && s.create.Loaded? && s.create.session.graphEventId.None? && s.create.session.status != CANCELLED
    ensures Inv(AfterLoad(s, s.create.session, reply, retried))
  {
    assert s.row.graphEventId.None?;
    assert s.created <= s.lost;
    AfterLoadLeaves(s, s.create.session, reply, retried);
    CreationKeepsOne(s, reply, retried);
    hide AfterCreating, OneEvent, RemovalPending;
  }

  lemma CreationKeepsOne(s: State, reply: Reply, retried: bool)
    requires OneEvent(s) && s.row.graphEventId.None? && s.created <= s.lost
    ensures OneEvent(AfterCreating(s, reply, retried)) && !AfterCreating(s, reply, retried).create.Loaded?
  {
  }

  lemma AfterLoadKeeps(s: State, reply: Reply, retried: bool)
    requires Inv(s) && s.create.Loaded?
    ensures Inv(AfterLoad(s, s.create.session, reply, retried))
  {
    if s.create.session.graphEventId.None? && s.create.session.status != CANCELLED {
      CreationKeeps(s, reply, retried);
    } else {
      AfterLoadCreatesNothing(s, s.create.session, reply, retried);
      hide AfterLoad;
      var t := AfterLoad(s, s.create.session, reply, retried);
      assert forall id :: Orphan(t, id) ==> Orphan(s, id);
      RemovalStaysPending(s, t);
      hide NoOrphan, RemovalPending, Orphan;
    }
  }

  lemma RecordKeeps(s: State, a: Action)
    requires Inv(s) && (a.RecordMeeting? || a.RecordEventOnly?)
    ensures Inv(Step(s, a))
  {
    RemovalStaysPending(s, Step(s, a));
  }

  lemma StepCreateKeeps(s: State, a: Action)
    requires Inv(s) && IsCreateAction(a)
    ensures Inv(Step(s, a))
  {
    match a
    case Proceed(reply, retried) =>
      if s.create.Loaded? {
        AfterLoadKeeps(s, reply, retried);
      }
    case RecordMeeting => RecordKeeps(s, a);
    case RecordEventOnly(retried) => RecordKeeps(s, a);
    case LoadForCreate =>
      RemovalStaysPending(s, Step(s, a));
      forall id | id in s.created && id !in s.lost && s.create.Idle? ensures s.row.graphEventId == Some(id) {
        assert id in s.created - s.lost && !Holds(s, id);
      }
    case QueueRemoval => RemovalStaysPending(s, Step(s, a));
  }

  lemma KnownIsRecorded(s: State, id: EventId)
    requires OneEvent(s) && s.row.graphEventId.Some? && id in s.created && id !in s.lost
    ensures s.row.graphEventId == Some(id)
  {
    assert id in s.created - s.lost && s.row.graphEventId.value in s.created - s.lost;
  }

  lemma UpdateKeepsOrphansPending(s: State, a: Action)
    requires RemovalIsTrue(s) && NoOrphan(s) && (a.LoadForUpdate? || a.DeleteEvent? || a.MarkCancelled?)
    ensures NoOrphan(Step(s, a))
  {
    hide StepCreate, StepCancel, StepWorld;
    var t := Step(s, a);
    forall id | Orphan(t, id) && id !in t.abandoned ensures RemovalPending(t, id) {
      assert Orphan(s, id) && RemovalPending(s, id);
      if a.LoadForUpdate? && t != s {
        assert t.updates[a.job] == Deleting(id);
      } else if job :| job in s.updates && s.updates[job] == Deleting(id) {
        assert a.job != job ==> job in t.updates && t.updates[job] == Deleting(id);
      }
    }
  }

  lemma StepUpdateKeeps(s: State, a: Action)
    requires Inv(s) && (a.LoadForUpdate? || a.DeleteEvent? || a.MarkCancelled?)
    ensures Inv(Step(s, a))
  {
    UpdateKeepsOrphansPending(s, a);
    hide StepCreate, StepCancel, StepWorld, NoOrphan;
    forall id | id in s.live && id !in s.lost && s.row.graphEventId.Some? ensures s.row.graphEventId == Some(id) {
      KnownIsRecorded(s, id);
    }
  }

  lemma StepCancelKeeps(s: State, a: Action)
    requires Inv(s) && (a.LoadForCancel? || a.WriteCancelled? || a.QueueUpdate? || a.RemoveCreateJob?)
    ensures Inv(Step(s, a))
  {
    var t := Step(s, a);
    forall id | Orphan(t, id) && id !in t.abandoned ensures RemovalPending(t, id) {
      if Orphan(s, id) {
        assert RemovalPending(s, id);
        if request :| request in s.cancels && s.cancels[request].QueuesUpdate? {
          assert a.request != request ==> request in t.cancels && t.cancels[request].QueuesUpdate?;
        }
      } else {
        assert t.cancels[a.request].QueuesUpdate?;
      }
    }
  }

  lemma StepKeeps(s: State, a: Action)
    requires Inv(s)
    ensures Inv(Step(s, a))
  {
    if IsCreateAction(a) {
      StepCreateKeeps(s, a);
    } else if a.LoadForUpdate? || a.DeleteEvent? || a.MarkCancelled? {
      StepUpdateKeeps(s, a);
    } else if a.LoadForCancel? || a.WriteCancelled? || a.QueueUpdate? || a.RemoveCreateJob? {
      StepCancelKeeps(s, a);
    } else {
      var t := Step(s, a);
      forall id | Orphan(t, id) && id !in t.abandoned ensures RemovalPending(t, id) {
        assert Orphan(s, id) && RemovalPending(s, id);
      }
    }
  }

  lemma {:induction false} RunKeeps(s: State, actions: seq<Action>)
    requires Inv(s)
    ensures Inv(Run(s, actions))
  {
    if actions != [] {
      RunKeeps(s, actions[..|actions| - 1]);
      StepKeeps(Run(s, actions[..|actions| - 1]), actions[|actions| - 1]);
    }
  }

  // ----- what holds over every run

  predicate LosesId(a: Action) {
    a.Proceed? && a.reply.CreatedIdLost?
  }

  predicate GivesUp(a: Action) {
    a.DeleteEvent? && !a.retried
  }

  function Count(actions: seq<Action>, p: Action -> bool): nat {
    if actions == [] then 0 else Count(actions[..|actions| - 1], p) + if p(actions[|actions| - 1]) then 1 else 0
  }

  lemma {:induction false} CountIs(actions: seq<Action>, p: Action -> bool)
    ensures Count(actions, p) == |Filter(actions, p)|
  {
    if actions != [] {
      var n := |actions| - 1;
      CountIs(actions[..n], p);
      FilterConcat(actions[..n], [actions[n]], p);
      assert actions == actions[..n] + [actions[n]];
    }
  }

  lemma StepLoses(s: State, a: Action)
    ensures Step(s, a).lost <= if LosesId(a) then s.lost + {a.reply.id} else s.lost
    ensures !GivesUp(a) ==> Step(s, a).abandoned == s.abandoned
  {
    hide NeedsRemoval, Refuses;
    if IsCreateAction(a) {
      hide StepUpdate, StepCancel, StepWorld;
    } else if a.LoadForUpdate? || a.DeleteEvent? || a.MarkCancelled? {
      hide StepCreate, StepCancel, StepWorld;
    } else {
      hide StepCreate, StepUpdate;
    }
  }

  lemma SizeOfPart(part: set<EventId>, whole: set<EventId>)
    requires part <= whole
    ensures |part| <= |whole|
  {
    assert whole == part + (whole - part);
  }

  lemma {:induction false} LostAreCounted(s: State, actions: seq<Action>)
    ensures |Run(s, actions).lost| <= |s.lost| + Count(actions, LosesId)
  {
    hide Step;
    if actions != [] {
      var n := |actions| - 1;
      LostAreCounted(s, actions[..n]);
      var before, a := Run(s, actions[..n]), actions[n];
      StepLoses(before, a);
      SizeOfPart(Step(before, a).lost, if LosesId(a) then before.lost + {a.reply.id} else before.lost);
    }
  }

  lemma AtMostOne(events: set<EventId>)
    requires forall a, b :: a in events && b in events ==> a == b
    ensures |events| <= 1
  {
    if id :| id in events {
      assert events == {id};
    }
  }

  /** However jobs, cancels, retries and outside deletions interleave, one session gets at most one event, and one more
      for each time a poll failed after an event was created. */
  lemma OneEventPerSession(actions: seq<Action>)
    ensures |Run(INITIAL, actions).created| <= 1 + |Filter(actions, LosesId)|
  {
    CountIs(actions, LosesId);
    RunKeeps(INITIAL, actions);
    var s := Run(INITIAL, actions);
    LostAreCounted(INITIAL, actions);
    AtMostOne(s.created - s.lost);
    assert s.created == s.lost + (s.created - s.lost);
    assert |s.created| == |s.lost| + |s.created - s.lost|;
  }

  /** A CANCELLED session whose recorded event is still live has its removal on the way, unless a removal job gave up on it. */
  lemma NoOrphanMeeting(actions: seq<Action>, id: EventId)
    requires Orphan(Run(INITIAL, actions), id)
    ensures RemovalPending(Run(INITIAL, actions), id) || id in Run(INITIAL, actions).abandoned
  {
    RunKeeps(INITIAL, actions);
  }

  lemma {:induction false} NobodyGaveUp(s: State, actions: seq<Action>)
    requires Count(actions, GivesUp) == 0
    ensures Run(s, actions).abandoned == s.abandoned
  {
    hide Step;
    if actions != [] {
      var n := |actions| - 1;
      NobodyGaveUp(s, actions[..n]);
      StepLoses(Run(s, actions[..n]), actions[n]);
    }
  }

  /** Nothing is left to do but update jobs. */
  predicate Settled(s: State) {
    s.createQueued == 0 && s.create.Idle? && s.cancels == map[] && s.reports == map[]
  }

  ghost predicate Drained(s: State) {
    Settled(s) && s.updateQueued == 0 && s.updates == map[]
  }

  /** Once both queues have drained, a cancelled session leaves nothing on the calendar but events whose id was lost, and
      one a removal job gave up on. */
  lemma DrainedLeavesNothingLive(actions: seq<Action>)
    requires Drained(Run(INITIAL, actions)) && Run(INITIAL, actions).row.status == CANCELLED
    ensures Run(INITIAL, actions).live <= Run(INITIAL, actions).lost + Run(INITIAL, actions).abandoned
    ensures Count(actions, LosesId) == 0 && Count(actions, GivesUp) == 0 ==> Run(INITIAL, actions).live == {}
  {
    RunKeeps(INITIAL, actions);
    LostAreCounted(INITIAL, actions);
    var s := Run(INITIAL, actions);
    if Count(actions, GivesUp) == 0 {
      NobodyGaveUp(INITIAL, actions);
    }
    forall id | id in s.live && id !in s.lost ensures id in s.abandoned {
      assert Orphan(s, id);
      assert !RemovalPending(s, id);
    }
  }

  /** Once an event is recorded, no further run creates another: retries re-read that event or give up. */
  lemma {:induction false} RecordedMeansNoMoreCreated(s: State, actions: seq<Action>)
    requires Inv(s) && s.row.graphEventId.Some?
    ensures Run(s, actions).created == s.created && Run(s, actions).row.graphEventId == s.row.graphEventId
  {
    if actions != [] {
      var front := actions[..|actions| - 1];
      RecordedMeansNoMoreCreated(s, front);
      RunKeeps(s, front);
      RecordedStays(Run(s, front), actions[|actions| - 1]);
    }
  }

  lemma RecordedStays(s: State, a: Action)
    requires Inv(s) && s.row.graphEventId.Some?
    ensures Step(s, a).created == s.created && Step(s, a).row.graphEventId == s.row.graphEventId
    ensures Step(s, a).live <= s.live
  {
    var id := s.row.graphEventId.value;
    assert id in s.created - s.lost;
    if IsCreateAction(a) {
      hide StepUpdate, StepCancel, StepWorld;
      if s.create.HasMeeting? || s.create.LacksJoinUrl? {
        assert Holds(s, s.create.id);
      } else if s.create.Loaded? && a.Proceed? {
        assert s.create.session.graphEventId.Some?;
        AfterLoadCreatesNothing(s, s.create.session, a.reply, a.retried);
      }
      hide AfterLoad, Inv;
    } else {
      hide StepCreate, Inv, NeedsRemoval;
    }
  }

  // ----- reports that come in late

  /** Cancelled, and nobody is about to write over it. */
  predicate CancelledForGood(s: State) {
    s.row.status == CANCELLED && s.reports == map[]
  }

  lemma StaysCancelled(s: State, a: Action)
    requires CancelledForGood(s)
    ensures CancelledForGood(Step(s, a))
  {
    hide NeedsRemoval, AfterLoad;
    if IsCreateAction(a) {
      CreateLeavesOthers(s, a);
    }
  }

  lemma CreateLeavesOthers(s: State, a: Action)
    requires IsCreateAction(a)
    ensures Step(s, a).updates == s.updates && Step(s, a).cancels == s.cancels && Step(s, a).reports == s.reports
    ensures Step(s, a).updateQueued >= s.updateQueued && Step(s, a).row.meetingCancelled == s.row.meetingCancelled
    ensures s.row.status == CANCELLED ==> Step(s, a).row.status == CANCELLED
  {
    hide StepUpdate, StepCancel, StepWorld;
    if a.Proceed? && s.create.Loaded? {
      AfterLoadLeaves(s, s.create.session, a.reply, a.retried);
    }
    hide AfterLoad;
  }

  lemma AfterLoadLeaves(s: State, session: Session, reply: Reply, retried: bool)
    ensures var t := AfterLoad(s, session, reply, retried);
      && t.row == s.row && t.updates == s.updates && t.cancels == s.cancels && t.reports == s.reports
      && t.updateQueued >= s.updateQueued
  {
    hide NeedsRemoval, AfterCreating;
    CreatingLeaves(s, reply, retried);
  }

  lemma CreatingLeaves(s: State, reply: Reply, retried: bool)
    ensures var t := AfterCreating(s, reply, retried);
      && t.row == s.row && t.updates == s.updates && t.cancels == s.cancels && t.reports == s.reports
      && t.updateQueued >= s.updateQueued
  {
  }

  /** A cancelled session stays cancelled over every run exactly when no report that read it earlier is still under way. */
  lemma StaysCancelledExactly(s: State)
    requires s.row.status == CANCELLED
    ensures (forall actions :: Run(s, actions).row.status == CANCELLED) <==> s.reports == map[]
  {
    hide Run, Step;
    if s.reports == map[] {
      forall actions ensures Run(s, actions).row.status == CANCELLED {
        RunStaysCancelled(s, actions);
      }
    } else {
      var request :| request in s.reports;
      ReportOverwrites(s, request);
    }
  }

  lemma ReportOverwrites(s: State, request: nat)
    requires request in s.reports
    ensures Run(s, [WriteReport(request, true)]).row.status == Reported(s.reports[request]) != CANCELLED
  {
    RunPush(s, [], WriteReport(request, true));
    assert [] + [WriteReport(request, true)] == [WriteReport(request, true)];
    assert Run(s, []) == s;
  }

  lemma {:induction false} RunStaysCancelled(s: State, actions: seq<Action>)
    requires CancelledForGood(s)
    ensures CancelledForGood(Run(s, actions))
  {
    hide Step;
    if actions != [] {
      var n := |actions| - 1;
      RunStaysCancelled(s, actions[..n]);
      StaysCancelled(Run(s, actions[..n]), actions[n]);
    }
  }

  // ----- an event that is already gone

  /** The recorded event is gone, and no job has deleted it. */
  ghost predicate GoneUnmarked(s: State) {
    && s.row.graphEventId.Some? && s.row.graphEventId.value !in s.live && !s.row.meetingCancelled
    && forall job :: job in s.updates ==> !s.updates[job].Marking?
  }

  lemma GoneStays(s: State, a: Action)
    requires Inv(s) && GoneUnmarked(s)
    ensures GoneUnmarked(Step(s, a))
  {
    RecordedStays(s, a);
    if IsCreateAction(a) {
      CreateLeavesOthers(s, a);
      hide Step;
    } else if a.DeleteEvent? && a.job in s.updates && s.updates[a.job].Deleting? {
      assert s.row.graphEventId == Some(s.updates[a.job].id);
    }
    hide StepCreate, NoOrphan, OneEvent, CreateIsCurrent;
  }

  /** A session whose event was deleted outside is never marked as cleaned up, whatever runs afterwards. */
  lemma {:induction false} DeletedOutsideIsNeverMarked(s: State, actions: seq<Action>)
    requires Inv(s) && GoneUnmarked(s)
    ensures !Run(s, actions).row.meetingCancelled && GoneUnmarked(Run(s, actions))
  {
    if actions != [] {
      var front := actions[..|actions| - 1];
      DeletedOutsideIsNeverMarked(s, front);
      RunKeeps(s, front);
      GoneStays(Run(s, front), actions[|actions| - 1]);
    }
  }

  // ----- draining is always possible

  lemma RunPush(s: State, actions: seq<Action>, a: Action)
    ensures Run(s, actions + [a]) == Step(Run(s, actions), a)
  {
    assert (actions + [a])[..|actions|] == actions;
  }

  lemma {:induction false} RunConcat(s: State, first: seq<Action>, second: seq<Action>)
    ensures Run(s, first + second) == Run(Run(s, first), second)
  {
    hide Step;
    if second == [] {
      assert first + second == first;
    } else {
      var front, last := second[..|second| - 1], second[|second| - 1];
      RunConcat(s, first, front);
      RunPush(s, first + front, last);
      assert first + second == (first + front) + [last];
    }
  }

  ghost predicate Reaches(s: State, t: State) {
    exists actions :: Run(s, actions) == t
  }

  lemma ReachesItself(s: State)
    ensures Reaches(s, s)
  {
    assert Run(s, []) == s;
  }

  lemma ReachesStep(s: State, t: State, a: Action)
    requires Reaches(s, t)
    ensures Reaches(s, Step(t, a))
  {
    var actions :| Run(s, actions) == t;
    RunPush(s, actions, a);
  }

  lemma ReachesThrough(s: State, t: State, u: State)
    requires Reaches(s, t) && Reaches(t, u)
    ensures Reaches(s, u)
  {
    var first :| Run(s, first) == t;
    var second :| Run(t, second) == u;
    RunConcat(s, first, second);
  }

  lemma FinishCancel(s: State, request: nat) returns (t: State)
    requires request in s.cancels
    ensures Reaches(s, t) && t.cancels == s.cancels - {request} && t.reports == s.reports
    ensures t.live == s.live && t.abandoned == s.abandoned
    ensures s.row.status == CANCELLED ==> t.row.status == CANCELLED
  {
    hide Reaches, StepCreate, StepUpdate, StepWorld;
    ReachesItself(s);
    t := s;
    if s.cancels[request].Read? {
      ReachesStep(s, t, WriteCancelled(request));
      t := Step(t, WriteCancelled(request));
    }
    if t.cancels[request].QueuesUpdate? {
      ReachesStep(s, t, QueueUpdate(request));
      t := Step(t, QueueUpdate(request));
    }
    ReachesStep(s, t, RemoveCreateJob(request));
    t := Step(t, RemoveCreateJob(request));
  }

  lemma FinishCreate(s: State) returns (t: State)
    requires !s.create.Idle?
    ensures Reaches(s, t) && t.create.Idle? && t.createQueued == s.createQueued && t.cancels == s.cancels
    ensures t.reports == s.reports && t.live == s.live && t.abandoned == s.abandoned
    ensures s.row.status == CANCELLED ==> t.row.status == CANCELLED
  {
    if s.create.Loaded? {
      AfterLoadCreatesNothing(s, s.create.session, Failed, false);
    }
    hide Reaches, AfterLoad, StepUpdate, StepCancel, StepWorld;
    ReachesItself(s);
    var a := match s.create
      case Loaded(_) => Proceed(Failed, false)
      case HasMeeting(_) => RecordMeeting
      case LacksJoinUrl(_) => RecordEventOnly(false)
      case _ => QueueRemoval;
    ReachesStep(s, s, a);
    t := Step(s, a);
    if !t.create.Idle? {
      ReachesStep(s, t, if t.create.HasMeeting? then RecordMeeting else QueueRemoval);
      t := Step(t, if t.create.HasMeeting? then RecordMeeting else QueueRemoval);
    }
  }

  lemma FinishReport(s: State, request: nat) returns (t: State)
    requires request in s.reports
    ensures Reaches(s, t) && t == s.(reports := s.reports - {request})
  {
    ReachesItself(s);
    ReachesStep(s, s, WriteReport(request, false));
    t := Step(s, WriteReport(request, false));
  }

  lemma FinishUpdate(s: State, job: nat, ok: bool) returns (t: State)
    requires job in s.updates
    ensures Reaches(s, t) && t.updates == s.updates - {job} && (!ok ==> t.live == s.live)
    ensures t.(row := s.row, live := s.live, abandoned := s.abandoned, updates := s.updates) == s && t.row.status == s.row.status
  {
    ReachesItself(s);
    t := s;
    if s.updates[job].Deleting? {
      ReachesStep(s, t, DeleteEvent(job, ok, false));
      t := Step(t, DeleteEvent(job, ok, false));
    }
    if job in t.updates {
      ReachesStep(s, t, MarkCancelled(job));
      t := Step(t, MarkCancelled(job));
    }
  }

  /** The create job and the cancel requests can always be finished. */
  lemma {:induction false} CanFinishCancelling(s: State) returns (t: State)
    ensures Reaches(s, t) && t.createQueued == 0 && t.create.Idle? && t.cancels == map[]
    ensures t.reports == s.reports && t.live == s.live && t.abandoned == s.abandoned
    ensures s.row.status == CANCELLED ==> t.row.status == CANCELLED
    decreases |s.cancels|, s.createQueued, if s.create.Idle? then 0 else 1
  {
    var next: State;
    if s.cancels != map[] {
      var request :| request in s.cancels;
      next := FinishCancel(s, request);
      MapShrinks(s.cancels, request);
    } else if !s.create.Idle? {
      next := FinishCreate(s);
    } else if s.createQueued > 0 {
      next := Step(s, LoadForCreate);
      ReachesItself(s);
      ReachesStep(s, s, LoadForCreate);
    } else {
      ReachesItself(s);
      return s;
    }
    t := CanFinishCancelling(next);
    ReachesThrough(s, next, t);
  }

  /** From any state the work at hand can be finished: requests answered, jobs run or given up, queues emptied. */
  lemma CanDrain(s: State, ok: bool) returns (t: State)
    ensures Reaches(s, t) && Drained(t) && (!ok ==> t.live == s.live)
    ensures s.row.status == CANCELLED ==> t.row.status == CANCELLED
  {
    hide Reaches;
    var cancelled := CanFinishCancelling(s);
    var settled := CanFinishReports(cancelled);
    t := CanFinishUpdates(settled, ok);
    ReachesThrough(s, cancelled, settled);
    ReachesThrough(s, settled, t);
  }

  lemma {:induction false} CanFinishReports(s: State) returns (t: State)
    ensures Reaches(s, t) && t == s.(reports := map[])
    decreases |s.reports|
  {
    if request :| request in s.reports {
      var next := FinishReport(s, request);
      MapShrinks(s.reports, request);
      t := CanFinishReports(next);
      ReachesThrough(s, next, t);
    } else {
      assert s.reports == map[];
      ReachesItself(s);
      t := s;
    }
  }

  lemma {:induction false} CanFinishUpdates(s: State, ok: bool) returns (t: State)
    requires Settled(s)
    ensures Reaches(s, t) && Drained(t) && (!ok ==> t.live == s.live) && t.row.status == s.row.status
    decreases s.updateQueued, |s.updates|
  {
    var next: State;
    if s.updates != map[] {
      var job :| job in s.updates;
      next := FinishUpdate(s, job, ok);
      MapShrinks(s.updates, job);
    } else if s.updateQueued > 0 {
      next := Step(s, LoadForUpdate(0));
      ReachesItself(s);
      ReachesStep(s, s, LoadForUpdate(0));
    } else {
      ReachesItself(s);
      return s;
    }
    t := CanFinishUpdates(next, ok);
    ReachesThrough(s, next, t);
  }

  lemma MapShrinks<V>(m: map<nat, V>, k: nat)
    requires k in m
    ensures |m - {k}| < |m|
  {
    assert m.Keys == (m - {k}).Keys + {k};
    assert |m.Keys| == |(m - {k}).Keys| + 1;
  }

  lemma CancellingAgainQueues(s: State) returns (t: State)
    requires Drained(s) && s.row.status == CANCELLED && NeedsRemoval(s.row)
    ensures Reaches(s, t) && t == s.(updateQueued := 1)
  {
    var s1 := Step(s, LoadForCancel(0));
    var s2 := Step(s1, WriteCancelled(0));
    var s3 := Step(s2, QueueUpdate(0));
    t := Step(s3, RemoveCreateJob(0));
    hide Reaches;
    ReachesItself(s);
    ReachesStep(s, s, LoadForCancel(0));
    ReachesStep(s, s1, WriteCancelled(0));
    ReachesStep(s, s2, QueueUpdate(0));
    ReachesStep(s, s3, RemoveCreateJob(0));
    assert t.cancels == s.cancels;
  }

  lemma OneJobRemoves(s: State, id: EventId) returns (t: State)
    requires s.updateQueued == 1 && s.updates == map[] && Orphan(s, id)
    ensures Reaches(s, t) && t == s.(updateQueued := 0, live := s.live - {id}, row := s.row.(meetingCancelled := true))
  {
    var s1 := Step(s, LoadForUpdate(0));
    var s2 := Step(s1, DeleteEvent(0, true, true));
    t := Step(s2, MarkCancelled(0));
    hide Reaches;
    ReachesItself(s);
    ReachesStep(s, s, LoadForUpdate(0));
    ReachesStep(s, s1, DeleteEvent(0, true, true));
    ReachesStep(s, s2, MarkCancelled(0));
    assert t.updates == s.updates;
  }

  lemma DrainedKnownIsOrphan(s: State, id: EventId)
    requires Inv(s) && Drained(s) && s.row.status == CANCELLED && id in s.live && id !in s.lost
    ensures Orphan(s, id) && NeedsRemoval(s.row)
  {
    assert id in s.created - s.lost && !Holds(s, id);
  }

  /** With nothing else to do, another cancel request removes a recorded event that is still live. */
  lemma CancellingAgainRemoves(s: State, id: EventId) returns (t: State)
    requires Inv(s) && Drained(s) && s.row.status == CANCELLED && id in s.live && id !in s.lost
    ensures Reaches(s, t) && Drained(t) && t.row.status == CANCELLED && t.live == s.live - {id} && t.lost == s.lost
  {
    hide Reaches, Inv;
    DrainedKnownIsOrphan(s, id);
    var queued := CancellingAgainQueues(s);
    t := OneJobRemoves(queued, id);
    ReachesThrough(s, queued, t);
  }

  lemma OneKnownLive(s: State, id: EventId)
    requires OneEvent(s) && id in s.live && id !in s.lost
    ensures s.live - {id} <= s.lost
  {
    forall other | other in s.live && other !in s.lost ensures other == id {
      assert other in s.created - s.lost && id in s.created - s.lost;
    }
  }

  /** So a cancelled session can always be brought to a calendar without its event, by cancelling once more if need be. */
  lemma CancelledCanBeCleanedUp(actions: seq<Action>) returns (more: seq<Action>)
    requires Run(INITIAL, actions).row.status == CANCELLED
    ensures var t := Run(INITIAL, actions + more); Drained(t) && t.row.status == CANCELLED && t.live <= t.lost
  {
    hide Run, Step, Drained, NeedsRemoval, OneEvent;
    var s := Run(INITIAL, actions);
    var t := CanDrain(s, true);
    var drain :| Run(s, drain) == t;
    RunConcat(INITIAL, actions, drain);
    RunKeepsFromStart(actions + drain);
    more := drain;
    if !(t.live <= t.lost) {
      var id :| id in t.live && id !in t.lost;
      OneKnownLive(t, id);
      var u := CancellingAgainRemoves(t, id);
      var again :| Run(t, again) == u;
      RunConcat(INITIAL, actions + drain, again);
      more := drain + again;
      assert actions + more == actions + drain + again;
    }
  }

  /** And when all its removal jobs give up, any orphan stays: their retries are what the cleanup depends on. */
  lemma OrphanCanStay(s: State, id: EventId) returns (t: State)
    requires Inv(s) && Orphan(s, id)
    ensures Reaches(s, t) && Drained(t) && Orphan(t, id)
  {
    t := CanDrain(s, false);
    var actions :| Run(s, actions) == t;
    RecordedMeansNoMoreCreated(s, actions);
  }

  /** Update jobs of a session that is not cancelled leave its event alone: a failed removal is retried and then dropped. */
  lemma {:induction false} CanDropUpdates(s: State) returns (t: State)
    requires Settled(s) && s.row.status != CANCELLED
    ensures Reaches(s, t) && Drained(t) && t.live == s.live && t.abandoned == s.abandoned && t.row.status == s.row.status
    decreases |s.updates|, s.updateQueued
  {
    var a := LoadForUpdate(0);
    if s.updates != map[] {
      var job :| job in s.updates;
      a := if s.updates[job].Deleting? then DeleteEvent(job, false, true) else MarkCancelled(job);
      MapShrinks(s.updates, job);
    } else if s.updateQueued == 0 {
      ReachesItself(s);
      return s;
    }
    ReachesItself(s);
    ReachesStep(s, s, a);
    t := CanDropUpdates(Step(s, a));
    ReachesThrough(s, Step(s, a), t);
  }

  /**
   * A late report over a cancelled session takes its removal away: everything can finish, no removal job gives up, and
   * the event stays although the session had been cancelled.
   */
  lemma LateReportKeepsEvent(s: State, id: EventId, request: nat) returns (t: State)
    requires Inv(s) && Orphan(s, id) && request in s.reports
    ensures Reaches(s, t) && Drained(t) && t.abandoned == s.abandoned
    ensures id in t.live && t.row.graphEventId == Some(id) && t.row.status == Reported(s.reports[request])
  {
    var cancelled := CanFinishCancelling(s);
    var written := Step(cancelled, WriteReport(request, true));
    ReachesStep(s, cancelled, WriteReport(request, true));
    var settled := CanFinishReports(written);
    ReachesThrough(s, written, settled);
    t := CanDropUpdates(settled);
    ReachesThrough(s, settled, t);
    var actions :| Run(s, actions) == t;
    RecordedMeansNoMoreCreated(s, actions);
  }

  /** All work done and no removal job having given up, the event is still there. */
  ghost predicate Outlives(s: State, t: State, id: EventId) {
    Reaches(s, t) && Drained(t) && t.abandoned == s.abandoned && id in t.live
  }

  lemma NothingOutlives(s: State, t: State, id: EventId)
    requires Inv(s) && Orphan(s, id) && id !in s.abandoned && s.reports == map[]
    ensures !Outlives(s, t, id)
  {
    if Reaches(s, t) {
      var actions :| Run(s, actions) == t;
      RunKeeps(s, actions);
      RecordedMeansNoMoreCreated(s, actions);
      RunStaysCancelled(s, actions);
      assert id in t.live ==> Orphan(t, id);
    }
  }

  /** The event of a cancelled session can outlive all work exactly when a report is still under way. */
  lemma EventOutlivesExactly(s: State, id: EventId)
    requires Inv(s) && Orphan(s, id) && id !in s.abandoned
    ensures (exists t :: Outlives(s, t, id)) <==> s.reports != map[]
  {
    if s.reports == map[] {
      forall t ensures !Outlives(s, t, id) {
        NothingOutlives(s, t, id);
      }
    }
    if request :| request in s.reports {
      var t := LateReportKeepsEvent(s, id, request);
      assert Outlives(s, t, id);
    }
  }

  lemma RunKeepsFromStart(actions: seq<Action>)
    ensures Inv(Run(INITIAL, actions))
  {
    RunKeeps(INITIAL, actions);
  }

  // ----- draining without giving up

  function Removals(s: State): set<nat> {
    set job | job in s.updates && s.updates[job].Deleting?
  }

  /** Removal jobs queued or running, less the one that the event still there can satisfy. */
  function Excess(s: State): int {
    s.updateQueued + |Removals(s)| - if s.row.graphEventId.Some? && s.row.graphEventId.value in s.live then 1 else 0
  }

  lemma RemovalsChange(s: State, t: State, job: nat)
    requires forall other :: other != job ==> (other in s.updates <==> other in t.updates)
    requires forall other :: other != job && other in s.updates ==> s.updates[other] == t.updates[other]
    ensures |Removals(t)| == |Removals(s)| + (if job in Removals(t) then 1 else 0) - (if job in Removals(s) then 1 else 0)
  {
    SameOtherRemovals(s, t, job);
    hide Removals;
    SizeWithout(Removals(t), job);
    SizeWithout(Removals(s), job);
  }

  lemma SameOtherRemovals(s: State, t: State, job: nat)
    requires forall other :: other != job ==> (other in s.updates <==> other in t.updates)
    requires forall other :: other != job && other in s.updates ==> s.updates[other] == t.updates[other]
    ensures Removals(t) - {job} == Removals(s) - {job}
  {
  }

  lemma SizeWithout(jobs: set<nat>, job: nat)
    ensures |jobs| == |jobs - {job}| + if job in jobs then 1 else 0
  {
    if job in jobs {
      assert jobs == (jobs - {job}) + {job};
    } else {
      assert jobs == jobs - {job};
    }
  }

  lemma ExcessNeverFalls(s: State, a: Action)
    requires Inv(s) && CancelledForGood(s) && s.row.graphEventId.Some? && !GivesUp(a)
    ensures Excess(s) <= Excess(Step(s, a)) && CancelledForGood(Step(s, a))
  {
    RecordedStays(s, a);
    StaysCancelled(s, a);
    var t := Step(s, a);
    if IsCreateAction(a) {
      CreateLeavesOthers(s, a);
      hide Step, Inv, Removals;
    } else if a.LoadForUpdate? || a.DeleteEvent? || a.MarkCancelled? {
      hide StepCreate, StepCancel, StepWorld, NoOrphan;
      RemovalsChange(s, t, a.job);
    } else {
      hide StepCreate, StepUpdate, Inv, NeedsRemoval;
      assert t.updates == s.updates && Removals(t) == Removals(s);
    }
  }

  lemma {:induction false} ExcessNeverFallsInRun(s: State, actions: seq<Action>)
    requires Inv(s) && CancelledForGood(s) && s.row.graphEventId.Some? && Count(actions, GivesUp) == 0
    ensures Excess(s) <= Excess(Run(s, actions)) && CancelledForGood(Run(s, actions))
  {
    if actions != [] {
      var front := actions[..|actions| - 1];
      ExcessNeverFallsInRun(s, front);
      RunKeeps(s, front);
      RecordedMeansNoMoreCreated(s, front);
      ExcessNeverFalls(Run(s, front), actions[|actions| - 1]);
    }
  }

  ghost predicate DrainsWithoutGivingUp(s: State) {
    exists actions :: Count(actions, GivesUp) == 0 && Drained(Run(s, actions))
  }

  lemma FaithfulStep(s: State, a: Action)
    requires !GivesUp(a) && DrainsWithoutGivingUp(Step(s, a))
    ensures DrainsWithoutGivingUp(s)
  {
    var rest :| Count(rest, GivesUp) == 0 && Drained(Run(Step(s, a), rest));
    assert Run(s, [a]) == Step(s, a) by {
      RunPush(s, [], a);
      assert [] + [a] == [a];
    }
    RunConcat(s, [a], rest);
    CountConcat([a], rest, GivesUp);
    assert [a][..0] == [];
    assert Count([a] + rest, GivesUp) == 0;
  }

  lemma {:induction false} CountConcat(first: seq<Action>, second: seq<Action>, p: Action -> bool)
    ensures Count(first + second, p) == Count(first, p) + Count(second, p)
  {
    if second == [] {
      assert first + second == first;
    } else {
      var n := |second| - 1;
      CountConcat(first, second[..n], p);
      assert (first + second)[..|first + second| - 1] == first + second[..n];
    }
  }

  /** Jobs that only have to mark the session do, one after another. */
  lemma {:induction false} MarkingDrains(s: State)
    requires Settled(s) && s.updateQueued == 0 && forall job :: job in s.updates ==> s.updates[job].Marking?
    ensures DrainsWithoutGivingUp(s)
    decreases |s.updates|
  {
    if job :| job in s.updates {
      MapShrinks(s.updates, job);
      MarkingDrains(Step(s, MarkCancelled(job)));
      FaithfulStep(s, MarkCancelled(job));
    } else {
      assert Run(s, []) == s && Count([], GivesUp) == 0;
      assert s.updates == map[];
    }
  }

  lemma DeletingDrains(s: State, job: nat)
    requires Inv(s) && Settled(s) && s.updateQueued == 0 && Removals(s) == {job}
    requires s.row.graphEventId.Some? && s.row.graphEventId.value in s.live
    ensures DrainsWithoutGivingUp(s)
  {
    assert job in Removals(s);
    var a := DeleteEvent(job, true, true);
    var t := Step(s, a);
    forall other | other in t.updates ensures t.updates[other].Marking? {
      assert other != job ==> other !in Removals(s);
    }
    MarkingDrains(t);
    FaithfulStep(s, a);
  }

  /** A job number not in use. */
  lemma UnusedJob(jobs: set<nat>) returns (job: nat)
    ensures job !in jobs
    decreases |jobs|
  {
    if jobs == {} {
      return 0;
    }
    var some :| some in jobs;
    var other := UnusedJobAbove(jobs, some);
    return other;
  }

  lemma UnusedJobAbove(jobs: set<nat>, from: nat) returns (job: nat)
    ensures job >= from && job !in jobs
    decreases |jobs|
  {
    if from !in jobs {
      return from;
    }
    SizeWithout(jobs, from);
    job := UnusedJobAbove(jobs - {from}, from + 1);
  }

  lemma QueuedDrains(s: State)
    requires Inv(s) && Settled(s) && s.updateQueued == 1 && Removals(s) == {}
    requires s.row.status == CANCELLED && s.row.graphEventId.Some? && s.row.graphEventId.value in s.live
    ensures DrainsWithoutGivingUp(s)
  {
    var job := UnusedJob(s.updates.Keys);
    var t := Step(s, LoadForUpdate(job));
    StepKeeps(s, LoadForUpdate(job));
    forall other | other in t.updates && t.updates[other].Deleting? ensures other == job {
      assert other != job ==> other !in Removals(s);
    }
    assert Removals(t) == {job};
    DeletingDrains(t, job);
    FaithfulStep(s, LoadForUpdate(job));
  }

  /**
   * A cancelled session with only update jobs left drains without any of them giving up exactly when at most one
   * removal is under way, and none when the event is already gone.
   */
  lemma DrainsWithoutGivingUpExactly(s: State)
    requires Inv(s) && Settled(s) && s.row.status == CANCELLED && s.row.graphEventId.Some?
    ensures DrainsWithoutGivingUp(s) <==>
      s.updateQueued + |Removals(s)| <= if s.row.graphEventId.value in s.live then 1 else 0
  {
    if DrainsWithoutGivingUp(s) {
      var actions :| Count(actions, GivesUp) == 0 && Drained(Run(s, actions));
      ExcessNeverFallsInRun(s, actions);
      assert Removals(Run(s, actions)) == {};
    }
    if s.updateQueued + |Removals(s)| == 0 {
      forall job | job in s.updates ensures s.updates[job].Marking? {
        assert job !in Removals(s);
      }
      MarkingDrains(s);
    } else if s.updateQueued + |Removals(s)| <= if s.row.graphEventId.value in s.live then 1 else 0 {
      if s.updateQueued == 0 {
        var job :| job in Removals(s);
        SizeWithout(Removals(s), job);
        assert Removals(s) == {job};
        DeletingDrains(s, job);
      } else {
        assert Removals(s) == {};
        QueuedDrains(s);
      }
    }
  }
}

/** The two job processors and the cancel request as they are written, with other work between their awaits. */
module MeetingJobs {
  import opened Wrappers
  import opened MeetingProtocol

  /** What a reply adds to the calendar. */
  function NewEvent(reply: Reply): set<EventId> {
    if reply.Created? || reply.CreatedWithoutJoinUrl? || reply.CreatedIdLost? then {reply.id} else {}
  }

  ghost predicate Foreign(actions: seq<Action>) {
    forall k :: 0 <= k < |actions| ==> !IsCreateAction(actions[k])
  }

  lemma {:induction false} ForeignLeavesCreateJob(s: State, actions: seq<Action>)
    requires Foreign(actions)
    ensures Run(s, actions).create == s.create && Run(s, actions).created == s.created
  {
    if actions != [] {
      ForeignLeavesCreateJob(s, actions[..|actions| - 1]);
    }
  }

  lemma RunNothing(s: State)
    ensures Run(s, []) == s
  {
  }

  lemma StepThenOthers(s: State, a: Action, others: seq<Action>, trace: seq<Action>, start: State)
    requires s == Run(start, trace)
    ensures Run(start, trace + [a] + others) == Run(Step(s, a), others)
  {
    RunPush(start, trace, a);
    RunConcat(start, trace + [a], others);
  }

  /** The awaits of a create job, in order: it stops early when the guards or the calendar leave it without an event. */
  ghost function CreateSchedule(s: State, reply: Reply, retried: bool, atLoad: seq<Action>, atCalendar: seq<Action>,
                                atRecord: seq<Action>): seq<Action> {
    var asked := [LoadForCreate] + atLoad + [Proceed(reply, retried)] + atCalendar;
    if Run(s, asked).create.Idle? then asked
    else asked + [RecordMeeting] + [RecordEventOnly(retried)] + atRecord + [QueueRemoval]
  }

  ghost predicate StillLive(s: State, actions: seq<Action>) {
    s.row.graphEventId.Some? && s.row.graphEventId.value in Run(s, actions).live
  }

  /** The awaits of an update job: it stops early when there is no event to delete. */
  ghost function UpdateSchedule(s: State, job: nat, ok: bool, retried: bool, atLoad: seq<Action>, atDelete: seq<Action>): seq<Action> {
    var loaded := [LoadForUpdate(job)] + atLoad;
    if job !in Run(s, loaded).updates then loaded else loaded + [DeleteEvent(job, ok, retried)] + atDelete + [MarkCancelled(job)]
  }

  /** The awaits of a cancel request: refused, or written, a removal queued if one is due, the create job taken off its queue. */
  ghost function CancelSchedule(s: State, request: nat, atRead: seq<Action>, atWrite: seq<Action>, atQueue: seq<Action>): seq<Action> {
    if Refuses(s.row.status) then []
    else
      var written := [LoadForCancel(request)] + atRead + [WriteCancelled(request)] + atWrite;
      var t := Run(s, written);
      if request in t.cancels && t.cancels[request].QueuesUpdate?
      then written + [QueueUpdate(request)] + atQueue + [RemoveCreateJob(request)]
      else written + [RemoveCreateJob(request)]
  }

  /** No report is under way when the session has become CANCELLED: from the start, or by this request's write. */
  ghost predicate CancelHolds(s: State, request: nat, atRead: seq<Action>) {
    if s.row.status == CANCELLED then s.reports == map[] else Run(s, [LoadForCancel(request)] + atRead).reports == map[]
  }

  // ----- each of them alone, with nothing in between

  ghost predicate Requeues(s: State, t: State, retried: bool)
    requires s.createQueued > 0
  {
    t == if retried then s else s.(createQueued := s.createQueued - 1)
  }

  ghost predicate Records(s: State, t: State, id: EventId)
    requires s.createQueued > 0
  {
    t == s.(createQueued := s.createQueued - 1,
            row := Session(INVITED, Some(id), true, s.row.meetingCancelled),
            live := t.live, created := t.created)
  }

  /** A create job: what it leaves for each answer of the calendar. */
  ghost predicate CreatesAlone(s: State, t: State, reply: Reply, retried: bool)
    requires s.createQueued > 0
  {
    if s.row.status == CANCELLED then
      t == s.(createQueued := s.createQueued - 1,
              updateQueued := if s.row.graphEventId.Some? && !s.row.meetingCancelled then s.updateQueued + 1 else s.updateQueued)
    else match s.row.graphEventId
      case Some(id) =>
        if s.row.hasJoinUrl || reply.NotConfigured? then t == s.(createQueued := s.createQueued - 1)
        else if reply.JoinUrl? then Records(s, t, id) && t.live == s.live && t.created == s.created
        else Requeues(s, t, retried)
      case None => CreatesFirst(s, t, reply, retried)
  }

  ghost predicate CreatesFirst(s: State, t: State, reply: Reply, retried: bool)
    requires s.createQueued > 0
  {
    match reply
    case NotConfigured => t == s.(createQueued := s.createQueued - 1)
    case Created(id) =>
      if id in s.created then Requeues(s, t, retried)
      else Records(s, t, id) && t.live == s.live + {id} && t.created == s.created + {id}
    case CreatedWithoutJoinUrl(id) =>
      if id in s.created then Requeues(s, t, retried)
      else Requeues(s.(row := s.row.(graphEventId := Some(id)), live := s.live + {id}, created := s.created + {id}), t, retried)
    case CreatedIdLost(id) =>
      if id in s.created then Requeues(s, t, retried)
      else Requeues(s.(live := s.live + {id}, created := s.created + {id}, lost := s.lost + {id}), t, retried)
    case _ => Requeues(s, t, retried)
  }

  lemma CreateAlone(s: State, reply: Reply, retried: bool)
    requires s.create.Idle? && s.createQueued > 0
    ensures CreatesAlone(s, Run(s, CreateSchedule(s, reply, retried, [], [], [])), reply, retried)
  {
    var loaded := s.(create := Loaded(s.row), createQueued := s.createQueued - 1);
    CreateSteps(s, reply, retried);
    LoadedIs(s);
    hide Run, CreateSchedule, NeedsRemoval;
    if s.row.status == CANCELLED || s.row.graphEventId.Some? {
      CreateAgain(s, loaded, reply, retried);
    } else {
      CreateFirst(s, loaded, reply, retried);
    }
  }

  lemma LoadedIs(s: State)
    requires s.create.Idle? && s.createQueued > 0
    ensures Step(s, LoadForCreate) == s.(create := Loaded(s.row), createQueued := s.createQueued - 1)
  {
  }

  /** The steps of a create job that runs alone. */
  ghost function CreateEnd(loaded: State, reply: Reply, retried: bool): State {
    var asked := Step(loaded, Proceed(reply, retried));
    if asked.create.Idle? then asked else Step(Step(Step(asked, RecordMeeting), RecordEventOnly(retried)), QueueRemoval)
  }

  lemma CreateSteps(s: State, reply: Reply, retried: bool)
    ensures Run(s, CreateSchedule(s, reply, retried, [], [], [])) == CreateEnd(Step(s, LoadForCreate), reply, retried)
  {
    hide Step;
    var asked := [LoadForCreate, Proceed(reply, retried)];
    TwoSteps(s, LoadForCreate, Proceed(reply, retried));
    assert [LoadForCreate] + [] + [Proceed(reply, retried)] + [] == asked;
    RunPush(s, asked, RecordMeeting);
    RunPush(s, asked + [RecordMeeting], RecordEventOnly(retried));
    RunPush(s, asked + [RecordMeeting] + [RecordEventOnly(retried)], QueueRemoval);
    assert asked + [RecordMeeting] + [RecordEventOnly(retried)] + [] == asked + [RecordMeeting] + [RecordEventOnly(retried)];
    hide Run;
  }

  lemma CreateAgain(s: State, loaded: State, reply: Reply, retried: bool)
    requires s.create.Idle? && s.createQueued > 0
    requires loaded == s.(create := Loaded(s.row), createQueued := s.createQueued - 1)
    requires s.row.status == CANCELLED || s.row.graphEventId.Some?
    ensures CreatesAlone(s, CreateEnd(loaded, reply, retried), reply, retried)
  {
    hide StepUpdate, StepCancel, StepWorld, AfterCreating, CreatesFirst;
  }

  lemma CreateFirst(s: State, loaded: State, reply: Reply, retried: bool)
    requires s.create.Idle? && s.createQueued > 0
    requires loaded == s.(create := Loaded(s.row), createQueued := s.createQueued - 1)
    requires s.row.status != CANCELLED && s.row.graphEventId.None?
    ensures CreatesAlone(s, CreateEnd(loaded, reply, retried), reply, retried)
  {
    hide StepUpdate, StepCancel, StepWorld;
  }

  lemma TwoSteps(s: State, a: Action, b: Action)
    ensures Run(s, [a, b]) == Step(Step(s, a), b) && Run(s, [a]) == Step(s, a)
  {
    hide Step;
    assert [a, b][..1] == [a] && [a][..0] == [];
    assert Run(s, []) == s;
  }

  /** An update job on its own. */
  ghost predicate UpdatesAlone(s: State, t: State, ok: bool, retried: bool)
    requires s.updateQueued > 0
  {
    if s.row.status != CANCELLED || s.row.graphEventId.None? then t == s.(updateQueued := s.updateQueued - 1)
    else
      var id := s.row.graphEventId.value;
      if ok && id in s.live then
        t == s.(updateQueued := s.updateQueued - 1, live := s.live - {id}, row := s.row.(meetingCancelled := true))
      else t == if retried then s else s.(updateQueued := s.updateQueued - 1, abandoned := s.abandoned + {id})
  }

  lemma UpdateAlone(s: State, job: nat, ok: bool, retried: bool)
    requires s.updateQueued > 0 && job !in s.updates
    ensures UpdatesAlone(s, Run(s, UpdateSchedule(s, job, ok, retried, [], [])), ok, retried)
  {
    UpdateSteps(s, job, ok, retried);
    hide Run, UpdateSchedule, StepCreate, StepCancel, StepWorld;
    if s.row.status == CANCELLED && s.row.graphEventId.Some? {
      assert s.updates[job := Deleting(s.row.graphEventId.value)] - {job} == s.updates;
      assert s.updates[job := Deleting(s.row.graphEventId.value)][job := Marking] - {job} == s.updates;
    }
  }

  lemma UpdateSteps(s: State, job: nat, ok: bool, retried: bool)
    ensures Run(s, UpdateSchedule(s, job, ok, retried, [], [])) ==
      var loaded := Step(s, LoadForUpdate(job));
      if job !in loaded.updates then loaded else Step(Step(loaded, DeleteEvent(job, ok, retried)), MarkCancelled(job))
  {
    hide Step;
    var deleted := [LoadForUpdate(job), DeleteEvent(job, ok, retried)];
    TwoSteps(s, LoadForUpdate(job), DeleteEvent(job, ok, retried));
    assert [LoadForUpdate(job)] + [] == [LoadForUpdate(job)];
    assert [LoadForUpdate(job)] + [DeleteEvent(job, ok, retried)] + [] == deleted;
    RunPush(s, deleted, MarkCancelled(job));
    hide Run;
  }

  /** A cancel request on its own. */
  ghost predicate CancelsAlone(s: State, t: State) {
    if s.row.status == COMPLETED || s.row.status == NO_SHOW then t == s
    else
      t == s.(row := s.row.(status := CANCELLED), createQueued := 0,
              updateQueued := if s.row.graphEventId.Some? && !s.row.meetingCancelled then s.updateQueued + 1 else s.updateQueued)
  }

  lemma CancelAlone(s: State, request: nat)
    requires request !in s.cancels
    ensures CancelsAlone(s, Run(s, CancelSchedule(s, request, [], [], [])))
  {
    CancelSteps(s, request);
    hide Run, CancelSchedule, StepCreate, StepUpdate, StepWorld;
    if !Refuses(s.row.status) {
      WrittenIs(s, request);
      assert s.cancels[request := QueuesUpdate][request := RemovesCreateJob] - {request} == s.cancels;
      assert s.cancels[request := RemovesCreateJob] - {request} == s.cancels;
    }
  }

  lemma WrittenIs(s: State, request: nat)
    requires request !in s.cancels && !Refuses(s.row.status)
    ensures Step(Step(s, LoadForCancel(request)), WriteCancelled(request))
      == s.(row := s.row.(status := CANCELLED),
            cancels := s.cancels[request := if NeedsRemoval(s.row) then QueuesUpdate else RemovesCreateJob])
  {
    hide StepCreate, StepUpdate, StepWorld;
  }

  lemma CancelSteps(s: State, request: nat)
    ensures Run(s, CancelSchedule(s, request, [], [], [])) ==
      var written := Step(Step(s, LoadForCancel(request)), WriteCancelled(request));
      if Refuses(s.row.status) then s
      else if request in written.cancels && written.cancels[request].QueuesUpdate? then
        Step(Step(written, QueueUpdate(request)), RemoveCreateJob(request))
      else Step(written, RemoveCreateJob(request))
  {
    hide Step, Refuses;
    RunNothing(s);
    TwoSteps(s, LoadForCancel(request), WriteCancelled(request));
    var written := [LoadForCancel(request), WriteCancelled(request)];
    assert [LoadForCancel(request)] + [] + [WriteCancelled(request)] + [] == written;
    RunPush(s, written, QueueUpdate(request));
    RunPush(s, written + [QueueUpdate(request)], RemoveCreateJob(request));
    RunPush(s, written, RemoveCreateJob(request));
    assert written + [QueueUpdate(request)] + [] == written + [QueueUpdate(request)];
    hide Run;
  }

  /** A cancel request that comes while the calendar creates the event: the job keeps CANCELLED and queues one removal. */
  lemma CancelDuringCreation(s: State, request: nat, id: EventId, retried: bool)
    requires s.create.Idle? && s.createQueued > 0 && request !in s.cancels && id !in s.created && s.row.graphEventId.None?
    requires s.row.status == SCHEDULED || s.row.status == INVITED || s.row.status == IN_PROGRESS
    ensures var cancelling := [LoadForCancel(request), WriteCancelled(request), RemoveCreateJob(request)];
      var t := Run(s, CreateSchedule(s, Created(id), retried, [], cancelling, []));
      t == s.(row := Session(CANCELLED, Some(id), true, s.row.meetingCancelled), live := s.live + {id}, created := s.created + {id},
              createQueued := 0, updateQueued := s.updateQueued + 1)
  {
    var cancelling := [LoadForCancel(request), WriteCancelled(request), RemoveCreateJob(request)];
    var loaded := s.(create := Loaded(s.row), createQueued := s.createQueued - 1);
    var asked := loaded.(create := HasMeeting(id), live := s.live + {id}, created := s.created + {id});
    var cancelled := asked.(row := s.row.(status := CANCELLED), createQueued := 0);
    LoadedIs(s);
    AskedIs(loaded, id, retried);
    CancelledMeanwhile(asked, request);
    RecordedAfterCancel(cancelled, id, retried);
    hide Run, Step, CreateSchedule;
    CreateRun(s, Created(id), retried, cancelling);
  }

  /** The steps of a create job with others only while it waits for the calendar. */
  lemma CreateRun(s: State, reply: Reply, retried: bool, others: seq<Action>)
    requires !Run(Step(Step(s, LoadForCreate), Proceed(reply, retried)), others).create.Idle?
    ensures Run(s, CreateSchedule(s, reply, retried, [], others, []))
      == Step(Step(Step(Run(Step(Step(s, LoadForCreate), Proceed(reply, retried)), others), RecordMeeting), RecordEventOnly(retried)),
              QueueRemoval)
  {
    hide Step;
    ForeignRun(s, [LoadForCreate], Proceed(reply, retried), others);
    TwoSteps(s, LoadForCreate, Proceed(reply, retried));
    assert [LoadForCreate] + [] == [LoadForCreate];
    var trace := [LoadForCreate] + [Proceed(reply, retried)] + others;
    RunPush(s, trace, RecordMeeting);
    RunPush(s, trace + [RecordMeeting], RecordEventOnly(retried));
    RunPush(s, trace + [RecordMeeting] + [RecordEventOnly(retried)], QueueRemoval);
    assert trace + [RecordMeeting] + [RecordEventOnly(retried)] + [] == trace + [RecordMeeting] + [RecordEventOnly(retried)];
    hide Run;
  }

  lemma RecordedAfterCancel(s: State, id: EventId, retried: bool)
    requires s.create == HasMeeting(id) && s.row.status == CANCELLED
    ensures Step(Step(Step(s, RecordMeeting), RecordEventOnly(retried)), QueueRemoval)
      == s.(row := s.row.(graphEventId := Some(id), hasJoinUrl := true), create := Idle, updateQueued := s.updateQueued + 1)
  {
    hide AfterLoad, StepUpdate, StepCancel, StepWorld;
  }

  lemma AskedIs(loaded: State, id: EventId, retried: bool)
    requires loaded.create.Loaded? && loaded.create.session.graphEventId.None? && loaded.create.session.status != CANCELLED
    requires id !in loaded.created
    ensures Step(loaded, Proceed(Created(id), retried))
      == loaded.(create := HasMeeting(id), live := loaded.live + {id}, created := loaded.created + {id})
  {
    hide StepUpdate, StepCancel, StepWorld;
  }

  lemma CancelledMeanwhile(s: State, request: nat)
    requires request !in s.cancels && !Refuses(s.row.status) && s.row.status != CANCELLED && s.row.graphEventId.None?
    ensures Run(s, [LoadForCancel(request), WriteCancelled(request), RemoveCreateJob(request)])
      == s.(row := s.row.(status := CANCELLED), createQueued := 0)
  {
    TwoSteps(s, LoadForCancel(request), WriteCancelled(request));
    RunPush(s, [LoadForCancel(request), WriteCancelled(request)], RemoveCreateJob(request));
    assert [LoadForCancel(request), WriteCancelled(request)] + [RemoveCreateJob(request)]
      == [LoadForCancel(request), WriteCancelled(request), RemoveCreateJob(request)];
    WrittenIs(s, request);
    hide Run, StepCreate, StepUpdate, StepWorld;
    assert s.cancels[request := RemovesCreateJob] - {request} == s.cancels;
  }

  lemma ForeignRun(s: State, before: seq<Action>, a: Action, others: seq<Action>)
    ensures Run(s, before + [a] + others) == Run(Step(Run(s, before), a), others)
  {
    RunPush(s, before, a);
    RunConcat(s, before + [a], others);
  }

  /** Where a session starts, and what others do to it: an event is deleted outside, a plan confirmed, a session moved. */
  lemma OthersDo(s: State, id: EventId)
    ensures Step(s, DeletedInOutlook(id)).live == s.live - {id}
    ensures Step(s, Confirmed).createQueued == s.createQueued + 1 && Step(s, Rescheduled).updateQueued == s.updateQueued + 1
    ensures INITIAL.created == INITIAL.live == {} && INITIAL.createQueued == INITIAL.updateQueued == 0 && Settled(INITIAL)
    ensures INITIAL.row == Session(SCHEDULED, None, false, false)
  {
  }

  /** A report on its own: a session that has not started can be started, and one that is not over completed. */
  ghost predicate ReportsAlone(s: State, t: State, report: Report, ok: bool) {
    match report
    case Starts =>
      t == if (s.row.status == SCHEDULED || s.row.status == INVITED) && ok then s.(row := s.row.(status := IN_PROGRESS)) else s
    case Completes =>
      t == if (s.row.status != COMPLETED && s.row.status != NO_SHOW && s.row.status != CANCELLED) && ok
           then s.(row := s.row.(status := COMPLETED)) else s
  }

  lemma ReportAlone(s: State, request: nat, report: Report, ok: bool)
    requires request !in s.reports
    ensures ReportsAlone(s, Run(s, [LoadForReport(request, report), WriteReport(request, ok)]), report, ok)
  {
    TwoSteps(s, LoadForReport(request, report), WriteReport(request, ok));
    assert s.reports[request := report] - {request} == s.reports;
  }

  class World {
    var s: State

    constructor ()
      ensures s == INITIAL
    {
      s := INITIAL;
    }

    /** Whatever else runs while this code awaits. */
    method Await(others: seq<Action>)
      modifies this
      ensures s == Run(old(s), others)
    {
      for k := 0 to |others|
        invariant s == Run(old(s), others[..k])
      {
        RunPush(old(s), others[..k], others[k]);
        assert others[..k + 1] == others[..k] + [others[k]];
        s := Step(s, others[k]);
      }
      assert others[..|others|] == others;
    }

    /** One step of this code, then an await: the run so far grows by the step and by the others' work. */
    method AwaitAfter(ghost start: State, ghost trace: seq<Action>, ghost before: State, ghost a: Action, others: seq<Action>)
      returns (ghost trace': seq<Action>)
      requires before == Run(start, trace) && s == Step(before, a)
      modifies this
      ensures trace' == trace + [a] + others
      ensures s == Run(old(s), others) && s == Run(start, trace')
    {
      StepThenOthers(before, a, others, trace, start);
      Await(others);
      trace' := trace + [a] + others;
    }

    /** From the loaded row to the calendar's answer: the guards, then create or re-read. */
    method AskForMeeting(session: Session, reply: Reply, retried: bool) returns (meeting: Option<EventId>, hasJoinUrl: bool)
      requires s.create == Loaded(session)
      modifies this
      ensures s == Step(old(s), Proceed(reply, retried))
      ensures match meeting
        case Some(id) => s.create == if hasJoinUrl then HasMeeting(id) else LacksJoinUrl(id)
        case None => s.create.Idle?
      ensures s.created <= old(s.created) + NewEvent(reply)
      ensures session.status == CANCELLED || session.graphEventId.Some? ==> s.created == old(s.created)
    {
      meeting, hasJoinUrl := None, false;
      if session.status == CANCELLED {
        if session.graphEventId.Some? && !session.meetingCancelled {
          s := s.(updateQueued := s.updateQueued + 1);
        }
        s := s.(create := Idle);
        return;
      }
      if (session.graphEventId.Some? && session.hasJoinUrl) || reply.NotConfigured? {
        s := s.(create := Idle);
        return;
      }
      if session.graphEventId.Some? {
        if !reply.JoinUrl? {
          s := Throw(s, retried);
          return;
        }
        meeting, hasJoinUrl := session.graphEventId, true;
        s := s.(create := HasMeeting(meeting.value));
      } else if (reply.Created? || reply.CreatedWithoutJoinUrl?) && reply.id !in s.created {
        meeting, hasJoinUrl := Some(reply.id), reply.Created?;
        s := s.(live := s.live + {reply.id}, created := s.created + {reply.id},
                create := if hasJoinUrl then HasMeeting(reply.id) else LacksJoinUrl(reply.id));
      } else if reply.CreatedIdLost? && reply.id !in s.created {
        s := s.(live := s.live + {reply.id}, created := s.created + {reply.id}, lost := s.lost + {reply.id});
        s := Throw(s, retried);
      } else {
        s := Throw(s, retried);
      }
    }

    /** `recordMeetingCreated` or `recordGraphEventOnly`; `lost` when cancellation won the race. */
    method Record(meeting: EventId, hasJoinUrl: bool, retried: bool) returns (lost: bool)
      requires s.create == if hasJoinUrl then HasMeeting(meeting) else LacksJoinUrl(meeting)
      modifies this
      ensures s == Step(old(s), if hasJoinUrl then RecordMeeting else RecordEventOnly(retried))
      ensures lost <==> old(s.row.status) == CANCELLED
      ensures if lost then s.create.QueuesRemoval? else s.create.Idle?
      ensures s.created == old(s.created)
    {
      lost := s.row.status == CANCELLED;
      s := s.(row := s.row.(graphEventId := Some(meeting)));
      if hasJoinUrl {
        s := s.(row := s.row.(hasJoinUrl := true, status := if lost then CANCELLED else INVITED));
      }
      if lost {
        s := s.(create := QueuesRemoval);
      } else if hasJoinUrl {
        s := s.(create := Idle);
      } else {
        s := Throw(s, retried);
      }
    }

    /** The recording step and what is interleaved after it; the other kind of recording is no step at all. */
    method RecordAndAwait(ghost start: State, ghost asked: seq<Action>, meeting: EventId, hasJoinUrl: bool, retried: bool,
                          atRecord: seq<Action>)
      returns (lost: bool)
      requires s == Run(start, asked) && s.create == if hasJoinUrl then HasMeeting(meeting) else LacksJoinUrl(meeting)
      requires Foreign(atRecord)
      modifies this
      ensures s == Run(start, asked + [RecordMeeting] + [RecordEventOnly(retried)] + atRecord)
      ensures if lost then s.create.QueuesRemoval? else s.create.Idle?
      ensures s.created == old(s.created)
    {
      hide Run, Foreign, StepUpdate, StepCancel, StepWorld;
      RunPush(start, asked, RecordMeeting);
      RunPush(start, asked + [RecordMeeting], RecordEventOnly(retried));
      lost := Record(meeting, hasJoinUrl, retried);
      ForeignLeavesCreateJob(s, atRecord);
      RunConcat(start, asked + [RecordMeeting] + [RecordEventOnly(retried)], atRecord);
      Await(atRecord);
    }

    /**
     * `processCreateMeetingJob`: every execution, whatever is interleaved at its awaits, is the run of its
     * schedule, ends with the job over, and creates at most the replied event, none when one is recorded.
     */
    method ProcessCreateMeetingJob(reply: Reply, retried: bool, atLoad: seq<Action>, atCalendar: seq<Action>, atRecord: seq<Action>)
      requires s.create.Idle? && s.createQueued > 0
      requires Foreign(atLoad) && Foreign(atCalendar) && Foreign(atRecord)
      modifies this
      ensures s == Run(old(s), CreateSchedule(old(s), reply, retried, atLoad, atCalendar, atRecord)) && s.create.Idle?
      ensures s.created <= old(s.created) + NewEvent(reply)
      ensures old(s.row.status == CANCELLED || s.row.graphEventId.Some?) ==> s.created == old(s.created)
    {
      hide Run, NeedsRemoval, AfterLoad, StepUpdate, StepCancel, StepWorld;
      ghost var start := s;
      RunNothing(start);
      var session := s.row;
      s := s.(createQueued := s.createQueued - 1, create := Loaded(session));
      ForeignLeavesCreateJob(s, atLoad);
      ghost var loaded := AwaitAfter(start, [], start, LoadForCreate, atLoad);

      ghost var before := s;
      var meeting, hasJoinUrl := AskForMeeting(session, reply, retried);
      ForeignLeavesCreateJob(s, atCalendar);
      ghost var asked := AwaitAfter(start, loaded, before, Proceed(reply, retried), atCalendar);
      assert asked == [LoadForCreate] + atLoad + [Proceed(reply, retried)] + atCalendar;
      if meeting.None? {
        return;
      }

      var lost := RecordAndAwait(start, asked, meeting.value, hasJoinUrl, retried, atRecord);
      RunPush(start, asked + [RecordMeeting] + [RecordEventOnly(retried)] + atRecord, QueueRemoval);
      if lost {
        s := s.(create := Idle, updateQueued := s.updateQueued + 1);
      }
    }

    /**
     * `processMeetingUpdateJob` on a CANCELLED session. The deletion throws if the calendar fails, `ok` or not if the
     * event is gone; then the job goes back to its queue while it has retries.
     */
    method ProcessMeetingUpdateJob(job: nat, ok: bool, retried: bool, atLoad: seq<Action>, atDelete: seq<Action>)
      requires s.updateQueued > 0 && job !in s.updates && s.row.status == CANCELLED
      requires NotJob(atLoad, job) && NotJob(atDelete, job)
      modifies this
      ensures s == Run(old(s), UpdateSchedule(old(s), job, ok, retried, atLoad, atDelete)) && job !in s.updates
      ensures ok && StillLive(old(s), [LoadForUpdate(job)] + atLoad) ==> s.row.meetingCancelled
    {
      hide Run, StepCreate, StepCancel, StepWorld, NotJob;
      ghost var start := s;
      RunNothing(start);
      var event := s.row.graphEventId;
      s := s.(updateQueued := s.updateQueued - 1);
      if event.Some? {
        s := s.(updates := s.updates[job := Deleting(event.value)]);
      }
      OthersLeaveJob(s, atLoad, job);
      ghost var loaded := AwaitAfter(start, [], start, LoadForUpdate(job), atLoad);
      assert loaded == [LoadForUpdate(job)] + atLoad;
      if event.None? {
        return;
      }

      ghost var before := s;
      var deleted := ok && event.value in s.live;
      if deleted {
        s := s.(live := s.live - {event.value}, updates := s.updates[job := Marking]);
      } else {
        s := s.(updates := s.updates - {job});
        s := if retried then s.(updateQueued := s.updateQueued + 1) else s.(abandoned := s.abandoned + {event.value});
      }
      OthersLeaveJob(s, atDelete, job);
      ghost var trace := AwaitAfter(start, loaded, before, DeleteEvent(job, ok, retried), atDelete);
      RunPush(start, trace, MarkCancelled(job));
      if deleted {
        s := s.(row := s.row.(meetingCancelled := true), updates := s.updates - {job});
      }
    }

    /** The status write of a cancel, and whether a recorded event is still to be removed. */
    method WriteStatus(request: nat, session: Session) returns (removal: bool)
      requires request in s.cancels && s.cancels[request] == Read(session)
      modifies this
      ensures s == Step(old(s), WriteCancelled(request))
      ensures s.row == if session.status == CANCELLED then old(s.row) else old(s.row).(status := CANCELLED)
      ensures removal <==> if session.status == CANCELLED
        then session.graphEventId.Some? && !session.meetingCancelled
        else old(s.row.graphEventId.Some? && !s.row.meetingCancelled)
      ensures old(CancelledForGood(s)) ==> CancelledForGood(s)
      ensures s.reports == old(s).reports && s.cancels.Keys == old(s.cancels).Keys && s.cancels[request] == if removal then QueuesUpdate else RemovesCreateJob
    {
      var cancelled := session;
      if session.status != CANCELLED {
        s := s.(row := s.row.(status := CANCELLED));
        cancelled := s.row;
      }
      removal := cancelled.graphEventId.Some? && !cancelled.meetingCancelled;
      s := s.(cancels := s.cancels[request := if removal then QueuesUpdate else RemovesCreateJob]);
    }

    method EnqueueUpdate(ghost start: State, ghost trace: seq<Action>, request: nat, others: seq<Action>)
      returns (ghost trace': seq<Action>)
      requires s == Run(start, trace) && request in s.cancels && s.cancels[request].QueuesUpdate?
      requires NotRequest(others, request)
      modifies this
      ensures trace' == trace + [QueueUpdate(request)] + others
      ensures s == Run(start, trace') && request in s.cancels && s.cancels[request].RemovesCreateJob?
      ensures old(CancelledForGood(s)) ==> CancelledForGood(s)
    {
      ghost var before := s;
      s := s.(updateQueued := s.updateQueued + 1, cancels := s.cancels[request := RemovesCreateJob]);
      OthersLeaveRequest(s, others, request);
      trace' := AwaitAfter(start, trace, before, QueueUpdate(request), others);
    }

    /** `SessionService.cancel`: the answer depends on the updated row, or on the first read if already cancelled. */
    method Cancel(request: nat, atRead: seq<Action>, atWrite: seq<Action>, atQueue: seq<Action>) returns (refused: bool)
      requires request !in s.cancels
      requires NotRequest(atRead, request) && NotRequest(atWrite, request) && NotRequest(atQueue, request)
      modifies this
      ensures refused <==> old(s.row.status == COMPLETED || s.row.status == NO_SHOW)
      ensures s == Run(old(s), CancelSchedule(old(s), request, atRead, atWrite, atQueue)) && request !in s.cancels
      ensures !refused && CancelHolds(old(s), request, atRead) ==> CancelledForGood(s)
    {
      hide Run, StepCreate, StepUpdate, StepWorld, NotRequest;
      ghost var start := s;
      RunNothing(start);
      refused := Refuses(s.row.status);
      if refused {
        return;
      }
      var session := s.row;
      s := s.(cancels := s.cancels[request := Read(session)]);
      OthersLeaveRequest(s, atRead, request);
      ghost var read := AwaitAfter(start, [], start, LoadForCancel(request), atRead);
      assert read == [LoadForCancel(request)] + atRead;

      ghost var before := s;
      var removal := WriteStatus(request, session);
      OthersLeaveRequest(s, atWrite, request);
      ghost var trace := AwaitAfter(start, read, before, WriteCancelled(request), atWrite);
      assert trace == [LoadForCancel(request)] + atRead + [WriteCancelled(request)] + atWrite;

      if removal {
        trace := EnqueueUpdate(start, trace, request, atQueue);
      }
      TakeCreateJobOffQueue(start, trace, request);
    }

    method TakeCreateJobOffQueue(ghost start: State, ghost trace: seq<Action>, request: nat)
      requires s == Run(start, trace) && request in s.cancels && s.cancels[request].RemovesCreateJob?
      modifies this
      ensures s == Run(start, trace + [RemoveCreateJob(request)]) && request !in s.cancels
      ensures s.row == old(s.row) && s.reports == old(s.reports)
    {
      RunPush(start, trace, RemoveCreateJob(request));
      s := s.(createQueued := 0, cancels := s.cancels - {request});
    }
  }

  ghost predicate NotJob(actions: seq<Action>, job: nat) {
    forall k :: 0 <= k < |actions| ==> !IsJobAction(actions[k], job)
  }

  predicate IsJobAction(a: Action, job: nat) {
    a == LoadForUpdate(job) || a == MarkCancelled(job) || (a.DeleteEvent? && a.job == job)
  }

  lemma OtherLeavesJob(s: State, a: Action, job: nat)
    requires !IsJobAction(a, job)
    ensures var t := Step(s, a);
      (job in t.updates <==> job in s.updates) && (job in s.updates ==> t.updates[job] == s.updates[job])
  {
    hide NeedsRemoval, Refuses, AfterLoad;
    if IsCreateAction(a) {
      CreateLeavesOthers(s, a);
    }
  }

  lemma {:induction false} OthersLeaveJob(s: State, actions: seq<Action>, job: nat)
    requires NotJob(actions, job)
    ensures var t := Run(s, actions);
      (job in t.updates <==> job in s.updates) && (job in s.updates ==> t.updates[job] == s.updates[job])
  {
    hide Step;
    if actions != [] {
      var n := |actions| - 1;
      OthersLeaveJob(s, actions[..n], job);
      OtherLeavesJob(Run(s, actions[..n]), actions[n], job);
    }
  }

  predicate IsRequestAction(a: Action, request: nat) {
    a == LoadForCancel(request) || a == WriteCancelled(request) || a == QueueUpdate(request) || a == RemoveCreateJob(request)
  }

  ghost predicate NotRequest(actions: seq<Action>, request: nat) {
    forall k :: 0 <= k < |actions| ==> !IsRequestAction(actions[k], request)
  }

  ghost predicate RequestKept(s: State, t: State, request: nat) {
    && (request in t.cancels <==> request in s.cancels)
    && (request in s.cancels ==> t.cancels[request] == s.cancels[request])
    && (CancelledForGood(s) ==> CancelledForGood(t))
  }

  lemma OtherLeavesRequest(s: State, a: Action, request: nat)
    requires !IsRequestAction(a, request)
    ensures RequestKept(s, Step(s, a), request)
  {
    if CancelledForGood(s) {
      StaysCancelled(s, a);
    }
    hide NeedsRemoval, Refuses, AfterLoad, CancelledForGood;
    if IsCreateAction(a) {
      CreateLeavesOthers(s, a);
    }
  }

  /** Other work neither touches this request nor revives a session cancelled for good. */
  lemma {:induction false} OthersLeaveRequest(s: State, actions: seq<Action>, request: nat)
    requires NotRequest(actions, request)
    ensures RequestKept(s, Run(s, actions), request)
  {
    hide Step;
    if actions != [] {
      var n := |actions| - 1;
      OthersLeaveRequest(s, actions[..n], request);
      OtherLeavesRequest(Run(s, actions[..n]), actions[n], request);
    }
  }
}

/** `RealGraphService.createMeeting`: one POST, then up to three polls of the same event for its join link. */
module GraphEvents {
  import opened Wrappers

  /** A request that fails throws; otherwise the event carries a join link or not yet. */
  type Answer = Result<Option<string>, ()>

  datatype CreateOutcome =
    | Meeting(id: nat, joinUrl: string)
    | WithoutJoinUrl(id: nat)
    | RequestFailed

  const MAX_POLLS := 3

  predicate HasLink(a: Answer) {
    a.Ok? && a.value.Some? && a.value.value != ""
  }

  /** The answers in the order they are asked for: the POST's, then the polls'. */
  ghost predicate FirstLinkAt(answers: seq<Answer>, k: nat) {
    k < |answers| && HasLink(answers[k]) && forall i :: 0 <= i < k ==> answers[i].Ok? && !HasLink(answers[i])
  }

  class Calendar {
    var events: set<nat>

    constructor ()
      ensures events == {}
    {
      events := {};
    }

    /** At most one event appears; the outcome names it unless a request failed, and no fourth poll is made. */
    method CreateMeeting(id: nat, answers: seq<Answer>) returns (outcome: CreateOutcome)
      requires |answers| == 4 && id !in events
      modifies this
      ensures events == old(events) + if answers[0].Ok? then {id} else {}
      ensures outcome.Meeting? <==> exists k: nat :: FirstLinkAt(answers, k)
      ensures outcome.Meeting? ==>
        outcome.id == id && exists k: nat :: FirstLinkAt(answers, k) && answers[k] == Ok(Some(outcome.joinUrl))
      ensures outcome.WithoutJoinUrl? <==> forall k :: 0 <= k < 4 ==> answers[k].Ok? && !HasLink(answers[k])
      ensures outcome.WithoutJoinUrl? ==> outcome.id == id
    {
      if answers[0].Err? {
        return RequestFailed;
      }
      events := events + {id};
      var joinUrl := answers[0].value;
      var attempt := 0;
      while (joinUrl.None? || joinUrl.value == "") && attempt < MAX_POLLS
        invariant 0 <= attempt <= MAX_POLLS
        invariant answers[attempt] == Ok(joinUrl)
        invariant forall i :: 0 <= i < attempt ==> answers[i].Ok? && !HasLink(answers[i])
      {
        attempt := attempt + 1;
        if answers[attempt].Err? {
          return RequestFailed;
        }
        joinUrl := answers[attempt].value;
      }
      if joinUrl.None? || joinUrl.value == "" {
        return WithoutJoinUrl(id);
      }
      assert FirstLinkAt(answers, attempt);
      return Meeting(id, joinUrl.value);
    }
  }
}
