/** The nightly sweep for blobs without an owning row, racing with uploads. */
module BlobSweep {
  import opened Wrappers
  import opened Seqs

  /** `ORPHANED_BLOB_RETENTION_HOURS`, in milliseconds. */
  const RETENTION := 24 * 60 * 60 * 1000
  const ORGANIZATION_CAP := 100_000
  const KEY_CAP := 1_000_000

  datatype Blob = Blob(key: string, createdAt: int)

  datatype Report = Report(organizationId: string, blobKey: Option<string>)

  /** The database and the container at one moment. `planMedia` holds the keys of the `PlanContentMedia` rows. */
  datatype Snapshot = Snapshot(now: int, organizationIds: seq<string>, media: seq<string>, reports: seq<Report>,
                               transcripts: seq<Option<string>>, planMedia: seq<string>, blobs: seq<Blob>)

  /** What everybody else does while a sweep runs: one snapshot after another. */
  type History = seq<Snapshot>

  /** Which snapshot each read of one sweep saw; `reports` has one entry per organization. */
  datatype Reads = Reads(ids: nat, reports: seq<nat>, media: nat, list: nat, transcripts: nat, cutoff: nat)

  // ----- what one read returns

  function Capped<T>(s: seq<T>, cap: nat): seq<T> {
    if |s| <= cap then s else s[..cap]
  }

  function OrganizationIds(s: Snapshot): seq<string> {
    Capped(s.organizationIds, ORGANIZATION_CAP)
  }

  function KeysOf(reports: seq<Report>, org: string): seq<string> {
    if reports == [] then []
    else
      (if reports[0].organizationId == org && reports[0].blobKey.Some? then [reports[0].blobKey.value] else [])
      + KeysOf(reports[1..], org)
  }

  function ReportKeys(s: Snapshot, org: string): seq<string> {
    Capped(KeysOf(s.reports, org), KEY_CAP)
  }

  function MediaKeys(s: Snapshot): seq<string> {
    Capped(s.media, KEY_CAP)
  }

  function TextsOf(transcripts: seq<Option<string>>): seq<string> {
    if transcripts == [] then []
    else (if transcripts[0].Some? then [transcripts[0].value] else []) + TextsOf(transcripts[1..])
  }

  function TranscriptKeys(s: Snapshot): seq<string> {
    Capped(TextsOf(s.transcripts), KEY_CAP)
  }

  lemma {:induction false} KeysOfMembers(reports: seq<Report>, org: string, key: string)
    ensures key in KeysOf(reports, org) <==> Report(org, Some(key)) in reports
  {
    if reports != [] {
      KeysOfMembers(reports[1..], org, key);
      assert reports == [reports[0]] + reports[1..];
    }
  }

  lemma {:induction false} TextsOfMembers(transcripts: seq<Option<string>>, key: string)
    ensures key in TextsOf(transcripts) <==> Some(key) in transcripts
  {
    if transcripts != [] {
      TextsOfMembers(transcripts[1..], key);
      assert transcripts == [transcripts[0]] + transcripts[1..];
    }
  }

  // ----- one sweep

  /** Organization ids first, then each organization's reports, then three reads side by side, then the clock. */
  ghost predicate InOrder(h: History, t: Reads) {
    && t.ids < |h|
    && |t.reports| == |OrganizationIds(h[t.ids])|
    && (forall i :: 0 <= i < |t.reports| ==> t.ids <= t.reports[i])
    && (forall i, j :: 0 <= i < j < |t.reports| ==> t.reports[i] <= t.reports[j])
    && (forall i :: 0 <= i < |t.reports| ==> t.reports[i] <= t.media && t.reports[i] <= t.list && t.reports[i] <= t.transcripts)
    && t.ids <= t.media <= t.cutoff && t.ids <= t.list <= t.cutoff && t.ids <= t.transcripts <= t.cutoff < |h|
  }

  /** The report keys read for the first `|reports|` organizations. */
  function CollectedKeys(h: History, ids: seq<string>, reports: seq<nat>): seq<string>
    requires |reports| <= |ids|
    requires forall i :: 0 <= i < |reports| ==> reports[i] < |h|
  {
    if reports == [] then []
    else
      var n := |reports| - 1;
      CollectedKeys(h, ids, reports[..n]) + ReportKeys(h[reports[n]], ids[n])
  }

  function KnownKeys(h: History, t: Reads): set<string>
    requires InOrder(h, t)
  {
    SetOf(MediaKeys(h[t.media]) + CollectedKeys(h, OrganizationIds(h[t.ids]), t.reports) + TranscriptKeys(h[t.transcripts]))
  }

  predicate Stale(blob: Blob, known: set<string>, cutoff: int) {
    blob.key !in known && blob.createdAt <= cutoff
  }

  function StaleKeys(blobs: seq<Blob>, known: set<string>, cutoff: int): seq<string> {
    if blobs == [] then []
    else
      var n := |blobs| - 1;
      StaleKeys(blobs[..n], known, cutoff) + if Stale(blobs[n], known, cutoff) then [blobs[n].key] else []
  }

  /** The keys a sweep asks the storage to delete. */
  function Swept(h: History, t: Reads): seq<string>
    requires InOrder(h, t)
  {
    StaleKeys(h[t.list].blobs, KnownKeys(h, t), h[t.cutoff].now - RETENTION)
  }

  lemma CollectedPush(h: History, ids: seq<string>, reports: seq<nat>, at: nat)
    requires |reports| < |ids| && at < |h|
    requires forall i :: 0 <= i < |reports| ==> reports[i] < |h|
    ensures CollectedKeys(h, ids, reports + [at]) == CollectedKeys(h, ids, reports) + ReportKeys(h[at], ids[|reports|])
  {
    assert (reports + [at])[..|reports|] == reports;
  }

  lemma StalePush(blobs: seq<Blob>, k: nat, known: set<string>, cutoff: int)
    requires k < |blobs|
    ensures StaleKeys(blobs[..k + 1], known, cutoff)
      == StaleKeys(blobs[..k], known, cutoff) + if Stale(blobs[k], known, cutoff) then [blobs[k].key] else []
  {
    TakeMore(blobs, k);
    assert blobs[..k + 1][..k] == blobs[..k];
  }

  /** A worker: it sees the history only by reading it, each time at the same moment or a later one. */
  class Worker {
    const history: History
    var position: nat
    var deletions: seq<string>

    constructor (history: History)
      requires history != []
      ensures this.history == history && position == 0 && deletions == []
    {
      this.history := history;
      position := 0;
      deletions := [];
    }

    method Await(from: nat) returns (at: nat)
      requires from < |history|
      ensures from <= at < |history|
    {
      at :| from <= at < |history|;
    }

    /** Each organization's report keys, one read after another. */
    method CollectReportKeys(ids: seq<string>) returns (keys: seq<string>, ghost reports: seq<nat>)
      requires position < |history|
      modifies this`position
      ensures old(position) <= position < |history|
      ensures |reports| == |ids|
      ensures forall i :: 0 <= i < |reports| ==> old(position) <= reports[i] <= position
      ensures forall i, j :: 0 <= i < j < |reports| ==> reports[i] <= reports[j]
      ensures keys == CollectedKeys(history, ids, reports)
    {
      keys, reports := [], [];
      for k := 0 to |ids|
        invariant old(position) <= position < |history|
        invariant |reports| == k
        invariant forall i :: 0 <= i < k ==> old(position) <= reports[i] <= position
        invariant forall i, j :: 0 <= i < j < k ==> reports[i] <= reports[j]
        invariant keys == CollectedKeys(history, ids, reports)
      {
        position := Await(position);
        CollectedPush(history, ids, reports, position);
        keys := keys + ReportKeys(history[position], ids[k]);
        reports := reports + [position];
      }
    }

    /** One deletion after another, counted whether or not the storage manages it. */
    method DeleteStale(blobs: seq<Blob>, known: set<string>, cutoff: int) returns (total: nat)
      modifies this`deletions
      ensures deletions == old(deletions) + StaleKeys(blobs, known, cutoff)
      ensures total == |StaleKeys(blobs, known, cutoff)|
    {
      ghost var before := deletions;
      total := 0;
      assert before + [] == before;
      for k := 0 to |blobs|
        invariant deletions == before + StaleKeys(blobs[..k], known, cutoff)
        invariant total == |StaleKeys(blobs[..k], known, cutoff)|
      {
        StalePush(blobs, k, known, cutoff);
        if blobs[k].key !in known && blobs[k].createdAt <= cutoff {
          deletions := deletions + [blobs[k].key];
          total := total + 1;
        }
      }
      assert blobs[..|blobs|] == blobs;
    }

    /** The sweep asks for exactly the deletions its own reads justify, and counts them. */
    method SweepOrphanedBlobs() returns (total: nat, ghost t: Reads)
      requires position < |history|
      modifies this`position, this`deletions
      ensures InOrder(history, t)
      ensures old(position) <= t.ids && t.cutoff <= position < |history|
      ensures deletions == old(deletions) + Swept(history, t)
      ensures total == |Swept(history, t)|
    {
      hide MediaKeys, TranscriptKeys, StaleKeys, CollectedKeys, Stale;
      position := Await(position);
      ghost var idsRead := position;
      var ids := OrganizationIds(history[position]);
      var reportKeys, reports := CollectReportKeys(ids);

      var forked := position;
      var mediaRead := Await(forked);
      var listed := Await(forked);
      var transcriptsRead := Await(forked);
      var joined := if mediaRead <= listed then listed else mediaRead;
      joined := if joined <= transcriptsRead then transcriptsRead else joined;
      var known := SetOf(MediaKeys(history[mediaRead]) + reportKeys + TranscriptKeys(history[transcriptsRead]));

      position := Await(joined);
      var cutoff := history[position].now - RETENTION;
      t := Reads(idsRead, reports, mediaRead, listed, transcriptsRead, position);
      assert known == KnownKeys(history, t);

      total := DeleteStale(history[listed].blobs, known, cutoff);
    }
  }

  // ----- which keys go

  /** Some read of the sweep returned this key. */
  ghost predicate Seen(h: History, t: Reads, key: string)
    requires InOrder(h, t)
  {
    || key in MediaKeys(h[t.media])
    || key in TranscriptKeys(h[t.transcripts])
    || exists k :: 0 <= k < |t.reports| && key in ReportKeys(h[t.reports[k]], OrganizationIds(h[t.ids])[k])
  }

  lemma {:induction false} CollectedMembers(h: History, ids: seq<string>, reports: seq<nat>, key: string)
    requires |reports| <= |ids|
    requires forall i :: 0 <= i < |reports| ==> reports[i] < |h|
    ensures key in CollectedKeys(h, ids, reports)
      <==> exists k :: 0 <= k < |reports| && key in ReportKeys(h[reports[k]], ids[k])
  {
    if reports != [] {
      CollectedMembers(h, ids, reports[..|reports| - 1], key);
    }
  }

  lemma {:induction false} StaleMembers(blobs: seq<Blob>, known: set<string>, cutoff: int, key: string)
    ensures key in StaleKeys(blobs, known, cutoff)
      <==> exists k :: 0 <= k < |blobs| && blobs[k].key == key && Stale(blobs[k], known, cutoff)
  {
    if blobs != [] {
      StaleMembers(blobs[..|blobs| - 1], known, cutoff, key);
    }
  }

  /** The reads are capped: what a table holds beyond the cap is not seen. */
  lemma ReadsAreCapped(s: Snapshot, org: string)
    ensures OrganizationIds(s) == if |s.organizationIds| <= 100_000 then s.organizationIds else s.organizationIds[..100_000]
    ensures MediaKeys(s) == if |s.media| <= 1_000_000 then s.media else s.media[..1_000_000]
    ensures |TranscriptKeys(s)| <= 1_000_000 && |ReportKeys(s, org)| <= 1_000_000
  {
  }

  /** A key is deleted exactly when it was listed, is a day old at the cutoff, and no read returned it. */
  lemma SweptExactly(h: History, t: Reads, key: string)
    requires InOrder(h, t)
    ensures key in Swept(h, t) <==>
      && (exists k :: 0 <= k < |h[t.list].blobs| && h[t.list].blobs[k].key == key
           && h[t.list].blobs[k].createdAt <= h[t.cutoff].now - 24 * 60 * 60 * 1000)
      && !Seen(h, t, key)
  {
    CollectedMembers(h, OrganizationIds(h[t.ids]), t.reports, key);
    StaleMembers(h[t.list].blobs, KnownKeys(h, t), h[t.cutoff].now - RETENTION, key);
    assert key in KnownKeys(h, t) <==> Seen(h, t, key);
  }

  // ----- safety against concurrent uploads

  datatype Owner = Media | ReportOf(organizationId: string) | Transcript

  predicate Owns(s: Snapshot, owner: Owner, key: string) {
    match owner
    case Media => key in s.media
    case ReportOf(org) => Report(org, Some(key)) in s.reports
    case Transcript => Some(key) in s.transcripts
  }

  /** Written by time `w`, and kept from then on. */
  ghost predicate KeptFrom(h: History, owner: Owner, key: string, w: int) {
    forall i :: 0 <= i < |h| && w <= h[i].now ==> Owns(h[i], owner, key)
  }

  /** Time moves forward, a report row's organization exists, and no table outgrows the reads' row caps. */
  ghost predicate Plausible(h: History) {
    && (forall i, j :: 0 <= i <= j < |h| ==> h[i].now <= h[j].now)
    && (forall i, k :: 0 <= i < |h| && 0 <= k < |h[i].reports| ==> h[i].reports[k].organizationId in h[i].organizationIds)
    && (forall i :: 0 <= i < |h| ==> |h[i].organizationIds| <= ORGANIZATION_CAP && |h[i].media| <= KEY_CAP)
    && (forall i :: 0 <= i < |h| ==> |TextsOf(h[i].transcripts)| <= KEY_CAP)
    && (forall i, org :: 0 <= i < |h| ==> |KeysOf(h[i].reports, org)| <= KEY_CAP)
  }

  /** The read from which on an owner's row has to be there: a report's organization is looked up before its rows. */
  function FirstNeeded(t: Reads, owner: Owner): nat {
    match owner
    case Media => t.media
    case ReportOf(_) => t.ids
    case Transcript => t.transcripts
  }

  lemma OwnedIsSeen(h: History, t: Reads, owner: Owner, key: string, w: int)
    requires Plausible(h) && InOrder(h, t)
    requires KeptFrom(h, owner, key, w) && w <= h[FirstNeeded(t, owner)].now
    ensures Seen(h, t, key)
  {
    match owner
    case Media =>
      assert Owns(h[t.media], owner, key);
    case Transcript =>
      assert Owns(h[t.transcripts], owner, key);
      TextsOfMembers(h[t.transcripts].transcripts, key);
    case ReportOf(org) =>
      assert Owns(h[t.ids], owner, key);
      var r :| 0 <= r < |h[t.ids].reports| && h[t.ids].reports[r] == Report(org, Some(key));
      assert h[t.ids].reports[r].organizationId in h[t.ids].organizationIds;
      var k :| 0 <= k < |OrganizationIds(h[t.ids])| && OrganizationIds(h[t.ids])[k] == org;
      var at := t.reports[k];
      assert h[t.ids].now <= h[at].now;
      assert Owns(h[at], owner, key);
      KeysOfMembers(h[at].reports, org, key);
      assert key in ReportKeys(h[at], org);
  }

  /** One sweep, and an upload whose row is written at `w`; `a` and `b` are the times of the owner's first read and the cutoff. */
  ghost predicate Race(h: History, t: Reads, owner: Owner, key: string, a: int, b: int, u: int, w: int) {
    && Plausible(h) && InOrder(h, t)
    && (match owner case Media => h[t.media].now case ReportOf(_) => h[t.ids].now case Transcript => h[t.transcripts].now) == a
    && h[t.cutoff].now == b
    && KeptFrom(h, owner, key, w)
    && forall k :: 0 <= k < |h[t.list].blobs| && h[t.list].blobs[k].key == key ==> h[t.list].blobs[k].createdAt == u
  }

  ghost predicate AlwaysSpared(owner: Owner, a: int, b: int, u: int, w: int) {
    forall h, t, key :: Race(h, t, owner, key, a, b, u, w) ==> key !in Swept(h, t)
  }

  lemma SparedWhenSeenOrYoung(h: History, t: Reads, owner: Owner, key: string, a: int, b: int, u: int, w: int)
    requires Race(h, t, owner, key, a, b, u, w)
    requires w <= a || b - RETENTION < u
    ensures key !in Swept(h, t)
  {
    SweptExactly(h, t, key);
    if w <= a {
      OwnedIsSeen(h, t, owner, key, w);
    }
  }

  const BEFORE := Snapshot(0, [], [], [], [], [], [])

  /** The blob, with a row of this owner, all of it there at time `b`. */
  function After(owner: Owner, b: int, u: int): Snapshot {
    var empty := Snapshot(b, [], [], [], [], [], [Blob("key", u)]);
    match owner
    case Media => empty.(media := ["key"])
    case ReportOf(org) => empty.(organizationIds := [org], reports := [Report(org, Some("key"))])
    case Transcript => empty.(transcripts := [Some("key")])
  }

  /** The read the row needs first comes before it, everything else after. */
  function LateReads(owner: Owner): Reads {
    match owner
    case Media => Reads(0, [], 0, 1, 1, 1)
    case ReportOf(_) => Reads(0, [], 1, 1, 1, 1)
    case Transcript => Reads(0, [], 1, 1, 0, 1)
  }

  lemma LateHistoryIsPlausible(owner: Owner, a: int, b: int, u: int)
    requires a <= b
    ensures Plausible([BEFORE.(now := a), After(owner, b, u)]) && InOrder([BEFORE.(now := a), After(owner, b, u)], LateReads(owner))
    ensures Owns(After(owner, b, u), owner, "key")
  {
    var s := After(owner, b, u);
    forall org ensures |KeysOf(s.reports, org)| <= KEY_CAP && |KeysOf([], org)| <= KEY_CAP {
      assert s.reports != [] ==> s.reports[1..] == [];
    }
    assert s.transcripts != [] ==> s.transcripts[1..] == [];
    assert owner.ReportOf? ==> s.reports[0] == Report(owner.organizationId, Some("key"));
    assert owner.Transcript? ==> s.transcripts[0] == Some("key");
    assert owner.Media? ==> s.media[0] == "key";
  }

  /** A row the sweep is too early for: a report of a new organization is missed although all its key reads follow the row. */
  lemma LateRowIsSwept(owner: Owner, a: int, b: int, u: int, w: int)
    requires a <= b && a < w && u <= b - RETENTION
    ensures !AlwaysSpared(owner, a, b, u, w)
  {
    var h := [BEFORE.(now := a), After(owner, b, u)];
    var t := LateReads(owner);
    LateHistoryIsPlausible(owner, a, b, u);
    hide Plausible;
    assert Race(h, t, owner, "key", a, b, u, w);
    SweptExactly(h, t, "key");
    assert h[1].blobs[0].key == "key";
    LateRowIsUnseen(owner, a, b, u);
  }

  lemma LateRowIsUnseen(owner: Owner, a: int, b: int, u: int)
    requires a <= b
    ensures InOrder([BEFORE.(now := a), After(owner, b, u)], LateReads(owner))
    ensures !Seen([BEFORE.(now := a), After(owner, b, u)], LateReads(owner), "key")
  {
    LateHistoryIsPlausible(owner, a, b, u);
    TextsOfMembers([], "key");
  }

  /** For each kind of owner: an upload is always spared exactly when its row is there at the first read it needs, or it is younger than a day. */
  lemma SparedExactly(owner: Owner, a: int, b: int, u: int, w: int)
    requires a <= b
    ensures AlwaysSpared(owner, a, b, u, w) <==> w <= a || b - 24 * 60 * 60 * 1000 < u
  {
    if w <= a || b - RETENTION < u {
      forall h, t, key | Race(h, t, owner, key, a, b, u, w) ensures key !in Swept(h, t) {
        SparedWhenSeenOrYoung(h, t, owner, key, a, b, u, w);
      }
    } else {
      LateRowIsSwept(owner, a, b, u, w);
    }
  }

  ghost predicate AlwaysSparedAfter(owner: Owner, a: int, b: int, delay: int, u: int) {
    AlwaysSpared(owner, a, b, u, u + delay)
  }

  /** Rows written within `delay` of their upload are safe whenever they were uploaded, exactly up to a day less the sweep's own span. */
  lemma SafeDelay(owner: Owner, a: int, b: int, delay: int)
    requires a <= b
    ensures (forall u :: AlwaysSparedAfter(owner, a, b, delay, u)) <==> delay <= 24 * 60 * 60 * 1000 - (b - a)
  {
    if delay <= RETENTION - (b - a) {
      forall u ensures AlwaysSparedAfter(owner, a, b, delay, u) {
        SparedExactly(owner, a, b, u, u + delay);
      }
    } else {
      var u := b - RETENTION;
      SparedExactly(owner, a, b, u, u + delay);
      assert !AlwaysSparedAfter(owner, a, b, delay, u);
    }
  }

  // ----- the fourth table

  ghost predicate NeverOwned(h: History, key: string) {
    && (forall i :: 0 <= i < |h| ==> key !in h[i].media && Some(key) !in h[i].transcripts)
    && (forall i, org :: 0 <= i < |h| ==> Report(org, Some(key)) !in h[i].reports)
  }

  lemma NeverOwnedIsUnseen(h: History, t: Reads, key: string)
    requires InOrder(h, t) && NeverOwned(h, key)
    ensures !Seen(h, t, key)
  {
    TextsOfMembers(h[t.transcripts].transcripts, key);
    forall k | 0 <= k < |t.reports| ensures key !in ReportKeys(h[t.reports[k]], OrganizationIds(h[t.ids])[k]) {
      KeysOfMembers(h[t.reports[k]].reports, OrganizationIds(h[t.ids])[k], key);
    }
  }

  /** Plan-content media lives in a table no read looks at: whatever rows it holds, its blobs go exactly when they are a day old. */
  lemma PlanMediaGoesAfterADay(h: History, t: Reads, k: nat)
    requires InOrder(h, t) && k < |h[t.list].blobs|
    requires NeverOwned(h, h[t.list].blobs[k].key)
    requires forall j :: 0 <= j < |h[t.list].blobs| && h[t.list].blobs[j].key == h[t.list].blobs[k].key ==> j == k
    ensures h[t.list].blobs[k].key in Swept(h, t) <==> h[t.list].blobs[k].createdAt <= h[t.cutoff].now - 24 * 60 * 60 * 1000
  {
    var key := h[t.list].blobs[k].key;
    NeverOwnedIsUnseen(h, t, key);
    SweptExactly(h, t, key);
  }

  /** A plan-content upload whose row is there at every moment of the sweep, and whose blob is deleted. */
  lemma PlanMediaIsSwept() returns (h: History, t: Reads)
    ensures InOrder(h, t)
    ensures forall i :: 0 <= i < |h| ==> "key" in h[i].planMedia
    ensures "key" in Swept(h, t)
  {
    h := [BEFORE.(now := RETENTION, planMedia := ["key"], blobs := [Blob("key", 0)])];
    t := Reads(0, [], 0, 0, 0, 0);
    PlanMediaGoesAfterADay(h, t, 0);
  }
}
