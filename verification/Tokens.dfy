/** Refresh-token families: rotation, reuse detection, logout and the nightly purge, one request at a time. */
module TokenFamilies {
  import opened Wrappers
  import opened Seqs

  /**
   * A row; its id is its position in the table, where a deleted row leaves only a mark. Hashes stand for the tokens
   * they are injective images of.
   */
  datatype Token = Token(
    userId: string,
    tokenHash: string,
    familyId: nat,
    expiresAt: int,
    revokedAt: Option<int>,
    replacedById: Option<nat>,
    deleted: bool)

  datatype Refusal = Unknown | Reuse | AccountInactive | HashTaken

  datatype Outcome = Issued(id: nat) | Refused(why: Refusal) | Done

  datatype Request =
    | Login(userId: string, newHash: string, now: int)
    | Refresh(presentedHash: string, accountActive: bool, newHash: string, now: int)
    | Logout(presentedHash: string, now: int)
    | Purge(now: int)

  const REFRESH_TTL_MS := 30 * 86_400_000

  /** `REFRESH_TOKEN_RETENTION_DAYS`. */
  const RETENTION_MS := 30 * 86_400_000
  const CLEANUP_BATCH_SIZE := 500

  // ----- the repository

  function FindFrom(tokens: seq<Token>, hash: string, i: nat): Option<nat>
    requires i <= |tokens|
    decreases |tokens| - i
  {
    if i == |tokens| then None
    else if tokens[i].tokenHash == hash && !tokens[i].deleted then Some(i)
    else FindFrom(tokens, hash, i + 1)
  }

  function FindByTokenHash(tokens: seq<Token>, hash: string): Option<nat> {
    FindFrom(tokens, hash, 0)
  }

  lemma {:induction false} FindFromFacts(tokens: seq<Token>, hash: string, i: nat)
    requires i <= |tokens|
    ensures match FindFrom(tokens, hash, i)
      case Some(k) =>
        && i <= k < |tokens| && tokens[k].tokenHash == hash && !tokens[k].deleted
        && forall j :: i <= j < k ==> tokens[j].tokenHash != hash || tokens[j].deleted
      case None => forall k :: i <= k < |tokens| ==> tokens[k].tokenHash != hash || tokens[k].deleted
    decreases |tokens| - i
  {
    if i < |tokens| {
      FindFromFacts(tokens, hash, i + 1);
    }
  }

  function Revoked(token: Token, familyId: nat, now: int): Token {
    if token.familyId == familyId && token.revokedAt.None? && !token.deleted then token.(revokedAt := Some(now)) else token
  }

  function RevokeFamily(tokens: seq<Token>, familyId: nat, now: int): (r: seq<Token>)
    ensures |r| == |tokens| && forall i :: 0 <= i < |r| ==> r[i] == Revoked(tokens[i], familyId, now)
  {
    Map(tokens, (token: Token) => Revoked(token, familyId, now))
  }

  predicate PurgeDue(token: Token, cutoff: int) {
    token.expiresAt < cutoff || (token.revokedAt.Some? && token.revokedAt.value < cutoff)
  }

  function Purged(token: Token, cutoff: int): Token {
    if PurgeDue(token, cutoff) then token.(deleted := true) else token
  }

  function PurgeAll(tokens: seq<Token>, cutoff: int): (r: seq<Token>)
    ensures |r| == |tokens| && forall i :: 0 <= i < |r| ==> r[i] == Purged(tokens[i], cutoff)
  {
    Map(tokens, (token: Token) => Purged(token, cutoff))
  }

  // ----- requests

  function FreshToken(userId: string, hash: string, familyId: nat, now: int): Token {
    Token(userId, hash, familyId, now + REFRESH_TTL_MS, None, None, false)
  }

  /** A new row, unless its hash is taken; then the row it replaces is revoked and linked to it. */
  function IssuePair(tokens: seq<Token>, userId: string, hash: string, familyId: nat, replacesId: Option<nat>, now: int)
    : (seq<Token>, Outcome)
    requires replacesId.Some? ==> replacesId.value < |tokens|
  {
    if FindByTokenHash(tokens, hash).Some? then (tokens, Refused(HashTaken))
    else
      var linked := if replacesId.None? then tokens
        else tokens[replacesId.value := tokens[replacesId.value].(revokedAt := Some(now), replacedById := Some(|tokens|))];
      (linked + [FreshToken(userId, hash, familyId, now)], Issued(|tokens|))
  }

  function Presented(tokens: seq<Token>, hash: string): (r: Option<nat>)
    ensures r.Some? ==> r.value < |tokens| && tokens[r.value].tokenHash == hash && !tokens[r.value].deleted
  {
    FindFromFacts(tokens, hash, 0);
    FindByTokenHash(tokens, hash)
  }

  predicate Stale(token: Token, now: int) {
    token.revokedAt.Some? || token.expiresAt < now
  }

  function Step(tokens: seq<Token>, r: Request): (seq<Token>, Outcome) {
    match r
    case Login(userId, newHash, now) =>
      IssuePair(tokens, userId, newHash, |tokens|, None, now)
    case Refresh(hash, accountActive, newHash, now) =>
      (match Presented(tokens, hash)
       case None => (tokens, Refused(Unknown))
       case Some(k) =>
         if Stale(tokens[k], now) then (RevokeFamily(tokens, tokens[k].familyId, now), Refused(Reuse))
         else if !accountActive then (tokens, Refused(AccountInactive))
         else IssuePair(tokens, tokens[k].userId, newHash, tokens[k].familyId, Some(k), now))
    case Logout(hash, now) =>
      (match Presented(tokens, hash)
       case None => (tokens, Done)
       case Some(k) => (RevokeFamily(tokens, tokens[k].familyId, now), Done))
    case Purge(now) => (PurgeAll(tokens, now - RETENTION_MS), Done)
  }

  function Run(tokens: seq<Token>, requests: seq<Request>): (seq<Token>, seq<Outcome>)
    decreases |requests|
  {
    if requests == [] then (tokens, [])
    else
      var (next, outcome) := Step(tokens, requests[0]);
      var (end, rest) := Run(next, requests[1..]);
      (end, [outcome] + rest)
  }

  // ----- what a request does, row by row

  /** The row a hash is found in. */
  ghost predicate IsFound(tokens: seq<Token>, hash: string, k: nat) {
    && k < |tokens| && tokens[k].tokenHash == hash && !tokens[k].deleted
    && forall j :: 0 <= j < k ==> tokens[j].tokenHash != hash || tokens[j].deleted
  }

  ghost predicate IsUnknown(tokens: seq<Token>, hash: string) {
    forall k :: 0 <= k < |tokens| ==> tokens[k].tokenHash != hash || tokens[k].deleted
  }

  /** Every row of the family that is still there and unrevoked is revoked now; nothing else changes. */
  ghost predicate FamilyRevoked(tokens: seq<Token>, familyId: nat, now: int, after: seq<Token>) {
    |after| == |tokens| && forall i :: 0 <= i < |tokens| ==>
      after[i] == if tokens[i].familyId == familyId && !tokens[i].deleted && tokens[i].revokedAt == None
                  then tokens[i].(revokedAt := Some(now)) else tokens[i]
  }

  /** A new row of thirty days behind all others, which are as they were but for those `linked` describes. */
  ghost predicate Appended(tokens: seq<Token>, userId: string, hash: string, familyId: nat, now: int, after: seq<Token>) {
    |after| == |tokens| + 1
    && after[|tokens|] == Token(userId, hash, familyId, now + 30 * 24 * 60 * 60 * 1000, None, None, false)
  }

  ghost predicate LogsIn(tokens: seq<Token>, userId: string, newHash: string, now: int, after: seq<Token>, outcome: Outcome) {
    if !IsUnknown(tokens, newHash) then after == tokens && outcome == Refused(HashTaken)
    else
      && Appended(tokens, userId, newHash, |tokens|, now, after) && outcome == Issued(|tokens|)
      && forall i :: 0 <= i < |tokens| ==> after[i] == tokens[i]
  }

  /** A found row that is revoked or expired ends its family; a current one of an active account is replaced by its successor. */
  ghost predicate Rotates(tokens: seq<Token>, k: nat, accountActive: bool, newHash: string, now: int, after: seq<Token>,
                          outcome: Outcome)
    requires k < |tokens|
  {
    if tokens[k].revokedAt.Some? || tokens[k].expiresAt < now then
      FamilyRevoked(tokens, tokens[k].familyId, now, after) && outcome == Refused(Reuse)
    else if !accountActive then after == tokens && outcome == Refused(AccountInactive)
    else if !IsUnknown(tokens, newHash) then after == tokens && outcome == Refused(HashTaken)
    else
      && Appended(tokens, tokens[k].userId, newHash, tokens[k].familyId, now, after) && outcome == Issued(|tokens|)
      && forall i :: 0 <= i < |tokens| ==>
           after[i] == if i == k then tokens[k].(revokedAt := Some(now), replacedById := Some(|tokens|)) else tokens[i]
  }

  ghost predicate Refreshes(tokens: seq<Token>, hash: string, accountActive: bool, newHash: string, now: int, after: seq<Token>,
                            outcome: Outcome)
  {
    && (IsUnknown(tokens, hash) ==> after == tokens && outcome == Refused(Unknown))
    && forall k: nat :: IsFound(tokens, hash, k) ==> Rotates(tokens, k, accountActive, newHash, now, after, outcome)
  }

  ghost predicate LogsOut(tokens: seq<Token>, hash: string, now: int, after: seq<Token>) {
    && (IsUnknown(tokens, hash) ==> after == tokens)
    && forall k: nat :: IsFound(tokens, hash, k) ==> FamilyRevoked(tokens, tokens[k].familyId, now, after)
  }

  /** Rows that expired or were revoked more than thirty days ago are deleted; nothing else changes. */
  ghost predicate Purges(tokens: seq<Token>, now: int, after: seq<Token>) {
    var cutoff := now - 30 * 24 * 60 * 60 * 1000;
    |after| == |tokens| && forall i :: 0 <= i < |tokens| ==>
      after[i] == if tokens[i].expiresAt < cutoff || (tokens[i].revokedAt.Some? && tokens[i].revokedAt.value < cutoff)
                  then tokens[i].(deleted := true) else tokens[i]
  }

  ghost predicate Does(tokens: seq<Token>, r: Request, after: seq<Token>, outcome: Outcome) {
    match r
    case Login(userId, newHash, now) => LogsIn(tokens, userId, newHash, now, after, outcome)
    case Refresh(hash, accountActive, newHash, now) => Refreshes(tokens, hash, accountActive, newHash, now, after, outcome)
    case Logout(hash, now) => LogsOut(tokens, hash, now, after) && outcome == Done
    case Purge(now) => Purges(tokens, now, after) && outcome == Done
  }

  lemma FindsExactly(tokens: seq<Token>, hash: string)
    ensures FindByTokenHash(tokens, hash) == None <==> IsUnknown(tokens, hash)
    ensures forall k: nat :: IsFound(tokens, hash, k) <==> FindByTokenHash(tokens, hash) == Some(k)
  {
    FindFromFacts(tokens, hash, 0);
  }

  lemma StepDoes(tokens: seq<Token>, r: Request)
    ensures Does(tokens, r, Step(tokens, r).0, Step(tokens, r).1)
  {
    match r
    case Login(_, newHash, _) => FindsExactly(tokens, newHash);
    case Refresh(hash, _, newHash, _) =>
      FindsExactly(tokens, hash);
      FindsExactly(tokens, newHash);
    case Logout(hash, _) => FindsExactly(tokens, hash);
    case Purge(_) =>
  }

  /** Each request of a run does its work in the table that its predecessors left. */
  lemma {:induction false} RunDoesEach(tokens: seq<Token>, requests: seq<Request>, k: nat)
    requires k < |requests|
    ensures |Run(tokens, requests).1| == |requests|
    ensures Does(Run(tokens, requests[..k]).0, requests[k], Run(tokens, requests[..k + 1]).0, Run(tokens, requests).1[k])
    decreases |requests|
  {
    hide Step, Does;
    var next := Step(tokens, requests[0]).0;
    assert requests[..k + 1][1..] == requests[1..][..k];
    if k > 0 {
      RunDoesEach(next, requests[1..], k - 1);
      assert requests[..k][1..] == requests[1..][..k - 1];
    } else {
      StepDoes(tokens, requests[0]);
      if |requests| > 1 {
        RunDoesEach(next, requests[1..], 0);
      }
    }
  }

  // ----- how long a token lives

  /** Row `n` is as it was issued, or deleted since; nobody else goes by its hash. */
  ghost predicate AsIssued(tokens: seq<Token>, n: nat, token: Token) {
    && n < |tokens| && tokens[n] == token.(deleted := tokens[n].deleted)
    && forall i :: 0 <= i < |tokens| && i != n && tokens[i].tokenHash == token.tokenHash ==> tokens[i].deleted
  }

  ghost predicate PresentsFamily(tokens: seq<Token>, r: Request, familyId: nat) {
    (r.Refresh? || r.Logout?) && exists k: nat :: IsFound(tokens, r.presentedHash, k) && tokens[k].familyId == familyId
  }

  /** Other users' requests: they present no token of the family, and hash no token to `hash`. */
  ghost predicate LeavesAlone(tokens: seq<Token>, r: Request, familyId: nat, hash: string) {
    !PresentsFamily(tokens, r, familyId) && (r.Login? || r.Refresh? ==> r.newHash != hash)
  }

  lemma StaysAsIssued(tokens: seq<Token>, r: Request, n: nat, token: Token)
    requires AsIssued(tokens, n, token) && token.revokedAt == None && LeavesAlone(tokens, r, token.familyId, token.tokenHash)
    ensures AsIssued(Step(tokens, r).0, n, token)
    ensures !tokens[n].deleted && Step(tokens, r).0[n].deleted ==> token.expiresAt < r.now
  {
    StepDoes(tokens, r);
    if r.Refresh? || r.Logout? {
      FindsExactly(tokens, r.presentedHash);
      if FindByTokenHash(tokens, r.presentedHash).Some? {
        var k := FindByTokenHash(tokens, r.presentedHash).value;
        assert IsFound(tokens, r.presentedHash, k);
        hide IsFound, IsUnknown;
      }
    }
    hide Step;
  }

  lemma {:induction false} StaysAsIssuedInRun(tokens: seq<Token>, requests: seq<Request>, n: nat, token: Token, now: int)
    requires AsIssued(tokens, n, token) && token.revokedAt == None
    requires forall j :: 0 <= j < |requests| ==>
      requests[j].now <= now && LeavesAlone(Run(tokens, requests[..j]).0, requests[j], token.familyId, token.tokenHash)
    requires tokens[n].deleted ==> token.expiresAt < now
    ensures AsIssued(Run(tokens, requests).0, n, token)
    ensures Run(tokens, requests).0[n].deleted ==> token.expiresAt < now
    decreases |requests|
  {
    hide Step, AsIssued, LeavesAlone;
    if requests != [] {
      assert requests[..0] == [];
      StaysAsIssued(tokens, requests[0], n, token);
      var next := Step(tokens, requests[0]).0;
      forall j | 0 <= j < |requests| - 1
        ensures requests[1..][j].now <= now
        ensures LeavesAlone(Run(next, requests[1..][..j]).0, requests[1..][j], token.familyId, token.tokenHash)
      {
        assert requests[..j + 1][1..] == requests[1..][..j];
        assert LeavesAlone(Run(tokens, requests[..j + 1]).0, requests[j + 1], token.familyId, token.tokenHash);
      }
      StaysAsIssuedInRun(next, requests[1..], n, token, now);
    }
  }

  /**
   * A token issued at `r.now`, whose family nobody presents meanwhile, is exchanged again exactly within its thirty
   * days, by its own new hash and for the user it was issued to.
   */
  lemma IssuedLivesExactly(tokens: seq<Token>, r: Request, requests: seq<Request>, newHash: string, now: int)
    requires (r.Login? || r.Refresh?) && Step(tokens, r).1.Issued?
    requires var (issued, outcome) := Step(tokens, r);
      forall j :: 0 <= j < |requests| ==>
        requests[j].now <= now && LeavesAlone(Run(issued, requests[..j]).0, requests[j], issued[outcome.id].familyId, r.newHash)
    requires IsUnknown(Run(Step(tokens, r).0, requests).0, newHash)
    ensures var (issued, outcome) := Step(tokens, r); var before := Run(issued, requests).0;
      var (after, answer) := Step(before, Refresh(r.newHash, true, newHash, now));
      && outcome.id == |tokens| < |issued| && |tokens| < |before|
      && (r.Login? ==> issued[|tokens|].userId == r.userId)
      && (answer.Issued? <==> now <= r.now + 30 * 24 * 60 * 60 * 1000)
      && (answer.Issued? ==>
            && answer.id == |before| < |after|
            && after[|before|].userId == issued[|tokens|].userId && after[|before|].familyId == issued[|tokens|].familyId)
  {
    var (issued, outcome) := Step(tokens, r);
    StepDoes(tokens, r);
    FindsExactly(tokens, r.newHash);
    if r.Refresh? {
      FindsExactly(tokens, r.presentedHash);
    }
    var token := issued[|tokens|];
    assert AsIssued(issued, |tokens|, token);
    StaysAsIssuedInRun(issued, requests, |tokens|, token, now);
    var before := Run(issued, requests).0;
    var again := Refresh(r.newHash, true, newHash, now);
    StepDoes(before, again);
    hide Step, Run;
    FindsExactly(before, r.newHash);
    if before[|tokens|].deleted {
      assert IsUnknown(before, r.newHash);
    } else {
      assert IsFound(before, r.newHash, |tokens|);
    }
  }

  // ----- the invariant

  /** `j` is the next row of `i`'s family after `i`. */
  ghost predicate IsNext(tokens: seq<Token>, i: nat, j: nat) {
    && i < j < |tokens| && tokens[j].familyId == tokens[i].familyId
    && forall k :: i < k < j ==> tokens[k].familyId != tokens[i].familyId
  }

  /** Every row's `replacedById` is exactly the next row of its family, and a replaced row is revoked. */
  ghost predicate Linked(tokens: seq<Token>, i: nat)
    requires i < |tokens|
  {
    && (tokens[i].replacedById.Some? ==> tokens[i].revokedAt.Some? && IsNext(tokens, i, tokens[i].replacedById.value))
    && (tokens[i].replacedById.None? ==> forall j :: i < j < |tokens| ==> tokens[j].familyId != tokens[i].familyId)
  }

  ghost predicate Inv(tokens: seq<Token>) {
    && (forall i :: 0 <= i < |tokens| ==> tokens[i].familyId < |tokens|)
    && (forall i :: 0 <= i < |tokens| ==> Linked(tokens, i))
  }

  lemma RevokingKeeps(tokens: seq<Token>, familyId: nat, now: int)
    requires Inv(tokens)
    ensures Inv(RevokeFamily(tokens, familyId, now))
  {
    var r := RevokeFamily(tokens, familyId, now);
    forall i | 0 <= i < |r| ensures Linked(r, i) {
      assert Linked(tokens, i);
    }
  }

  lemma PurgingKeeps(tokens: seq<Token>, cutoff: int)
    requires Inv(tokens)
    ensures Inv(PurgeAll(tokens, cutoff))
  {
    var r := PurgeAll(tokens, cutoff);
    forall i | 0 <= i < |r| ensures Linked(r, i) {
      assert Linked(tokens, i);
    }
  }

  lemma LoginKeeps(tokens: seq<Token>, token: Token)
    requires Inv(tokens) && token.familyId == |tokens| && token.replacedById.None?
    ensures Inv(tokens + [token])
  {
    var r := tokens + [token];
    forall i | 0 <= i < |r| ensures Linked(r, i) {
      if i < |tokens| {
        assert Linked(tokens, i) && tokens[i].familyId < |tokens|;
      }
    }
  }

  /** Only the newest row of a family can still be unrevoked. */
  lemma UnrevokedIsNewest(tokens: seq<Token>, i: nat, j: nat)
    requires Inv(tokens) && i < j < |tokens|
    requires tokens[i].revokedAt.None?
    ensures tokens[j].familyId != tokens[i].familyId
  {
    assert Linked(tokens, i);
  }

  lemma RotationKeeps(tokens: seq<Token>, k: nat, token: Token, now: int)
    requires Inv(tokens) && k < |tokens| && tokens[k].revokedAt.None?
    requires token.familyId == tokens[k].familyId && token.replacedById.None?
    ensures Inv(tokens[k := tokens[k].(revokedAt := Some(now), replacedById := Some(|tokens|))] + [token])
  {
    var n := |tokens|;
    var r := tokens[k := tokens[k].(revokedAt := Some(now), replacedById := Some(n))] + [token];
    forall i | 0 <= i < |r| ensures Linked(r, i) {
      if i < n {
        assert Linked(tokens, i) && Linked(tokens, k);
        if i == k {
          assert IsNext(r, k, n);
        } else if tokens[i].replacedById.Some? {
          assert IsNext(tokens, i, tokens[i].replacedById.value);
          assert IsNext(r, i, tokens[i].replacedById.value);
        }
      }
    }
  }

  lemma StepKeeps(tokens: seq<Token>, r: Request)
    requires Inv(tokens)
    ensures Inv(Step(tokens, r).0)
  {
    match r
    case Login(userId, newHash, now) => LoginKeeps(tokens, FreshToken(userId, newHash, |tokens|, now));
    case Refresh(hash, accountActive, newHash, now) =>
      match Presented(tokens, hash) {
        case None =>
        case Some(k) =>
          RevokingKeeps(tokens, tokens[k].familyId, now);
          if !Stale(tokens[k], now) {
            RotationKeeps(tokens, k, FreshToken(tokens[k].userId, newHash, tokens[k].familyId, now), now);
          }
      }
    case Logout(hash, now) =>
      match Presented(tokens, hash) {
        case None =>
        case Some(k) => RevokingKeeps(tokens, tokens[k].familyId, now);
      }
    case Purge(now) => PurgingKeeps(tokens, now - RETENTION_MS);
  }

  lemma {:induction false} RunKeeps(tokens: seq<Token>, requests: seq<Request>)
    requires Inv(tokens)
    ensures Inv(Run(tokens, requests).0)
    decreases |requests|
  {
    if requests != [] {
      StepKeeps(tokens, requests[0]);
      RunKeeps(Step(tokens, requests[0]).0, requests[1..]);
    }
  }

  // ----- what holds over every run

  /** In every reachable state a family has at most one unrevoked token. */
  lemma AtMostOneUnrevoked(requests: seq<Request>, i: nat, j: nat)
    requires var tokens := Run([], requests).0;
      i < |tokens| && j < |tokens| && tokens[i].familyId == tokens[j].familyId
      && tokens[i].revokedAt.None? && tokens[j].revokedAt.None?
    ensures i == j
  {
    RunKeeps([], requests);
    var tokens := Run([], requests).0;
    if i < j {
      UnrevokedIsNewest(tokens, i, j);
    } else if j < i {
      UnrevokedIsNewest(tokens, j, i);
    }
  }

  /** The rows reached from `i` by following `replacedById`. */
  ghost function Chain(tokens: seq<Token>, i: nat): seq<nat>
    requires Inv(tokens) && i < |tokens|
    decreases |tokens| - i
  {
    assert Linked(tokens, i);
    [i] + if tokens[i].replacedById.None? then [] else Chain(tokens, tokens[i].replacedById.value)
  }

  /** The rows of a family at or after position `i`, in order. */
  ghost function Members(tokens: seq<Token>, familyId: nat, i: nat): seq<nat>
    requires i <= |tokens|
    decreases |tokens| - i
  {
    if i == |tokens| then []
    else (if tokens[i].familyId == familyId then [i] else []) + Members(tokens, familyId, i + 1)
  }

  lemma {:induction false} MembersSkip(tokens: seq<Token>, familyId: nat, i: nat, j: nat)
    requires i <= j <= |tokens|
    requires forall k :: i <= k < j ==> tokens[k].familyId != familyId
    ensures Members(tokens, familyId, i) == Members(tokens, familyId, j)
    decreases j - i
  {
    if i < j {
      MembersSkip(tokens, familyId, i + 1, j);
      assert [] + Members(tokens, familyId, i + 1) == Members(tokens, familyId, i + 1);
    }
  }

  /** The links form one chain: from any token it runs through every later token of the family, and no other. */
  lemma {:induction false} ChainIsFamily(tokens: seq<Token>, i: nat)
    requires Inv(tokens) && i < |tokens|
    ensures Chain(tokens, i) == Members(tokens, tokens[i].familyId, i)
    decreases |tokens| - i
  {
    assert Linked(tokens, i);
    var f := tokens[i].familyId;
    if tokens[i].replacedById.None? {
      MembersSkip(tokens, f, i + 1, |tokens|);
    } else {
      var j := tokens[i].replacedById.value;
      MembersSkip(tokens, f, i + 1, j);
      ChainIsFamily(tokens, j);
    }
  }

  /** The chain of a whole family, in any reachable state; all of it but the last token is revoked. */
  lemma FamilyIsOneChain(requests: seq<Request>, first: nat)
    requires var tokens := Run([], requests).0;
      first < |tokens| && forall k :: 0 <= k < first ==> tokens[k].familyId != tokens[first].familyId
    ensures var tokens := Run([], requests).0;
      && Inv(tokens) && Chain(tokens, first) == Members(tokens, tokens[first].familyId, 0)
      && forall i, j :: 0 <= i < j < |tokens| && tokens[i].familyId == tokens[j].familyId ==> tokens[i].revokedAt.Some?
  {
    RunKeeps([], requests);
    var tokens := Run([], requests).0;
    ChainIsFamily(tokens, first);
    MembersSkip(tokens, tokens[first].familyId, 0, first);
    forall i, j | 0 <= i < j < |tokens| && tokens[i].familyId == tokens[j].familyId ensures tokens[i].revokedAt.Some? {
      assert Linked(tokens, i);
    }
  }

  // ----- dead families

  /** Every row the family still has is revoked. */
  ghost predicate Dead(tokens: seq<Token>, familyId: nat) {
    familyId < |tokens| &&
    forall i :: 0 <= i < |tokens| && tokens[i].familyId == familyId && !tokens[i].deleted ==> tokens[i].revokedAt.Some?
  }

  /** Presenting a revoked or expired member, or logging out with any member, revokes the whole family. */
  lemma ReplayAndLogoutKill(tokens: seq<Token>, r: Request, k: nat)
    requires Inv(tokens) && (r.Refresh? || r.Logout?) && Presented(tokens, r.presentedHash) == Some(k)
    requires r.Refresh? ==> tokens[k].revokedAt.Some? || tokens[k].expiresAt < r.now
    ensures Dead(Step(tokens, r).0, tokens[k].familyId)
    ensures r.Refresh? ==> Step(tokens, r).1 == Refused(Reuse)
  {
  }

  ghost predicate InFamily(tokens: seq<Token>, r: Request, familyId: nat) {
    r.Refresh? && match Presented(tokens, r.presentedHash)
      case None => false
      case Some(k) => tokens[k].familyId == familyId
  }

  /** No row from position `n` on belongs to the family. */
  ghost predicate NoneJoins(tokens: seq<Token>, familyId: nat, n: nat) {
    forall i :: n <= i < |tokens| ==> tokens[i].familyId != familyId
  }

  lemma DeadStays(tokens: seq<Token>, r: Request, familyId: nat)
    requires Inv(tokens) && Dead(tokens, familyId)
    ensures Dead(Step(tokens, r).0, familyId)
    ensures |tokens| <= |Step(tokens, r).0| && NoneJoins(Step(tokens, r).0, familyId, |tokens|)
    ensures forall i :: 0 <= i < |tokens| ==> Step(tokens, r).0[i].familyId == tokens[i].familyId
    ensures InFamily(tokens, r, familyId) ==> Step(tokens, r).1 == Refused(Reuse)
  {
  }

  lemma {:induction false} RunAnswersEach(tokens: seq<Token>, requests: seq<Request>, k: nat)
    requires k < |requests|
    ensures |Run(tokens, requests).1| == |requests|
    ensures Run(tokens, requests).1[k] == Step(Run(tokens, requests[..k]).0, requests[k]).1
    decreases |requests|
  {
    var next := Step(tokens, requests[0]).0;
    if k > 0 {
      RunAnswersEach(next, requests[1..], k - 1);
      assert requests[1..][..k - 1] == requests[..k][1..];
    } else if |requests| > 1 {
      RunAnswersEach(next, requests[1..], 0);
    }
  }

  lemma {:induction false} DeadRunStays(tokens: seq<Token>, familyId: nat, requests: seq<Request>, n: nat)
    requires Inv(tokens) && Dead(tokens, familyId) && n <= |tokens| && NoneJoins(tokens, familyId, n)
    ensures Inv(Run(tokens, requests).0) && Dead(Run(tokens, requests).0, familyId)
    ensures NoneJoins(Run(tokens, requests).0, familyId, n)
    decreases |requests|
  {
    hide Dead, Inv;
    if requests != [] {
      StepKeeps(tokens, requests[0]);
      DeadStays(tokens, requests[0], familyId);
      DeadRunStays(Step(tokens, requests[0]).0, familyId, requests[1..], n);
    }
  }

  /** Once dead, a family stays dead over every further run and gets no new row, and presenting any of its tokens that is
      still there is answered as reuse. */
  lemma DeadForever(tokens: seq<Token>, familyId: nat, requests: seq<Request>)
    requires Inv(tokens) && Dead(tokens, familyId)
    ensures Dead(Run(tokens, requests).0, familyId) && NoneJoins(Run(tokens, requests).0, familyId, |tokens|)
    ensures forall k :: 0 <= k < |requests| && InFamily(Run(tokens, requests[..k]).0, requests[k], familyId) ==>
      |Run(tokens, requests).1| == |requests| && Run(tokens, requests).1[k] == Refused(Reuse)
  {
    forall k | 0 <= k < |requests| && InFamily(Run(tokens, requests[..k]).0, requests[k], familyId)
      ensures |Run(tokens, requests).1| == |requests| && Run(tokens, requests).1[k] == Refused(Reuse)
    {
      DeadRunStays(tokens, familyId, requests[..k], |tokens|);
      DeadStays(Run(tokens, requests[..k]).0, requests[k], familyId);
      RunAnswersEach(tokens, requests, k);
    }
    DeadRunStays(tokens, familyId, requests, |tokens|);
  }

  lemma {:induction false} RunConcat(tokens: seq<Token>, first: seq<Request>, second: seq<Request>)
    ensures Run(tokens, first + second).0 == Run(Run(tokens, first).0, second).0
    decreases |first|
  {
    if first == [] {
      assert first + second == second;
    } else {
      RunConcat(Step(tokens, first[0]).0, first[1..], second);
      assert (first + second)[0] == first[0] && (first + second)[1..] == first[1..] + second;
    }
  }

  /** Over any run from the empty table: after a replay or a logout, whatever follows, the family is dead and gets no new row. */
  lemma ReplayOrLogoutEndsFamily(before: seq<Request>, r: Request, after: seq<Request>, k: nat)
    requires (r.Refresh? || r.Logout?) && Presented(Run([], before).0, r.presentedHash) == Some(k)
    requires r.Refresh? ==> var token := Run([], before).0[k]; token.revokedAt.Some? || token.expiresAt < r.now
    ensures var family := Run([], before).0[k].familyId;
      Dead(Run([], before + [r] + after).0, family) && NoneJoins(Run([], before + [r] + after).0, family, |Run([], before).0|)
  {
    var tokens := Run([], before).0;
    var family := tokens[k].familyId;
    RunKeeps([], before);
    ReplayAndLogoutKill(tokens, r, k);
    StepKeeps(tokens, r);
    var mid := Step(tokens, r).0;
    assert |mid| == |tokens|;
    RunConcat([], before, [r]);
    assert Run(tokens, [r]).0 == mid;
    RunConcat([], before + [r], after);
    DeadForever(mid, family, after);
  }

  // ----- what the purge leaves

  /** Requests come with a clock that never runs backwards. */
  ghost predicate InTime(requests: seq<Request>, from: int) {
    && (forall i :: 0 <= i < |requests| ==> from <= requests[i].now)
    && (forall i, j :: 0 <= i < j < |requests| ==> requests[i].now <= requests[j].now)
  }

  /** Within a family an earlier row expires, is revoked and is deleted no later than a later one. */
  ghost predicate Earlier(tokens: seq<Token>, i: nat, j: nat)
    requires i < j < |tokens|
  {
    tokens[i].familyId == tokens[j].familyId ==>
      && tokens[i].expiresAt <= tokens[j].expiresAt
      && (tokens[j].revokedAt.Some? ==> tokens[i].revokedAt.Some? && tokens[i].revokedAt.value <= tokens[j].revokedAt.value)
      && (tokens[j].deleted ==> tokens[i].deleted)
  }

  ghost predicate Timely(tokens: seq<Token>, now: int) {
    && (forall i :: 0 <= i < |tokens| ==> tokens[i].expiresAt <= now + REFRESH_TTL_MS)
    && (forall i :: 0 <= i < |tokens| && tokens[i].revokedAt.Some? ==> tokens[i].revokedAt.value <= now)
    && (forall i, j :: 0 <= i < j < |tokens| ==> Earlier(tokens, i, j))
  }

  lemma RevokingIsTimely(tokens: seq<Token>, familyId: nat, now: int)
    requires Inv(tokens) && Timely(tokens, now)
    ensures Timely(RevokeFamily(tokens, familyId, now), now)
  {
    var r := RevokeFamily(tokens, familyId, now);
    forall i, j | 0 <= i < j < |r| ensures Earlier(r, i, j) {
      assert Earlier(tokens, i, j) && Linked(tokens, i);
    }
  }

  lemma PurgingIsTimely(tokens: seq<Token>, cutoff: int, now: int)
    requires Inv(tokens) && Timely(tokens, now)
    ensures Timely(PurgeAll(tokens, cutoff), now)
  {
    var r := PurgeAll(tokens, cutoff);
    forall i, j | 0 <= i < j < |r| ensures Earlier(r, i, j) {
      assert Earlier(tokens, i, j);
    }
  }

  lemma IssuingIsTimely(tokens: seq<Token>, userId: string, hash: string, familyId: nat, replacesId: Option<nat>, now: int)
    requires Inv(tokens) && Timely(tokens, now)
    requires replacesId.None? ==> familyId == |tokens|
    requires replacesId.Some? ==> replacesId.value < |tokens| && tokens[replacesId.value].familyId == familyId
    requires replacesId.Some? ==> tokens[replacesId.value].revokedAt.None? && !tokens[replacesId.value].deleted
    ensures Timely(IssuePair(tokens, userId, hash, familyId, replacesId, now).0, now)
  {
    var r := IssuePair(tokens, userId, hash, familyId, replacesId, now).0;
    forall i, j | 0 <= i < j < |r| ensures Earlier(r, i, j) {
      if j < |tokens| {
        assert Earlier(tokens, i, j) && Linked(tokens, i);
      } else {
        assert tokens[i].familyId < |tokens|;
      }
    }
  }

  lemma StepIsTimely(tokens: seq<Token>, r: Request, now: int)
    requires Inv(tokens) && Timely(tokens, now) && now <= r.now
    ensures Timely(Step(tokens, r).0, r.now)
  {
    assert Timely(tokens, r.now);
    hide Timely, Inv, RevokeFamily, PurgeAll, IssuePair;
    match r
    case Login(userId, newHash, _) => IssuingIsTimely(tokens, userId, newHash, |tokens|, None, r.now);
    case Refresh(hash, _, newHash, _) =>
      if Presented(tokens, hash).Some? {
        var k := Presented(tokens, hash).value;
        RevokingIsTimely(tokens, tokens[k].familyId, r.now);
        if !Stale(tokens[k], r.now) {
          IssuingIsTimely(tokens, tokens[k].userId, newHash, tokens[k].familyId, Some(k), r.now);
        }
      }
    case Logout(hash, _) =>
      if Presented(tokens, hash).Some? {
        RevokingIsTimely(tokens, tokens[Presented(tokens, hash).value].familyId, r.now);
      }
    case Purge(_) => PurgingIsTimely(tokens, r.now - RETENTION_MS, r.now);
  }

  lemma {:induction false} RunIsTimely(tokens: seq<Token>, requests: seq<Request>, now: int) returns (end: int)
    requires Inv(tokens) && Timely(tokens, now) && InTime(requests, now)
    ensures Timely(Run(tokens, requests).0, end)
    decreases |requests|
  {
    hide Timely, Inv;
    if requests == [] {
      return now;
    }
    StepKeeps(tokens, requests[0]);
    StepIsTimely(tokens, requests[0], now);
    end := RunIsTimely(Step(tokens, requests[0]).0, requests[1..], requests[0].now);
  }

  /** The purge takes a family's rows from the front: what follows a surviving row survives, so its chain is unbroken. */
  lemma SurvivorsAreTheEnd(requests: seq<Request>, start: int, i: nat)
    requires InTime(requests, start)
    requires var tokens := Run([], requests).0; i < |tokens| && !tokens[i].deleted
    ensures var tokens := Run([], requests).0;
      Inv(tokens) && forall j :: j in Chain(tokens, i) ==> j < |tokens| && !tokens[j].deleted && tokens[j].familyId == tokens[i].familyId
  {
    RunKeeps([], requests);
    var tokens := Run([], requests).0;
    var end := RunIsTimely([], requests, start);
    ChainIsFamily(tokens, i);
    forall j | j in Chain(tokens, i) ensures j < |tokens| && !tokens[j].deleted && tokens[j].familyId == tokens[i].familyId {
      MembersAre(tokens, tokens[i].familyId, i, j);
      if i < j {
        assert Earlier(tokens, i, j);
      }
    }
  }

  lemma {:induction false} MembersAre(tokens: seq<Token>, familyId: nat, i: nat, j: nat)
    requires i <= |tokens|
    ensures j in Members(tokens, familyId, i) <==> i <= j < |tokens| && tokens[j].familyId == familyId
    decreases |tokens| - i
  {
    if i < |tokens| {
      MembersAre(tokens, familyId, i + 1, j);
      InConcat(if tokens[i].familyId == familyId then [i] else [], Members(tokens, familyId, i + 1), j);
    }
  }

  lemma InConcat<T>(s: seq<T>, t: seq<T>, x: T)
    ensures x in s + t <==> x in s || x in t
  {
  }

  /** Replaying a stale token ends its family exactly when its row is still there, or the family was dead already. */
  lemma ReplayKillsExactly(tokens: seq<Token>, k: nat, r: Request)
    requires Inv(tokens) && k < |tokens| && r.Refresh? && r.presentedHash == tokens[k].tokenHash
    requires tokens[k].revokedAt.Some? || tokens[k].expiresAt < r.now
    requires forall i :: 0 <= i < |tokens| && i != k ==> tokens[i].tokenHash != tokens[k].tokenHash
    ensures Dead(Step(tokens, r).0, tokens[k].familyId) <==> !tokens[k].deleted || Dead(tokens, tokens[k].familyId)
    ensures Step(tokens, r).1 == Refused(if tokens[k].deleted then Unknown else Reuse)
  {
    FindFromFacts(tokens, r.presentedHash, 0);
  }

  /** A refresh succeeds exactly for a current token of an active account; its successor is then the only live one. */
  lemma RefreshSucceedsExactly(tokens: seq<Token>, hash: string, accountActive: bool, newHash: string, now: int)
    requires Inv(tokens)
    ensures var (after, outcome) := Step(tokens, Refresh(hash, accountActive, newHash, now));
      match Presented(tokens, hash)
      case None => outcome == Refused(Unknown) && after == tokens
      case Some(k) =>
        && (outcome.Issued? <==>
              tokens[k].revokedAt.None? && now <= tokens[k].expiresAt && accountActive && Presented(tokens, newHash).None?)
        && (outcome.Issued? ==>
              && outcome.id == |tokens| && |after| == |tokens| + 1 && after[|tokens|].familyId == tokens[k].familyId
              && forall i :: 0 <= i < |after| && after[i].familyId == tokens[k].familyId ==>
                   (after[i].revokedAt.None? <==> i == |tokens|))
  {
    match Presented(tokens, hash)
    case None =>
    case Some(k) =>
      if !Stale(tokens[k], now) {
        forall i | 0 <= i < |tokens| && i != k && tokens[i].familyId == tokens[k].familyId ensures tokens[i].revokedAt.Some? {
          assert Linked(tokens, k);
          if i < k && tokens[i].revokedAt.None? {
            UnrevokedIsNewest(tokens, i, k);
          }
        }
      }
  }

  // ----- the service

  class TokenService {
    var tokens: seq<Token>

    constructor ()
      ensures tokens == []
    {
      tokens := [];
    }

    method FindToken(hash: string) returns (r: Option<nat>)
      ensures r == Presented(tokens, hash)
    {
      FindFromFacts(tokens, hash, 0);
      r := None;
      for i := 0 to |tokens|
        invariant FindFrom(tokens, hash, i) == FindByTokenHash(tokens, hash)
      {
        if tokens[i].tokenHash == hash && !tokens[i].deleted {
          return Some(i);
        }
      }
    }

    method RevokeRows(familyId: nat, now: int)
      modifies this
      ensures tokens == RevokeFamily(old(tokens), familyId, now)
    {
      for i := 0 to |tokens|
        invariant |tokens| == |old(tokens)|
        invariant forall k :: 0 <= k < i ==> tokens[k] == Revoked(old(tokens)[k], familyId, now)
        invariant forall k :: i <= k < |tokens| ==> tokens[k] == old(tokens)[k]
      {
        if tokens[i].familyId == familyId && tokens[i].revokedAt.None? && !tokens[i].deleted {
          tokens := tokens[i := tokens[i].(revokedAt := Some(now))];
        }
      }
    }

    /** `issuePairInFamily`: create the new row, then mark the row it replaces. */
    method IssuePairInFamily(userId: string, hash: string, familyId: nat, replacesId: Option<nat>, now: int) returns (outcome: Outcome)
      requires replacesId.Some? ==> replacesId.value < |tokens|
      modifies this
      ensures (tokens, outcome) == IssuePair(old(tokens), userId, hash, familyId, replacesId, now)
    {
      var taken := FindToken(hash);
      if taken.Some? {
        return Refused(HashTaken);
      }
      var id := |tokens|;
      tokens := tokens + [FreshToken(userId, hash, familyId, now)];
      if replacesId.Some? {
        tokens := tokens[replacesId.value := tokens[replacesId.value].(revokedAt := Some(now), replacedById := Some(id))];
      }
      outcome := Issued(id);
      assert tokens == IssuePair(old(tokens), userId, hash, familyId, replacesId, now).0;
    }

    method IssueTokenPair(userId: string, newHash: string, now: int) returns (outcome: Outcome)
      modifies this
      ensures (tokens, outcome) == Step(old(tokens), Login(userId, newHash, now))
      ensures LogsIn(old(tokens), userId, newHash, now, tokens, outcome)
    {
      StepDoes(tokens, Login(userId, newHash, now));
      outcome := IssuePairInFamily(userId, newHash, |tokens|, None, now);
    }

    method RotateRefreshToken(presentedHash: string, accountActive: bool, newHash: string, now: int) returns (outcome: Outcome)
      modifies this
      ensures (tokens, outcome) == Step(old(tokens), Refresh(presentedHash, accountActive, newHash, now))
      ensures Refreshes(old(tokens), presentedHash, accountActive, newHash, now, tokens, outcome)
    {
      StepDoes(tokens, Refresh(presentedHash, accountActive, newHash, now));
      var stored := FindToken(presentedHash);
      if stored.None? {
        return Refused(Unknown);
      }
      var row := tokens[stored.value];
      if row.revokedAt.Some? || row.expiresAt < now {
        RevokeRows(row.familyId, now);
        return Refused(Reuse);
      }
      if !accountActive {
        return Refused(AccountInactive);
      }
      outcome := IssuePairInFamily(row.userId, newHash, row.familyId, stored, now);
    }

    method RevokeRefreshToken(presentedHash: string, now: int)
      modifies this
      ensures tokens == Step(old(tokens), Logout(presentedHash, now)).0
      ensures LogsOut(old(tokens), presentedHash, now, tokens)
    {
      StepDoes(tokens, Logout(presentedHash, now));
      var stored := FindToken(presentedHash);
      if stored.Some? {
        RevokeRows(tokens[stored.value].familyId, now);
      }
    }

    /** One batch: up to `batchSize` rows that are due, fewer only when no more are. */
    method DeleteExpiredOrRevokedBefore(cutoff: int, batchSize: nat) returns (count: nat)
      modifies this
      ensures |tokens| == |old(tokens)|
      ensures forall i :: 0 <= i < |tokens| ==> tokens[i] == old(tokens)[i] || tokens[i] == Purged(old(tokens)[i], cutoff)
      ensures count <= batchSize && |Due(tokens, cutoff)| + count == |Due(old(tokens), cutoff)|
      ensures count < batchSize ==> tokens == PurgeAll(old(tokens), cutoff)
    {
      count := 0;
      for i := 0 to |tokens|
        invariant |tokens| == |old(tokens)| && count <= batchSize
        invariant forall k :: 0 <= k < |tokens| ==> tokens[k] == old(tokens)[k] || tokens[k] == Purged(old(tokens)[k], cutoff)
        invariant count < batchSize ==> forall k :: 0 <= k < i ==> tokens[k] == Purged(old(tokens)[k], cutoff)
        invariant forall k :: i <= k < |tokens| ==> tokens[k] == old(tokens)[k]
        invariant |Due(tokens, cutoff)| + count == |Due(old(tokens), cutoff)|
      {
        if count < batchSize && !tokens[i].deleted && (tokens[i].expiresAt < cutoff
          || (tokens[i].revokedAt.Some? && tokens[i].revokedAt.value < cutoff))
        {
          DeletedIsNotDue(tokens, i, cutoff);
          tokens := tokens[i := tokens[i].(deleted := true)];
          count := count + 1;
        }
      }
    }

    /** `sweepExpiredRefreshTokens`: batch after batch, until one is not full. */
    method SweepExpired(now: int) returns (total: nat)
      modifies this
      ensures tokens == Step(old(tokens), Purge(now)).0
      ensures Purges(old(tokens), now, tokens)
      ensures total == |set i: nat | i < |tokens| && tokens[i].deleted && !old(tokens)[i].deleted|
    {
      StepDoes(tokens, Purge(now));
      var cutoff := now - RETENTION_MS;
      total := 0;
      while true
        invariant |tokens| == |old(tokens)|
        invariant forall k :: 0 <= k < |tokens| ==> tokens[k] == old(tokens)[k] || tokens[k] == Purged(old(tokens)[k], cutoff)
        invariant |Due(tokens, cutoff)| + total == |Due(old(tokens), cutoff)|
        decreases |Due(tokens, cutoff)|
      {
        var count := DeleteExpiredOrRevokedBefore(cutoff, CLEANUP_BATCH_SIZE);
        total := total + count;
        if count < CLEANUP_BATCH_SIZE {
          NothingIsDue(tokens, cutoff);
          assert Due(old(tokens), cutoff) == set i: nat | i < |tokens| && tokens[i].deleted && !old(tokens)[i].deleted;
          break;
        }
      }
    }
  }

  /** The rows a purge has to delete. */
  function Due(tokens: seq<Token>, cutoff: int): set<nat> {
    set i: nat | i < |tokens| && !tokens[i].deleted && PurgeDue(tokens[i], cutoff)
  }

  lemma DeletedIsNotDue(tokens: seq<Token>, i: nat, cutoff: int)
    requires i in Due(tokens, cutoff)
    ensures |Due(tokens, cutoff)| == |Due(tokens[i := tokens[i].(deleted := true)], cutoff)| + 1
  {
    assert Due(tokens, cutoff) == Due(tokens[i := tokens[i].(deleted := true)], cutoff) + {i};
  }

  lemma NothingIsDue(tokens: seq<Token>, cutoff: int)
    requires tokens == PurgeAll(tokens, cutoff)
    ensures Due(tokens, cutoff) == {}
  {
  }
}
