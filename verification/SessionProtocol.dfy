/**
 The cross-tab session protocol of frontend/src/authSession.ts as a labelled transition
 system. Every state-lock section is one step; sending a request, receiving its reply and
 taking or releasing the renewal lock are steps of their own, so any other tab may act
 between a decision and the request that follows from it. Replies, abort signals and
 error messages are chosen by the environment.
 */
module SessionProtocol {
  import opened Options
  import opened SessionRecords

  /** A tab runs at most one renewal per login: its `renewals` map is keyed by epoch. */
  datatype Key = Key(tab: nat, epoch: string)

  /** One decision to send the refresh token of (owner.epoch, revision), taken while `attempt` was recorded. */
  datatype Authorisation = Authorisation(owner: Key, revision: int, attempt: Option<string>, token: string)

  datatype Phase =
    | Waiting                                                     // queued for the renewal lock
    | Entered                                                     // lock held, record not yet read
    | EndingUnrefreshable                                         // there is no refresh token
    | Authorised(auth: Authorisation)                             // decided, request not yet out
    | InFlight(auth: Authorisation)
    | Rejected(auth: Authorisation)                               // HTTP 401
    | Replied(auth: Authorisation, reply: AuthResponse, id: nat)  // complete reply in hand
    | Revoking(auth: Authorisation, reply: AuthResponse, id: nat) // reply not accepted
    | RevokeFailed(auth: Authorisation, message: string)
    | Failed(auth: Authorisation, message: string)                // failure not yet published
    | Leaving                                                     // about to release the lock

  datatype Renewal = Renewal(challenged: int, observed: Option<string>, retry: bool, phase: Phase)

  datatype LogoutPhase = Queued | Holding | RevokingOld | Closing
  datatype LogoutCall = LogoutCall(epoch: string, token: string, phase: LogoutPhase)

  datatype Install =
    | Pending(auth: AuthResponse, boundary: string)
    | Installed(boundary: string, replaced: Option<Record>, epoch: string)
    | Refused(auth: AuthResponse, boundary: string)
    | Revoked(auth: AuthResponse, boundary: string)

  datatype Holder = Renewing(key: Key) | LoggingOut(id: nat)

  /** What became of a complete refresh reply. */
  datatype Settlement =
    | PublishedAs(id: nat, epoch: string, revision: int)
    | HandedToRevoke(id: nat)

  datatype Failure = Failure(epoch: string, revision: int, attempt: string)

  datatype Slot = Slot(epoch: string, revision: int)

  /** What has happened so far; no step reads it. */
  datatype History = History(
    authorised: seq<Authorisation>,
    sent: seq<Authorisation>,
    failures: set<Failure>,                 // failed attempts published on an active record
    firstAttempt: map<Slot, Option<string>>, // the attempt recorded when (epoch, revision) was published
    firstRevision: map<string, int>,        // the revision with which an epoch was published
    published: map<Slot, string>,           // the refresh token with which (epoch, revision) was published
    replies: nat,                           // complete refresh replies received
    settled: seq<Settlement>)

  datatype State = State(
    record: Option<Record>,
    epochs: set<string>,                    // epochs used so far
    attempts: set<string>,                  // attempt ids used so far
    lock: Option<Holder>,
    renewals: map<Key, Renewal>,
    logouts: map<nat, LogoutCall>,
    installs: map<nat, Install>,
    past: History)

  const NoHistory := History([], [], {}, map[], map[], map[], 0, [])
  const InitialState := State(None, {}, {}, None, map[], map[], map[], NoHistory)

  /** Steps of one tab that touch the record or an installation. */
  datatype TabAction =
    | Initialize(legacy: Legacy, newEpoch: string)
    | Remember(epoch: string, operator: Operator)
    | Logout(id: nat, epoch: string)
    | BeginInstall(install: nat, auth: AuthResponse, boundary: string)
    | CommitInstall(install: nat, newEpoch: string)
    | RevokeInstall(install: nat)

  /** What a logout does after its state-lock section: it queues for the renewal lock and cleans up. */
  datatype LogoutAction = TakeLock | CheckWarning | RevokeOld | DropLock

  /** Steps of a renewal around the renewal lock. */
  datatype QueueAction = Start(challenged: int, observed: Option<string>, retry: bool) | Abort | Acquire | Release

  /** Steps of a renewal that holds the renewal lock. */
  datatype HeldAction =
    | Read
    | EndMissing
    | Send
    | Unauthorized
    | EndRejected
    | Reply(reply: AuthResponse)
    | Fail(message: string)
    | Settle(newAttempt: string)
    | RevokeDone
    | RevokeError(message: string)
    | RecordRevokeError(newAttempt: string)
    | RecordFailure(newAttempt: string)

  datatype Label =
    | ByTab(tab: TabAction)
    | ByLogout(id: nat, logout: LogoutAction)
    | ByQueue(key: Key, queue: QueueAction)
    | ByHolder(key: Key, held: HeldAction)

  // ---- tabs ------------------------------------------------------------------

  predicate TabEnabled(s: State, a: TabAction) {
    match a
    case Initialize(_, newEpoch) => newEpoch !in s.epochs
    case Remember(_, _) => true
    case Logout(id, epoch) => id !in s.logouts && LogoutApplies(s.record, epoch)
    case BeginInstall(i, _, _) => i !in s.installs
    case CommitInstall(i, newEpoch) => i in s.installs && s.installs[i].Pending? && newEpoch !in s.epochs
    case RevokeInstall(i) => i in s.installs && s.installs[i].Refused?
  }

  /** A newly published login starts its epoch: remember its first revision, attempt and refresh token. */
  function Begin(s: State, r: Record): State {
    s.(record := Some(r),
       epochs := s.epochs + {r.epoch},
       attempts := s.attempts + (if r.attempt.Some? then {r.attempt.value.id} else {}),
       past := s.past.(firstAttempt := s.past.firstAttempt[Slot(r.epoch, r.revision) := AttemptId(r)],
                       firstRevision := s.past.firstRevision[r.epoch := r.revision],
                       published := s.past.published[Slot(r.epoch, r.revision) := r.refreshToken]))
  }

  function TabStep(s: State, a: TabAction): State
    requires TabEnabled(s, a)
  {
    match a
    case Initialize(legacy, newEpoch) =>
      var next := InitializeSection(s.record, legacy, newEpoch);
      if s.record.Some? || next.None? then s else Begin(s, next.value)
    case Remember(epoch, operator) => s.(record := RememberSection(s.record, epoch, operator))
    case Logout(id, epoch) =>
      s.(record := LogoutSection(s.record, epoch),
         logouts := s.logouts[id := LogoutCall(epoch, s.record.value.accessToken, Queued)])
    case BeginInstall(i, auth, boundary) => s.(installs := s.installs[i := Pending(auth, boundary)])
    case CommitInstall(i, newEpoch) =>
      var Pending(auth, boundary) := s.installs[i];
      var next := InstallSection(s.record, auth, boundary, newEpoch);
      if next.None? then s.(installs := s.installs[i := Refused(auth, boundary)])
      else Begin(s, next.value).(installs := s.installs[i := Installed(boundary, s.record, newEpoch)])
    case RevokeInstall(i) =>
      s.(installs := s.installs[i := Revoked(s.installs[i].auth, s.installs[i].boundary)])
  }

  // ---- logouts ---------------------------------------------------------------

  predicate LogoutEnabled(s: State, id: nat, a: LogoutAction) {
    && id in s.logouts
    && match a
       case TakeLock => s.logouts[id].phase == Queued && s.lock.None?
       case CheckWarning => s.logouts[id].phase == Holding
       case RevokeOld => s.logouts[id].phase == RevokingOld
       case DropLock => s.logouts[id].phase == Closing
  }

  function LogoutStep(s: State, id: nat, a: LogoutAction): State
    requires LogoutEnabled(s, id, a)
  {
    match a
    case TakeLock => s.(lock := Some(LoggingOut(id)), logouts := s.logouts[id := s.logouts[id].(phase := Holding)])
    case CheckWarning =>
      // a renewal that outlived the logout has reported that revocation failed
      var warned := s.record.Some? && s.record.value.epoch == s.logouts[id].epoch &&
                    s.record.value.status == Ended && RecordsFailure(s.record.value);
      s.(logouts := s.logouts[id := s.logouts[id].(phase := if warned then Closing else RevokingOld)])
    case RevokeOld => s.(logouts := s.logouts[id := s.logouts[id].(phase := Closing)])
    case DropLock => s.(lock := None, logouts := s.logouts - {id})
  }

  // ---- renewals --------------------------------------------------------------

  predicate QueueEnabled(s: State, key: Key, a: QueueAction) {
    match a
    case Start(_, _, _) => key !in s.renewals
    case Abort => key in s.renewals && s.renewals[key].phase.Waiting?
    case Acquire => key in s.renewals && s.renewals[key].phase.Waiting? && s.lock.None?
    case Release => key in s.renewals && s.renewals[key].phase.Leaving?
  }

  function QueueStep(s: State, key: Key, a: QueueAction): State
    requires QueueEnabled(s, key, a)
  {
    match a
    case Start(challenged, observed, retry) =>
      s.(renewals := s.renewals[key := Renewal(challenged, observed, retry, Waiting)])
    case Abort => s.(renewals := s.renewals - {key})
    case Acquire => s.(lock := Some(Renewing(key)), renewals := s.renewals[key := s.renewals[key].(phase := Entered)])
    case Release => s.(lock := None, renewals := s.renewals - {key})
  }

  predicate HeldEnabled(s: State, key: Key, a: HeldAction) {
    && key in s.renewals
    && var p := s.renewals[key].phase;
       match a
       case Read => p.Entered?
       case EndMissing => p.EndingUnrefreshable?
       case Send => p.Authorised?
       case Unauthorized => p.InFlight?
       case EndRejected => p.Rejected?
       case Reply(reply) => p.InFlight? && Complete(reply)
       case Fail(_) => p.Authorised? || p.InFlight?
       case Settle(newAttempt) => p.Replied? && Complete(p.reply) && newAttempt !in s.attempts
       case RevokeDone => p.Revoking?
       case RevokeError(_) => p.Revoking?
       case RecordRevokeError(newAttempt) => p.RevokeFailed? && newAttempt !in s.attempts
       case RecordFailure(newAttempt) => p.Failed? && newAttempt !in s.attempts
  }

  function Verdict(s: State, key: Key): Decision
    requires key in s.renewals
  {
    var r := s.renewals[key];
    Decide(s.record, key.epoch, r.challenged, r.observed, r.retry)
  }

  function Grant(s: State, key: Key): Authorisation
    requires key in s.renewals && Verdict(s, key).SendRefresh?
  {
    Authorisation(key, s.renewals[key].challenged, Verdict(s, key).attempt, Verdict(s, key).token)
  }

  predicate WillAccept(s: State, key: Key)
    requires key in s.renewals && s.renewals[key].phase.Replied? && Complete(s.renewals[key].phase.reply)
  {
    Accepts(s.record, key.epoch, s.renewals[key].challenged, s.renewals[key].phase.reply)
  }

  function NextPhase(s: State, key: Key, a: HeldAction): Phase
    requires HeldEnabled(s, key, a)
  {
    var p := s.renewals[key].phase;
    match a
    case Read =>
      (match Verdict(s, key)
       case SendRefresh(_, _) => Authorised(Grant(s, key))
       case NothingToSend => EndingUnrefreshable
       case _ => Leaving)
    case EndMissing => Leaving
    case Send => InFlight(p.auth)
    case Unauthorized => Rejected(p.auth)
    case EndRejected => Leaving
    case Reply(reply) => Replied(p.auth, reply, s.past.replies)
    case Fail(message) => Failed(p.auth, message)
    case Settle(_) => if WillAccept(s, key) then Leaving else Revoking(p.auth, p.reply, p.id)
    case RevokeDone => Leaving
    case RevokeError(message) => RevokeFailed(p.auth, message)
    case RecordRevokeError(_) => Failed(p.auth, p.message)
    case RecordFailure(_) => Leaving
  }

  function NextRecord(s: State, key: Key, a: HeldAction): Option<Record>
    requires HeldEnabled(s, key, a)
  {
    var r := s.renewals[key];
    match a
    case EndMissing => EndIfCurrentSection(s.record, key.epoch)
    case EndRejected => EndIfCurrentAtSection(s.record, key.epoch, r.challenged)
    case Settle(newAttempt) => AcceptSection(s.record, key.epoch, r.challenged, r.phase.reply, newAttempt)
    case RecordRevokeError(newAttempt) => RevocationFailureSection(s.record, key.epoch, r.phase.message, newAttempt)
    case RecordFailure(newAttempt) => FailureSection(s.record, key.epoch, r.challenged, r.phase.message, newAttempt)
    case _ => s.record
  }

  function NewAttempts(a: HeldAction): set<string> {
    if a.Settle? || a.RecordRevokeError? || a.RecordFailure? then {a.newAttempt} else {}
  }

  function NextPast(s: State, key: Key, a: HeldAction): History
    requires HeldEnabled(s, key, a)
  {
    var r := s.renewals[key];
    match a
    case Read =>
      if Verdict(s, key).SendRefresh? then s.past.(authorised := s.past.authorised + [Grant(s, key)]) else s.past
    case Send => s.past.(sent := s.past.sent + [r.phase.auth])
    case Reply(_) => s.past.(replies := s.past.replies + 1)
    case Settle(newAttempt) =>
      if WillAccept(s, key) then
        s.past.(settled := s.past.settled + [PublishedAs(r.phase.id, key.epoch, r.challenged + 1)],
                firstAttempt := s.past.firstAttempt[Slot(key.epoch, r.challenged + 1) := Some(newAttempt)],
                published := s.past.published[Slot(key.epoch, r.challenged + 1) := r.phase.reply.refreshToken])
      else s.past
    case RevokeDone => s.past.(settled := s.past.settled + [HandedToRevoke(r.phase.id)])
    case RevokeError(_) => s.past.(settled := s.past.settled + [HandedToRevoke(r.phase.id)])
    case RecordFailure(newAttempt) =>
      if IsCurrentAt(s.record, key.epoch, r.challenged) then
        s.past.(failures := s.past.failures + {Failure(key.epoch, r.challenged, newAttempt)})
      else s.past
    case _ => s.past
  }

  function HeldStep(s: State, key: Key, a: HeldAction): State
    requires HeldEnabled(s, key, a)
  {
    s.(record := NextRecord(s, key, a),
       attempts := s.attempts + NewAttempts(a),
       renewals := s.renewals[key := s.renewals[key].(phase := NextPhase(s, key, a))],
       past := NextPast(s, key, a))
  }

  // ---- the transition system ---------------------------------------------------

  predicate Enabled(s: State, l: Label) {
    match l
    case ByTab(a) => TabEnabled(s, a)
    case ByLogout(id, a) => LogoutEnabled(s, id, a)
    case ByQueue(key, a) => QueueEnabled(s, key, a)
    case ByHolder(key, a) => HeldEnabled(s, key, a)
  }

  function Apply(s: State, l: Label): State
    requires Enabled(s, l)
  {
    match l
    case ByTab(a) => TabStep(s, a)
    case ByLogout(id, a) => LogoutStep(s, id, a)
    case ByQueue(key, a) => QueueStep(s, key, a)
    case ByHolder(key, a) => HeldStep(s, key, a)
  }

  ghost predicate IsRun(states: seq<State>, labels: seq<Label>) {
    |states| == |labels| + 1 &&
    forall i | 0 <= i < |labels| :: Enabled(states[i], labels[i]) && states[i + 1] == Apply(states[i], labels[i])
  }

  /** A run that starts before any tab has published a record. */
  ghost predicate IsExecution(states: seq<State>, labels: seq<Label>) {
    IsRun(states, labels) && states[0] == InitialState
  }
}
