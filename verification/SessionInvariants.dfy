/** What every step of the session protocol keeps. */
module SessionInvariants {
  import opened Options
  import opened SessionRecords
  import opened SessionProtocol

  predicate HasAuth(p: Phase) {
    p.Authorised? || p.InFlight? || p.Rejected? || p.Replied? || p.Failed? || p.Revoking? || p.RevokeFailed?
  }

  /** The decision behind this phase may not yet have left its mark on the record. */
  predicate Open(p: Phase) {
    p.Authorised? || p.InFlight? || p.Rejected? || p.Replied? || p.Failed?
  }

  predicate InHand(p: Phase) {
    p.Replied? || p.Revoking?
  }

  predicate SameKey(a: Authorisation, b: Authorisation) {
    a.owner.epoch == b.owner.epoch && a.revision == b.revision && a.attempt == b.attempt
  }

  /** The record no longer offers the token under the attempt that `a` used. */
  predicate Retired(s: State, a: Authorisation) {
    IsCurrentAt(s.record, a.owner.epoch, a.revision) ==> AttemptId(s.record.value) != a.attempt
  }

  predicate OpenFor(s: State, a: Authorisation) {
    a.owner in s.renewals && Open(s.renewals[a.owner].phase) && s.renewals[a.owner].phase.auth == a
  }

  predicate EpochIs(s: State, epoch: string) {
    s.record.Some? && s.record.value.epoch == epoch
  }

  // ---- the parts of the invariant ------------------------------------------

  /** Exactly the lock holder is past the queue. */
  ghost predicate LockInv(s: State) {
    && (forall k | k in s.renewals :: !s.renewals[k].phase.Waiting? <==> s.lock == Some(Renewing(k)))
    && (forall i | i in s.logouts :: s.logouts[i].phase != Queued <==> s.lock == Some(LoggingOut(i)))
    && (s.lock.Some? && s.lock.value.Renewing? ==> s.lock.value.key in s.renewals)
    && (s.lock.Some? && s.lock.value.LoggingOut? ==> s.lock.value.id in s.logouts)
  }

  ghost predicate PhaseInv(s: State) {
    forall k | k in s.renewals ::
      && (HasAuth(s.renewals[k].phase) ==>
            && s.renewals[k].phase.auth.owner == k
            && s.renewals[k].phase.auth.revision == s.renewals[k].challenged
            && s.renewals[k].phase.auth in s.past.authorised)
      && (InHand(s.renewals[k].phase) ==> Complete(s.renewals[k].phase.reply))
  }

  ghost predicate UsedInv(s: State) {
    && (s.record.Some? ==> s.record.value.epoch in s.epochs)
    && (s.record.None? ==> s.epochs == {})
    && (s.record.Some? && s.record.value.attempt.Some? ==> s.record.value.attempt.value.id in s.attempts)
    && (forall a | a in s.past.authorised :: a.owner.epoch in s.epochs)
    && (forall a | a in s.past.authorised :: a.attempt.Some? ==> a.attempt.value in s.attempts)
    && (forall a | a in s.past.authorised :: EpochIs(s, a.owner.epoch) ==> a.revision <= s.record.value.revision)
  }

  ghost predicate RetireInv(s: State) {
    forall a | a in s.past.authorised :: Retired(s, a) || OpenFor(s, a)
  }

  ghost predicate DistinctInv(s: State) {
    forall i, j | 0 <= i < j < |s.past.authorised| :: !SameKey(s.past.authorised[i], s.past.authorised[j])
  }

  ghost predicate SentInv(s: State) {
    && (forall a | a in s.past.sent :: a in s.past.authorised)
    && (forall k | k in s.renewals :: s.renewals[k].phase.Authorised? ==> s.renewals[k].phase.auth !in s.past.sent)
    && (forall i, j | 0 <= i < j < |s.past.sent| :: !SameKey(s.past.sent[i], s.past.sent[j]))
  }

  /** An accepted revision is never ahead of the record, nor of a renewal that may still send. */
  ghost predicate AcceptInv(s: State) {
    forall p | p in s.past.settled && p.PublishedAs? ::
      && p.epoch in s.epochs
      && (EpochIs(s, p.epoch) ==> p.revision <= s.record.value.revision)
      && (forall k | k in s.renewals ::
            HasAuth(s.renewals[k].phase) && k.epoch == p.epoch ==> p.revision <= s.renewals[k].challenged)
  }

  predicate KnownAttempt(past: History, epoch: string, revision: int, attempt: Option<string>) {
    && Slot(epoch, revision) in past.firstAttempt
    && (attempt == past.firstAttempt[Slot(epoch, revision)] ||
        (attempt.Some? && Failure(epoch, revision, attempt.value) in past.failures))
  }

  ghost predicate AttemptInv(s: State) {
    && (s.record.Some? && s.record.value.status == Active ==>
          KnownAttempt(s.past, s.record.value.epoch, s.record.value.revision, AttemptId(s.record.value)))
    && (forall a | a in s.past.authorised :: KnownAttempt(s.past, a.owner.epoch, a.revision, a.attempt))
    && (forall t | t in s.past.firstAttempt ::
          t.epoch in s.epochs && (EpochIs(s, t.epoch) ==> t.revision <= s.record.value.revision))
  }

  ghost predicate SettleInv(s: State) {
    && (forall i, j | 0 <= i < j < |s.past.settled| :: s.past.settled[i].id != s.past.settled[j].id)
    && (forall p | p in s.past.settled :: p.id < s.past.replies)
    && (forall k | k in s.renewals && InHand(s.renewals[k].phase) ::
          s.renewals[k].phase.id < s.past.replies && !IsSettled(s, s.renewals[k].phase.id))
    && (forall n: nat | n < s.past.replies :: IsSettled(s, n) || IsInHand(s, n))
  }

  predicate IsSettled(s: State, n: nat) {
    exists p | p in s.past.settled :: p.id == n
  }

  predicate IsInHand(s: State, n: nat) {
    exists k | k in s.renewals :: InHand(s.renewals[k].phase) && s.renewals[k].phase.id == n
  }

  function Renewed(settled: seq<Settlement>, epoch: string): nat {
    if settled == [] then 0
    else
      var last := settled[|settled| - 1];
      Renewed(settled[..|settled| - 1], epoch) + if last.PublishedAs? && last.epoch == epoch then 1 else 0
  }

  /** The revision of a login is its first revision plus the number of its accepted renewals. */
  ghost predicate RevisionInv(s: State) {
    && s.past.firstRevision.Keys == s.epochs
    && (s.record.Some? && s.record.value.epoch in s.past.firstRevision ==>
          s.record.value.revision == s.past.firstRevision[s.record.value.epoch] + Renewed(s.past.settled, s.record.value.epoch))
  }

  ghost predicate InstallInv(s: State) {
    && (forall i | i in s.installs && s.installs[i].Installed? ::
          && s.installs[i].boundary == Boundary(s.installs[i].replaced)
          && s.record.Some?
          && (s.installs[i].replaced.Some? ==>
                && s.installs[i].replaced.value.epoch in s.epochs
                && s.installs[i].replaced.value.epoch != s.record.value.epoch))
    && (forall i, j | i in s.installs && j in s.installs && i != j ::
          s.installs[i].Installed? && s.installs[j].Installed? ==> s.installs[i].boundary != s.installs[j].boundary)
  }

  ghost predicate Inv(s: State) {
    && LockInv(s) && PhaseInv(s) && UsedInv(s) && RetireInv(s) && DistinctInv(s) && SentInv(s)
    && AcceptInv(s) && AttemptInv(s) && SettleInv(s) && RevisionInv(s) && InstallInv(s)
  }

  lemma InitHolds()
    ensures Inv(InitialState)
  {
  }

  // ---- preservation -------------------------------------------------------------

  /** A renewal that has just read the record never repeats an earlier decision. */
  lemma GrantIsNew(s: State, key: Key)
    requires LockInv(s) && PhaseInv(s) && RetireInv(s)
    requires key in s.renewals && s.renewals[key].phase.Entered? && Verdict(s, key).SendRefresh?
    ensures forall a | a in s.past.authorised :: !SameKey(a, Grant(s, key))
  {
    assert forall a | a in s.past.authorised :: Retired(s, a);
  }

  lemma SameKeyIsSame(s: State, a: Authorisation, b: Authorisation)
    requires DistinctInv(s)
    requires a in s.past.authorised && b in s.past.authorised && SameKey(a, b)
    ensures a == b
  {
    var i :| 0 <= i < |s.past.authorised| && s.past.authorised[i] == a;
    var j :| 0 <= j < |s.past.authorised| && s.past.authorised[j] == b;
  }

  /** The reply ledger reads only the renewals and the history. */
  lemma SettleFrame(s: State, s': State)
    requires SettleInv(s)
    requires s'.past.settled == s.past.settled && s'.past.replies == s.past.replies && s'.renewals == s.renewals
    ensures SettleInv(s')
  {
    assert forall n: nat :: IsSettled(s', n) == IsSettled(s, n);
    assert forall n: nat :: IsInHand(s', n) == IsInHand(s, n);
  }

  lemma LogoutKeepsLock(s: State, id: nat, a: LogoutAction)
    requires LockInv(s) && LogoutEnabled(s, id, a)
    ensures LockInv(LogoutStep(s, id, a))
  {
  }

  /** Apart from `LockInv` no part of the invariant reads the lock or the logouts. */
  lemma LockFrame(s: State, s': State)
    requires Inv(s) && LockInv(s') && s' == s.(lock := s'.lock, logouts := s'.logouts)
    ensures Inv(s')
  {
    SettleFrame(s, s');
  }

  lemma LogoutKeeps(s: State, id: nat, a: LogoutAction)
    requires Inv(s) && LogoutEnabled(s, id, a)
    ensures Inv(LogoutStep(s, id, a))
  {
    LogoutKeepsLock(s, id, a);
    LockFrame(s, LogoutStep(s, id, a));
  }

  lemma QueueKeepsLock(s: State, key: Key, a: QueueAction)
    requires LockInv(s) && QueueEnabled(s, key, a)
    ensures LockInv(QueueStep(s, key, a))
  {
  }

  lemma QueueKeepsPhases(s: State, key: Key, a: QueueAction)
    requires PhaseInv(s) && RetireInv(s) && SentInv(s) && AcceptInv(s) && QueueEnabled(s, key, a)
    ensures var s' := QueueStep(s, key, a);
            PhaseInv(s') && RetireInv(s') && SentInv(s') && AcceptInv(s')
  {
  }

  lemma QueueKeepsSettlements(s: State, key: Key, a: QueueAction)
    requires SettleInv(s) && QueueEnabled(s, key, a)
    ensures SettleInv(QueueStep(s, key, a))
  {
    var s' := QueueStep(s, key, a);
    forall n: nat | n < s'.past.replies && !IsSettled(s', n)
      ensures IsInHand(s', n)
    {
      assert !IsSettled(s, n);
      var k :| k in s.renewals && InHand(s.renewals[k].phase) && s.renewals[k].phase.id == n;
      assert k in s'.renewals;
    }
    assert forall n: nat | IsSettled(s', n) :: IsSettled(s, n);
  }

  lemma QueueFrame(s: State, key: Key, a: QueueAction)
    requires QueueEnabled(s, key, a)
    ensures var s' := QueueStep(s, key, a); s' == s.(lock := s'.lock, renewals := s'.renewals)
  {
  }

  /** A tab leaves the renewals, the renewal lock and the record of decisions and requests alone. */
  lemma TabFrame(s: State, a: TabAction)
    requires TabEnabled(s, a)
    ensures var s' := TabStep(s, a);
            && s'.renewals == s.renewals && s'.lock == s.lock
            && s'.past == s.past.(firstAttempt := s'.past.firstAttempt, firstRevision := s'.past.firstRevision,
                                  published := s'.past.published)
  {
  }

  lemma TabKeepsPhases(s: State, a: TabAction)
    requires LockInv(s) && PhaseInv(s) && DistinctInv(s) && SentInv(s) && TabEnabled(s, a)
    ensures var s' := TabStep(s, a);
            LockInv(s') && PhaseInv(s') && DistinctInv(s') && SentInv(s')
  {
    TabFrame(s, a);
  }

  lemma TabKeepsUses(s: State, a: TabAction)
    requires UsedInv(s) && RetireInv(s) && TabEnabled(s, a)
    ensures UsedInv(TabStep(s, a)) && RetireInv(TabStep(s, a))
  {
    TabFrame(s, a);
    match a
    case Initialize(_, _) =>
    case Remember(_, _) =>
    case Logout(_, _) =>
    case BeginInstall(_, _, _) =>
    case CommitInstall(_, _) =>
    case RevokeInstall(_) =>
  }

  /** No renewal of an unused epoch has been accepted. */
  lemma UnusedIsUnrenewed(settled: seq<Settlement>, epoch: string)
    requires forall p | p in settled && p.PublishedAs? :: p.epoch != epoch
    ensures Renewed(settled, epoch) == 0
  {
    if settled != [] {
      UnusedIsUnrenewed(settled[..|settled| - 1], epoch);
    }
  }

  lemma TabKeepsLogs(s: State, a: TabAction)
    requires UsedInv(s) && AcceptInv(s) && AttemptInv(s) && TabEnabled(s, a)
    ensures AcceptInv(TabStep(s, a)) && AttemptInv(TabStep(s, a))
  {
    TabFrame(s, a);
    match a
    case Initialize(_, _) =>
    case Remember(_, _) =>
    case Logout(_, _) =>
    case BeginInstall(_, _, _) =>
    case CommitInstall(_, _) =>
    case RevokeInstall(_) =>
  }

  lemma TabKeepsRevisions(s: State, a: TabAction)
    requires UsedInv(s) && AcceptInv(s) && RevisionInv(s) && TabEnabled(s, a)
    ensures RevisionInv(TabStep(s, a))
  {
    var s' := TabStep(s, a);
    TabFrame(s, a);
    if s'.record.Some? && s'.record.value.epoch !in s.epochs {
      UnusedIsUnrenewed(s.past.settled, s'.record.value.epoch);
    }
  }

  lemma TabKeepsInstalls(s: State, a: TabAction)
    requires UsedInv(s) && InstallInv(s) && TabEnabled(s, a)
    ensures InstallInv(TabStep(s, a))
  {
    match a
    case Initialize(_, _) =>
    case Remember(_, _) =>
    case Logout(_, _) =>
    case BeginInstall(_, _, _) =>
    case RevokeInstall(_) =>
    case CommitInstall(i, _) =>
      if Boundary(s.record) == s.installs[i].boundary {
        forall j | j in s.installs && s.installs[j].Installed?
          ensures s.installs[j].boundary != s.installs[i].boundary
        {
          if s.installs[j].boundary == s.installs[i].boundary {
            BoundaryIsInjective(s.record, s.installs[j].replaced);
          }
        }
      }
  }

  lemma HeldKeepsLock(s: State, key: Key, a: HeldAction)
    requires LockInv(s) && HeldEnabled(s, key, a)
    ensures LockInv(HeldStep(s, key, a))
  {
  }

  lemma HeldKeepsPhases(s: State, key: Key, a: HeldAction)
    requires PhaseInv(s) && HeldEnabled(s, key, a)
    ensures PhaseInv(HeldStep(s, key, a))
  {
  }

  lemma HeldKeepsUses(s: State, key: Key, a: HeldAction)
    requires UsedInv(s) && InstallInv(s) && HeldEnabled(s, key, a)
    ensures UsedInv(HeldStep(s, key, a)) && InstallInv(HeldStep(s, key, a))
  {
  }

  lemma HeldRetires(s: State, key: Key, a: HeldAction)
    requires LockInv(s) && PhaseInv(s) && UsedInv(s) && RetireInv(s) && HeldEnabled(s, key, a)
    ensures RetireInv(HeldStep(s, key, a))
  {
  }

  lemma HeldKeepsDistinct(s: State, key: Key, a: HeldAction)
    requires LockInv(s) && PhaseInv(s) && RetireInv(s) && DistinctInv(s) && HeldEnabled(s, key, a)
    ensures DistinctInv(HeldStep(s, key, a))
  {
    if a.Read? && Verdict(s, key).SendRefresh? {
      GrantIsNew(s, key);
    } else {
      assert HeldStep(s, key, a).past.authorised == s.past.authorised;
    }
  }

  lemma HeldKeepsSent(s: State, key: Key, a: HeldAction)
    requires LockInv(s) && PhaseInv(s) && RetireInv(s) && DistinctInv(s) && SentInv(s) && HeldEnabled(s, key, a)
    ensures SentInv(HeldStep(s, key, a))
  {
    var s' := HeldStep(s, key, a);
    if a.Read? && Verdict(s, key).SendRefresh? {
      GrantIsNew(s, key);
      assert SameKey(Grant(s, key), Grant(s, key));
    } else if a.Send? {
      var auth := s.renewals[key].phase.auth;
      forall b | b in s.past.sent
        ensures !SameKey(b, auth)
      {
        if SameKey(b, auth) {
          SameKeyIsSame(s, b, auth);
        }
      }
      assert forall k | k in s'.renewals :: s'.renewals[k].phase.Authorised? ==> s'.lock == Some(Renewing(k)) && k != key;
    } else {
      assert s'.past.sent == s.past.sent && s'.past.authorised == s.past.authorised;
    }
  }

  lemma HeldKeepsAccepted(s: State, key: Key, a: HeldAction)
    requires LockInv(s) && UsedInv(s) && AcceptInv(s) && HeldEnabled(s, key, a)
    ensures AcceptInv(HeldStep(s, key, a))
  {
  }

  lemma HeldKeepsAttempts(s: State, key: Key, a: HeldAction)
    requires UsedInv(s) && AttemptInv(s) && HeldEnabled(s, key, a)
    ensures AttemptInv(HeldStep(s, key, a))
  {
    match a
    case Read =>
    case Settle(_) =>
    case RecordFailure(_) =>
    case _ => assert HeldStep(s, key, a).past.authorised == s.past.authorised;
  }

  /** The ledger gains at most one entry, for the reply that the lock holder had in hand. */
  lemma HeldSettlesOwnReply(s: State, key: Key, a: HeldAction)
    requires LockInv(s) && HeldEnabled(s, key, a)
    ensures var s' := HeldStep(s, key, a);
            var p := s.renewals[key].phase;
            || (s'.past.settled == s.past.settled && InHand(s'.renewals[key].phase) == (InHand(p) || a.Reply?)
                && (InHand(p) ==> s'.renewals[key].phase.id == p.id))
            || (InHand(p) && !InHand(s'.renewals[key].phase) && |s'.past.settled| == |s.past.settled| + 1
                && s'.past.settled[..|s.past.settled|] == s.past.settled && s'.past.settled[|s.past.settled|].id == p.id)
    ensures forall k | k in s.renewals && InHand(s.renewals[k].phase) :: k == key
  {
  }

  lemma HeldKeepsReply(s: State, key: Key, a: HeldAction, n: nat)
    requires LockInv(s) && SettleInv(s) && HeldEnabled(s, key, a) && n < HeldStep(s, key, a).past.replies
    ensures IsSettled(HeldStep(s, key, a), n) || IsInHand(HeldStep(s, key, a), n)
  {
    var s' := HeldStep(s, key, a);
    HeldSettlesOwnReply(s, key, a);
    if n == s.past.replies {
      assert InHand(s'.renewals[key].phase);
    } else if IsSettled(s, n) {
      var p :| p in s.past.settled && p.id == n;
      assert p in s'.past.settled;
    } else {
      assert InHand(s.renewals[key].phase) && s.renewals[key].phase.id == n;
      assert InHand(s'.renewals[key].phase) || s'.past.settled[|s.past.settled|] in s'.past.settled;
    }
  }

  lemma HeldKeepsHands(s: State, key: Key, a: HeldAction, k: Key)
    requires LockInv(s) && SettleInv(s) && HeldEnabled(s, key, a)
    requires k in HeldStep(s, key, a).renewals && InHand(HeldStep(s, key, a).renewals[k].phase)
    ensures var s' := HeldStep(s, key, a);
            s'.renewals[k].phase.id < s'.past.replies && !IsSettled(s', s'.renewals[k].phase.id)
  {
    HeldSettlesOwnReply(s, key, a);
  }

  lemma HeldKeepsSettlements(s: State, key: Key, a: HeldAction)
    requires LockInv(s) && SettleInv(s) && HeldEnabled(s, key, a)
    ensures SettleInv(HeldStep(s, key, a))
  {
    var s' := HeldStep(s, key, a);
    HeldSettlesOwnReply(s, key, a);
    forall n: nat | n < s'.past.replies
      ensures IsSettled(s', n) || IsInHand(s', n)
    {
      HeldKeepsReply(s, key, a, n);
    }
    forall k | k in s'.renewals && InHand(s'.renewals[k].phase)
      ensures s'.renewals[k].phase.id < s'.past.replies && !IsSettled(s', s'.renewals[k].phase.id)
    {
      HeldKeepsHands(s, key, a, k);
    }
  }

  lemma HeldKeepsRevisions(s: State, key: Key, a: HeldAction)
    requires UsedInv(s) && RevisionInv(s) && HeldEnabled(s, key, a)
    ensures RevisionInv(HeldStep(s, key, a))
  {
  }

  /** Every step keeps the whole invariant. */
  lemma StepKeepsInv(s: State, l: Label)
    requires Inv(s) && Enabled(s, l)
    ensures Inv(Apply(s, l))
  {
    match l
    case ByLogout(id, a) =>
      LogoutKeeps(s, id, a);
    case ByTab(a) =>
      TabKeepsPhases(s, a);
      TabKeepsUses(s, a);
      TabKeepsLogs(s, a);
      TabKeepsRevisions(s, a);
      TabKeepsInstalls(s, a);
      TabFrame(s, a);
      SettleFrame(s, TabStep(s, a));
    case ByQueue(key, a) =>
      QueueKeepsLock(s, key, a);
      QueueKeepsPhases(s, key, a);
      QueueKeepsSettlements(s, key, a);
      QueueFrame(s, key, a);
    case ByHolder(key, a) =>
      HeldKeepsLock(s, key, a);
      HeldKeepsPhases(s, key, a);
      HeldKeepsUses(s, key, a);
      HeldRetires(s, key, a);
      HeldKeepsDistinct(s, key, a);
      HeldKeepsSent(s, key, a);
      HeldKeepsAccepted(s, key, a);
      HeldKeepsAttempts(s, key, a);
      HeldKeepsSettlements(s, key, a);
      HeldKeepsRevisions(s, key, a);
  }

  lemma {:induction false} ExecutionKeepsInv(states: seq<State>, labels: seq<Label>, i: nat)
    requires IsExecution(states, labels) && i < |states|
    ensures Inv(states[i])
  {
    if i == 0 {
      InitHolds();
    } else {
      ExecutionKeepsInv(states, labels, i - 1);
      StepKeepsInv(states[i - 1], labels[i - 1]);
    }
  }
}
