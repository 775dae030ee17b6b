/** What the session protocol guarantees over whole executions. */
module SessionRuns {
  import opened Options
  import opened SessionRecords
  import opened SessionProtocol
  import opened SessionInvariants

  // ---- the record only moves forward ---------------------------------------------

  /** How a login may change while it stays the same login. */
  predicate SameLoginAdvances(r: Record, r': Record) {
    && (r.status == Ended ==>
          && r'.status == Ended && r'.operator == r.operator
          && r'.accessToken == r.accessToken && r'.refreshToken == r.refreshToken)
    && (r.status == Active && r'.status == Ended ==> r'.accessToken == "" && r'.refreshToken == "" && r'.operator.None?)
    && r.revision <= r'.revision
    && (r'.status == Active && r.revision == r'.revision ==>
          r.accessToken == r'.accessToken && r.refreshToken == r'.refreshToken)
    && (r'.status == Active && r.operator.Some? ==>
          r'.operator.Some? && r.operator.value.id == r'.operator.value.id)
  }

  predicate Advances(s: State, s': State) {
    && s.epochs <= s'.epochs
    && (s.record.Some? ==>
          && s'.record.Some?
          && (s'.record.value.epoch !in s.epochs ||
              (s'.record.value.epoch == s.record.value.epoch && SameLoginAdvances(s.record.value, s'.record.value))))
  }

  lemma HeldAdvances(s: State, key: Key, a: HeldAction)
    requires HeldEnabled(s, key, a)
    ensures Advances(s, HeldStep(s, key, a))
  {
  }

  lemma StepAdvances(s: State, l: Label)
    requires Enabled(s, l)
    ensures Advances(s, Apply(s, l))
  {
    match l
    case ByTab(a) =>
    case ByLogout(_, _) =>
    case ByQueue(_, _) =>
    case ByHolder(key, a) => HeldAdvances(s, key, a);
  }

  lemma AdvancesIsTransitive(r: State, s: State, t: State)
    requires Advances(r, s) && Advances(s, t)
    ensures Advances(r, t)
  {
  }

  ghost predicate AdvancesAt(states: seq<State>, i: nat) {
    i + 1 < |states| && Advances(states[i], states[i + 1])
  }

  lemma NextAdvances(states: seq<State>, labels: seq<Label>, i: nat)
    requires IsRun(states, labels) && i + 1 < |states|
    ensures AdvancesAt(states, i)
  {
    StepAdvances(states[i], labels[i]);
  }

  lemma {:induction false} ChainAdvances(states: seq<State>, i: nat, j: nat)
    requires i <= j < |states| && forall k: nat | i <= k < j :: AdvancesAt(states, k)
    ensures Advances(states[i], states[j])
    decreases j
  {
    if i < j {
      ChainAdvances(states, i, j - 1);
      assert AdvancesAt(states, j - 1);
      AdvancesIsTransitive(states[i], states[j - 1], states[j]);
    }
  }

  lemma RunAdvances(states: seq<State>, labels: seq<Label>, i: nat, j: nat)
    requires IsRun(states, labels) && i <= j < |states|
    ensures Advances(states[i], states[j])
  {
    forall k: nat | i <= k < j
      ensures AdvancesAt(states, k)
    {
      NextAdvances(states, labels, k);
    }
    ChainAdvances(states, i, j);
  }

  /** While one login stays active, its revision never falls, (epoch, revision) fixes the token
      pair, and a bound operator id stays bound. A login that ends loses its tokens and its operator,
      and an ended login stays ended. */
  lemma LoginIsStable(states: seq<State>, labels: seq<Label>, i: nat, j: nat)
    requires IsExecution(states, labels) && i <= j < |states|
    requires states[i].record.Some? && states[j].record.Some?
    requires states[i].record.value.epoch == states[j].record.value.epoch
    ensures SameLoginAdvances(states[i].record.value, states[j].record.value)
  {
    RunAdvances(states, labels, i, j);
    ExecutionKeepsInv(states, labels, i);
  }

  /** The revision of the current login is its first revision plus one for each accepted renewal. */
  lemma RevisionCountsRenewals(states: seq<State>, labels: seq<Label>, i: nat)
    requires IsExecution(states, labels) && i < |states| && states[i].record.Some?
    ensures var s := states[i];
            && s.record.value.epoch in s.past.firstRevision
            && s.record.value.revision ==
               s.past.firstRevision[s.record.value.epoch] + Renewed(s.past.settled, s.record.value.epoch)
  {
    ExecutionKeepsInv(states, labels, i);
  }

  // ---- login boundaries ------------------------------------------------------------

  /** Once the boundary has moved on, it never comes back: no ABA. */
  lemma BoundaryNeverRecurs(states: seq<State>, labels: seq<Label>, i: nat, j: nat, k: nat)
    requires IsExecution(states, labels) && i <= j <= k < |states|
    requires Boundary(states[i].record) != Boundary(states[j].record)
    ensures Boundary(states[i].record) != Boundary(states[k].record)
  {
    RunAdvances(states, labels, i, j);
    RunAdvances(states, labels, j, k);
    ExecutionKeepsInv(states, labels, i);
    ExecutionKeepsInv(states, labels, j);
    if Boundary(states[i].record) == Boundary(states[k].record) {
      BoundaryIsInjective(states[i].record, states[k].record);
    }
  }

  /** A login that has ended or been replaced is never the active one again. */
  lemma EndedStaysEnded(states: seq<State>, labels: seq<Label>, i: nat, j: nat, epoch: string)
    requires IsExecution(states, labels) && i <= j < |states|
    requires epoch in states[i].epochs && !IsCurrent(states[i].record, epoch)
    ensures epoch in states[j].epochs && !IsCurrent(states[j].record, epoch)
  {
    RunAdvances(states, labels, i, j);
    ExecutionKeepsInv(states, labels, i);
  }

  /** Of all installations that captured the same boundary at most one publishes. */
  lemma OneInstallPerBoundary(states: seq<State>, labels: seq<Label>, i: nat, m: nat, n: nat)
    requires IsExecution(states, labels) && i < |states|
    requires m in states[i].installs && n in states[i].installs
    requires states[i].installs[m].Installed? && states[i].installs[n].Installed?
    requires states[i].installs[m].boundary == states[i].installs[n].boundary
    ensures m == n
  {
    ExecutionKeepsInv(states, labels, i);
  }

  /** How far an installation has got: it publishes or is refused, and a refused one only revokes. */
  predicate InstallAdvances(x: Install, y: Install) {
    match x
    case Pending(auth, boundary) =>
      y == x || (y.Installed? && y.boundary == boundary) || y == Refused(auth, boundary) || y == Revoked(auth, boundary)
    case Installed(_, _, _) => y == x
    case Refused(auth, boundary) => y == x || y == Revoked(auth, boundary)
    case Revoked(_, _) => y == x
  }

  lemma InstallStepAdvances(s: State, l: Label, m: nat)
    requires Enabled(s, l) && m in s.installs
    ensures m in Apply(s, l).installs && InstallAdvances(s.installs[m], Apply(s, l).installs[m])
  {
    if !l.ByTab? {
      assert Apply(s, l).installs == s.installs;
    }
  }

  /** An installation that was refused never publishes; its token can only be handed to revoke. */
  lemma {:induction false} InstallOutcomeIsFinal(states: seq<State>, labels: seq<Label>, i: nat, j: nat, m: nat)
    requires IsRun(states, labels) && i <= j < |states| && m in states[i].installs
    ensures m in states[j].installs && InstallAdvances(states[i].installs[m], states[j].installs[m])
    decreases j
  {
    if i < j {
      InstallOutcomeIsFinal(states, labels, i, j - 1, m);
      InstallStepAdvances(states[j - 1], labels[j - 1], m);
    }
  }

  /** Initializing adopts what an older release left, but never over a canonical record. */
  lemma InitializeAdopts(s: State, legacy: Legacy, newEpoch: string)
    requires TabEnabled(s, Initialize(legacy, newEpoch))
    ensures var next := TabStep(s, Initialize(legacy, newEpoch)).record;
            if s.record.Some? then next == s.record
            else match legacy
              case Snapshot(r) => next == Some(r)
              case Tokens(access, refresh) =>
                if access == "" && refresh == "" then next == None
                else IsCurrentAt(next, newEpoch, 0) && next.value.accessToken == access && next.value.refreshToken == refresh
                     && next.value.operator.None? && next.value.attempt.None?
  {
  }

  /** Logging out ends the active login, clears it, and keeps its access token for revocation. */
  lemma LogoutEnds(s: State, id: nat, epoch: string)
    requires TabEnabled(s, Logout(id, epoch))
    ensures var s' := TabStep(s, Logout(id, epoch));
            && s'.logouts[id] == LogoutCall(epoch, s.record.value.accessToken, Queued)
            && s'.record.Some? && s'.record.value.epoch == epoch && s'.record.value.status == Ended
            && s'.record.value.revision == s.record.value.revision
            && (s.record.value.status == Active ==>
                  && s'.record.value.accessToken == "" && s'.record.value.refreshToken == ""
                  && s'.record.value.operator.None? && s'.record.value.attempt.None?)
            && (s.record.value.status == Ended ==> s'.record == s.record)
  {
  }

  /** Remembering an operator binds this operator to the current login if none is bound, and changes nothing else. */
  lemma RememberBinds(s: State, epoch: string, operator: Operator)
    ensures var r, r' := s.record, TabStep(s, Remember(epoch, operator)).record;
            if r.Some? && r.value.status == Active && r.value.epoch == epoch && r.value.operator.None?
            then r' == Some(Record(epoch, Active, r.value.revision, r.value.accessToken, r.value.refreshToken, Some(operator), r.value.attempt))
            else r' == r
  {
  }

  /** Committing an installation publishes exactly when its boundary is still the current one. */
  lemma CommitPublishesIffUnmoved(s: State, m: nat, newEpoch: string)
    requires TabEnabled(s, CommitInstall(m, newEpoch))
    ensures var s' := TabStep(s, CommitInstall(m, newEpoch));
            if Boundary(s.record) == s.installs[m].boundary
            then && s'.installs[m].Installed? && IsCurrentAt(s'.record, newEpoch, 0)
                 && s'.record.value.accessToken == s.installs[m].auth.accessToken
                 && s'.record.value.refreshToken == s.installs[m].auth.refreshToken
                 && s'.record.value.operator == s.installs[m].auth.operator
            else s'.installs[m].Refused? && s'.record == s.record
  {
  }

  // ---- refresh requests --------------------------------------------------------------

  /** Only the holder of the renewal lock sends, and never a token whose revision was already renewed. */
  lemma SendsAreExclusive(states: seq<State>, labels: seq<Label>, i: nat, key: Key)
    requires IsExecution(states, labels) && i < |labels| && labels[i] == ByHolder(key, Send)
    ensures states[i].lock == Some(Renewing(key))
    ensures forall p | p in states[i].past.settled && p.PublishedAs? && p.epoch == key.epoch ::
              p.revision <= states[i].renewals[key].challenged
    ensures states[i + 1].past.sent == states[i].past.sent + [states[i].renewals[key].phase.auth]
    ensures states[i].renewals[key].phase.auth.owner == key
  {
    ExecutionKeepsInv(states, labels, i);
  }

  function CountAt(log: seq<Authorisation>, epoch: string, revision: int): nat {
    if log == [] then 0
    else
      var last := log[|log| - 1];
      CountAt(log[..|log| - 1], epoch, revision) + if last.owner.epoch == epoch && last.revision == revision then 1 else 0
  }

  ghost function AttemptsAt(log: seq<Authorisation>, epoch: string, revision: int): set<Option<string>> {
    set a | a in log && a.owner.epoch == epoch && a.revision == revision :: a.attempt
  }

  /** The ids of the failed attempts published while (epoch, revision) was current. */
  function FailedAttempts(s: State, epoch: string, revision: int): set<Option<string>> {
    set f | f in s.past.failures && f.epoch == epoch && f.revision == revision :: Some(f.attempt)
  }

  lemma {:induction false} DistinctSendsCount(log: seq<Authorisation>, epoch: string, revision: int)
    requires forall i, j | 0 <= i < j < |log| :: !SameKey(log[i], log[j])
    ensures CountAt(log, epoch, revision) == |AttemptsAt(log, epoch, revision)|
  {
    if log == [] {
      assert AttemptsAt(log, epoch, revision) == {};
    } else {
      var front, last := log[..|log| - 1], log[|log| - 1];
      DistinctSendsCount(front, epoch, revision);
      assert forall a | a in log :: a in front || a == last;
      if last.owner.epoch == epoch && last.revision == revision {
        assert last.attempt !in AttemptsAt(front, epoch, revision);
        assert AttemptsAt(log, epoch, revision) == AttemptsAt(front, epoch, revision) + {last.attempt};
      } else {
        assert AttemptsAt(log, epoch, revision) == AttemptsAt(front, epoch, revision);
      }
    }
  }

  lemma {:induction false} SubsetSize<T>(a: set<T>, b: set<T>)
    requires a <= b
    ensures |a| <= |b|
  {
    if a != {} {
      var x :| x in a;
      SubsetSize(a - {x}, b - {x});
    }
  }

  /** The refresh token of one (epoch, revision) is sent once, plus at most once for each failed
      attempt that was published for it; no two of these requests use the same recorded attempt. */
  lemma SendsAreCounted(states: seq<State>, labels: seq<Label>, i: nat, epoch: string, revision: int)
    requires IsExecution(states, labels) && i < |states|
    ensures forall m, n | 0 <= m < n < |states[i].past.sent| :: !SameKey(states[i].past.sent[m], states[i].past.sent[n])
    ensures CountAt(states[i].past.sent, epoch, revision) <= 1 + |FailedAttempts(states[i], epoch, revision)|
  {
    ExecutionKeepsInv(states, labels, i);
    var s := states[i];
    DistinctSendsCount(s.past.sent, epoch, revision);
    var used, failed := AttemptsAt(s.past.sent, epoch, revision), FailedAttempts(s, epoch, revision);
    if used != {} {
      var first := s.past.firstAttempt[Slot(epoch, revision)];
      forall t | t in used
        ensures t in {first} + failed
      {
        var a :| a in s.past.sent && a.owner.epoch == epoch && a.revision == revision && a.attempt == t;
        if t != first {
          assert Failure(epoch, revision, t.value) in s.past.failures;
        }
      }
      SubsetSize(used, {first} + failed);
    }
  }

  // ---- requests after a login has ended ------------------------------------------------

  predicate Dormant(s: State, epoch: string) {
    epoch in s.epochs && !IsCurrent(s.record, epoch)
  }

  /** A renewal of this login has decided to send but its request has not left yet. */
  ghost predicate SendOutstanding(s: State, epoch: string) {
    exists k | k in s.renewals :: k.epoch == epoch && s.renewals[k].phase.Authorised?
  }

  function CountOf(log: seq<Authorisation>, epoch: string): nat {
    if log == [] then 0
    else CountOf(log[..|log| - 1], epoch) + if log[|log| - 1].owner.epoch == epoch then 1 else 0
  }

  ghost function Budget(s: State, epoch: string): nat {
    CountOf(s.past.sent, epoch) + if SendOutstanding(s, epoch) then 1 else 0
  }

  lemma DormantHeldStep(s: State, key: Key, a: HeldAction, epoch: string)
    requires LockInv(s) && PhaseInv(s) && HeldEnabled(s, key, a) && Dormant(s, epoch)
    ensures var s' := HeldStep(s, key, a);
            && CountOf(s.past.sent, epoch) <= CountOf(s'.past.sent, epoch) && Budget(s', epoch) <= Budget(s, epoch)
            && CountOf(s'.past.authorised, epoch) == CountOf(s.past.authorised, epoch)
  {
    var s' := HeldStep(s, key, a);
    assert forall k | k in s.renewals && s.renewals[k].phase.Authorised? :: s.lock == Some(Renewing(k));
    assert s.lock == Some(Renewing(key));
    assert forall k | k in s'.renewals && s'.renewals[k].phase.Authorised? :: k == key;
    assert SendOutstanding(s', epoch) ==> a.Read? && key.epoch == epoch;
    assert a.Send? && key.epoch == epoch ==> SendOutstanding(s, epoch);
  }

  lemma QueueKeepsBudget(s: State, l: Label, epoch: string)
    requires Enabled(s, l) && l.ByQueue?
    ensures Apply(s, l).past.sent == s.past.sent && Apply(s, l).past.authorised == s.past.authorised
    ensures Budget(Apply(s, l), epoch) <= Budget(s, epoch)
  {
    assert SendOutstanding(Apply(s, l), epoch) ==> SendOutstanding(s, epoch);
  }

  lemma TabKeepsBudget(s: State, l: Label, epoch: string)
    requires Enabled(s, l) && (l.ByTab? || l.ByLogout?)
    ensures Apply(s, l).past.sent == s.past.sent && Apply(s, l).past.authorised == s.past.authorised
    ensures Budget(Apply(s, l), epoch) == Budget(s, epoch)
  {
    if l.ByTab? {
      TabFrame(s, l.tab);
    }
  }

  lemma DormantStep(s: State, l: Label, epoch: string)
    requires Inv(s) && Enabled(s, l) && Dormant(s, epoch)
    ensures var s' := Apply(s, l);
            && Dormant(s', epoch)
            && CountOf(s.past.sent, epoch) <= CountOf(s'.past.sent, epoch) && Budget(s', epoch) <= Budget(s, epoch)
            && CountOf(s'.past.authorised, epoch) == CountOf(s.past.authorised, epoch)
  {
    StepAdvances(s, l);
    match l
    case ByHolder(key, a) => DormantHeldStep(s, key, a, epoch);
    case ByTab(_) => TabKeepsBudget(s, l, epoch);
    case ByLogout(_, _) => TabKeepsBudget(s, l, epoch);
    case ByQueue(_, _) => QueueKeepsBudget(s, l, epoch);
  }

  lemma DormantNext(s: State, l: Label, s': State, epoch: string)
    requires Inv(s) && Enabled(s, l) && Dormant(s, epoch) && s' == Apply(s, l)
    ensures Inv(s') && Dormant(s', epoch)
    ensures CountOf(s.past.sent, epoch) <= CountOf(s'.past.sent, epoch) && Budget(s', epoch) <= Budget(s, epoch)
    ensures CountOf(s'.past.authorised, epoch) == CountOf(s.past.authorised, epoch)
  {
    DormantStep(s, l, epoch);
    StepKeepsInv(s, l);
  }

  lemma {:induction false} DormantRun(states: seq<State>, labels: seq<Label>, i: nat, epoch: string)
    requires IsRun(states, labels) && Inv(states[0]) && Dormant(states[0], epoch) && i < |states|
    ensures Inv(states[i]) && Dormant(states[i], epoch)
    ensures CountOf(states[0].past.sent, epoch) <= CountOf(states[i].past.sent, epoch)
    ensures Budget(states[i], epoch) <= Budget(states[0], epoch)
    ensures CountOf(states[i].past.authorised, epoch) == CountOf(states[0].past.authorised, epoch)
  {
    if i > 0 {
      DormantRun(states, labels, i - 1, epoch);
      DormantNext(states[i - 1], labels[i - 1], states[i], epoch);
    }
  }

  /** From a state where the login is over, no further request is decided on, and at most the one
      whose decision was already taken still leaves. */
  lemma NoNewSendsAfterEnd(states: seq<State>, labels: seq<Label>, i: nat, j: nat, epoch: string)
    requires IsExecution(states, labels) && i <= j < |states| && Dormant(states[i], epoch)
    ensures CountOf(states[j].past.authorised, epoch) == CountOf(states[i].past.authorised, epoch)
    ensures CountOf(states[j].past.sent, epoch) <=
            CountOf(states[i].past.sent, epoch) + if SendOutstanding(states[i], epoch) then 1 else 0
  {
    ExecutionKeepsInv(states, labels, i);
    DormantRun(states[i..], labels[i..], j - i, epoch);
  }

  ghost predicate CanStillSend(s: State, epoch: string) {
    exists states: seq<State>, labels: seq<Label> ::
      IsRun(states, labels) && states[0] == s && CountOf(states[|labels|].past.sent, epoch) > CountOf(s.past.sent, epoch)
  }

  lemma OutstandingCanSend(s: State, epoch: string)
    requires SendOutstanding(s, epoch) && PhaseInv(s)
    ensures CanStillSend(s, epoch)
  {
    var k :| k in s.renewals && k.epoch == epoch && s.renewals[k].phase.Authorised?;
    var l := ByHolder(k, Send);
    var s' := Apply(s, l);
    assert s'.past.sent[..|s.past.sent|] == s.past.sent;
    var states, labels := [s, s'], [l];
    assert IsRun(states, labels) && CountOf(states[|labels|].past.sent, epoch) > CountOf(s.past.sent, epoch);
  }

  /** A request for a login that is over can still leave exactly when its decision was outstanding. */
  lemma LateSendIff(s: State, epoch: string)
    requires Inv(s) && Dormant(s, epoch)
    ensures CanStillSend(s, epoch) <==> SendOutstanding(s, epoch)
  {
    if SendOutstanding(s, epoch) {
      OutstandingCanSend(s, epoch);
    }
    if CanStillSend(s, epoch) {
      var states: seq<State>, labels: seq<Label> :| IsRun(states, labels) && states[0] == s &&
        CountOf(states[|labels|].past.sent, epoch) > CountOf(s.past.sent, epoch);
      DormantRun(states, labels, |labels|, epoch);
    }
  }

  lemma ExtendRun(states: seq<State>, labels: seq<Label>, l: Label)
    requires IsRun(states, labels) && Enabled(states[|labels|], l)
    ensures IsRun(states + [Apply(states[|labels|], l)], labels + [l])
  {
    var states', labels' := states + [Apply(states[|labels|], l)], labels + [l];
    forall i | 0 <= i < |labels'|
      ensures Enabled(states'[i], labels'[i]) && states'[i + 1] == Apply(states'[i], labels'[i])
    {
      assert i < |labels| ==> states'[i] == states[i] && labels'[i] == labels[i] && states'[i + 1] == states[i + 1];
    }
  }

  /** One tab signs in from stored tokens, takes the renewal lock and decides to send. */
  lemma DecidingRun(k: Key) returns (states: seq<State>, labels: seq<Label>)
    ensures IsExecution(states, labels) && |labels| == 4
    ensures k in states[4].renewals && states[4].renewals[k].phase.Authorised?
    ensures IsCurrent(states[4].record, k.epoch) && k.epoch in states[4].epochs && states[4].logouts == map[]
  {
    states, labels := [InitialState], [];
    var l1, l2, l3, l4 := ByTab(Initialize(Tokens("a", "r"), k.epoch)), ByQueue(k, Start(0, None, false)), ByQueue(k, Acquire), ByHolder(k, Read);
    ExtendRun(states, labels, l1);
    states, labels := states + [Apply(states[0], l1)], labels + [l1];
    ExtendRun(states, labels, l2);
    states, labels := states + [Apply(states[1], l2)], labels + [l2];
    ExtendRun(states, labels, l3);
    states, labels := states + [Apply(states[2], l3)], labels + [l3];
    ExtendRun(states, labels, l4);
    states, labels := states + [Apply(states[3], l4)], labels + [l4];
  }

  /** Such a request does occur: a logout can commit between the decision and the request. */
  lemma LateSendHappens(k: Key)
    ensures exists states, labels ::
              IsExecution(states, labels) && |labels| == 6 &&
              Dormant(states[5], k.epoch) && labels[5] == ByHolder(k, Send)
  {
    var states, labels := DecidingRun(k);
    var l5, l6 := ByTab(Logout(0, k.epoch)), ByHolder(k, Send);
    ExtendRun(states, labels, l5);
    states, labels := states + [Apply(states[4], l5)], labels + [l5];
    ExtendRun(states, labels, l6);
    states, labels := states + [Apply(states[5], l6)], labels + [l6];
    assert IsExecution(states, labels) && Dormant(states[5], k.epoch) && labels[5] == ByHolder(k, Send);
  }

  // ---- replies ---------------------------------------------------------------------------

  /** Settling a reply publishes its own tokens as the next revision of the same login, or publishes
      none of them and leaves the reply to be revoked. */
  lemma ReplyIsPublishedOrRevoked(s: State, key: Key, newAttempt: string)
    requires HeldEnabled(s, key, Settle(newAttempt))
    ensures var s' := HeldStep(s, key, Settle(newAttempt));
            var reply := s.renewals[key].phase.reply;
            if s'.past.settled != s.past.settled
            then && IsCurrentAt(s.record, key.epoch, s.renewals[key].challenged)
                 && IsCurrentAt(s'.record, key.epoch, s.record.value.revision + 1)
                 && s'.record.value.accessToken == reply.accessToken
                 && s'.record.value.refreshToken == reply.refreshToken
                 && s'.record.value.operator == reply.operator
                 && s'.past.settled == s.past.settled + [PublishedAs(s.renewals[key].phase.id, key.epoch, s.record.value.revision + 1)]
            else && s'.renewals[key].phase.Revoking? && s'.renewals[key].phase.reply == reply
                 && (s'.record == s.record || (IsCurrent(s.record, key.epoch) && s'.record.value.status == Ended))
  {
  }

  /** Every complete reply is published as the next revision, or handed to revoke, or still in the
      lock holder's hands; never two of these, and never settled twice. */
  lemma RepliesAreSettledOnce(states: seq<State>, labels: seq<Label>, i: nat)
    requires IsExecution(states, labels) && i < |states|
    ensures var s := states[i];
            && (forall n: nat | n < s.past.replies :: IsSettled(s, n) <==> !IsInHand(s, n))
            && (forall m, n | 0 <= m < n < |s.past.settled| :: s.past.settled[m].id != s.past.settled[n].id)
            && (forall p | p in s.past.settled :: p.id < s.past.replies)
            && (s.lock.None? ==> forall n: nat | n < s.past.replies :: IsSettled(s, n))
  {
    ExecutionKeepsInv(states, labels, i);
  }
}
