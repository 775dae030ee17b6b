/** Which refresh token is sent: the one published for the epoch and revision of the request. */
module SessionTokens {
  import opened Options
  import opened SessionRecords
  import opened SessionProtocol
  import opened SessionInvariants

  predicate PublishedToken(past: History, epoch: string, revision: int, token: string) {
    Slot(epoch, revision) in past.published && past.published[Slot(epoch, revision)] == token
  }

  /** The active record holds the token published for it, and so does every decision to send. */
  ghost predicate TokenInv(s: State) {
    && s.past.published.Keys == s.past.firstAttempt.Keys
    && (s.record.Some? && s.record.value.status == Active ==>
          PublishedToken(s.past, s.record.value.epoch, s.record.value.revision, s.record.value.refreshToken))
    && (forall a | a in s.past.authorised :: a.token != "" && PublishedToken(s.past, a.owner.epoch, a.revision, a.token))
  }

  /** A token is published for an epoch and revision once and for all. */
  ghost predicate KeepsPublished(s: State, s': State) {
    forall t | t in s.past.published :: t in s'.past.published && s'.past.published[t] == s.past.published[t]
  }

  lemma TabKeepsTokens(s: State, a: TabAction)
    requires UsedInv(s) && AttemptInv(s) && TokenInv(s) && TabEnabled(s, a)
    ensures TokenInv(TabStep(s, a)) && KeepsPublished(s, TabStep(s, a))
  {
    TabFrame(s, a);
    match a
    case Initialize(_, _) =>
    case Remember(_, _) =>
    case Logout(_, _) =>
    case BeginInstall(_, _, _) =>
    case CommitInstall(_, _) =>
    case RevokeInstall(_) =>
  }

  lemma HeldKeepsTokens(s: State, key: Key, a: HeldAction)
    requires UsedInv(s) && AttemptInv(s) && TokenInv(s) && HeldEnabled(s, key, a)
    ensures TokenInv(HeldStep(s, key, a))
  {
    HeldKeepsPublished(s, key, a);
  }

  lemma HeldKeepsPublished(s: State, key: Key, a: HeldAction)
    requires AttemptInv(s) && s.past.published.Keys == s.past.firstAttempt.Keys && HeldEnabled(s, key, a)
    ensures KeepsPublished(s, HeldStep(s, key, a))
  {
  }

  lemma StepKeepsTokens(s: State, l: Label)
    requires Inv(s) && TokenInv(s) && Enabled(s, l)
    ensures TokenInv(Apply(s, l)) && KeepsPublished(s, Apply(s, l))
  {
    match l
    case ByTab(a) => TabKeepsTokens(s, a);
    case ByHolder(key, a) =>
      HeldKeepsTokens(s, key, a);
      HeldKeepsPublished(s, key, a);
    case ByLogout(_, _) =>
    case ByQueue(_, _) =>
  }

  lemma {:induction false} ExecutionKeepsTokens(states: seq<State>, labels: seq<Label>, i: nat)
    requires IsExecution(states, labels) && i < |states|
    ensures Inv(states[i]) && TokenInv(states[i])
  {
    ExecutionKeepsInv(states, labels, i);
    if i > 0 {
      ExecutionKeepsTokens(states, labels, i - 1);
      StepKeepsTokens(states[i - 1], labels[i - 1]);
    }
  }

  /** The token published for an epoch and revision never changes. */
  lemma {:induction false} PublishedIsFinal(states: seq<State>, labels: seq<Label>, i: nat, j: nat)
    requires IsExecution(states, labels) && i <= j < |states|
    ensures KeepsPublished(states[i], states[j])
    decreases j
  {
    if i < j {
      PublishedIsFinal(states, labels, i, j - 1);
      ExecutionKeepsTokens(states, labels, j - 1);
      StepKeepsTokens(states[j - 1], labels[j - 1]);
    }
  }

  /** Every request carries the refresh token published for its login and revision, and never an empty one. */
  lemma SentTokenIsPublished(states: seq<State>, labels: seq<Label>, i: nat, a: Authorisation)
    requires IsExecution(states, labels) && i < |states| && a in states[i].past.sent
    ensures a.token != "" && PublishedToken(states[i].past, a.owner.epoch, a.revision, a.token)
  {
    ExecutionKeepsTokens(states, labels, i);
  }
}
