/**
 A browser tab of frontend/src/authSession.ts in imperative form: the origin-wide canonical
 record, the tab's cached copy of it, and the handles that callers compare by identity.
 Each method is one state-lock section, proved equal to its section function.
 */
module SessionTabs {
  import opened Options
  import opened SessionRecords

  /** Login identity; callers hold the object, never a token. */
  class AuthSession {
    const epoch: string

    constructor (epoch: string)
      ensures this.epoch == epoch
    {
      this.epoch := epoch;
    }
  }

  class CanonicalStore {
    var record: Option<Record>

    constructor ()
      ensures record == None
    {
      record := None;
    }
  }

  class Tab {
    const store: CanonicalStore
    var observed: Option<Record>
    var handles: map<string, AuthSession>

    constructor (store: CanonicalStore)
      ensures Valid() && this.store == store && observed == None && handles == map[]
    {
      this.store := store;
      observed := None;
      handles := map[];
    }

    ghost predicate Valid()
      reads this
    {
      forall e | e in handles :: handles[e].epoch == e
    }

    /** Sessions are only ever obtained from this tab's handles. */
    ghost predicate Owns(session: AuthSession)
      reads this
    {
      session.epoch in handles && handles[session.epoch] == session
    }

    // IndexedDB completion is the read barrier between renderer processes.
    method Refresh()
      modifies this`observed
      ensures observed == store.record
    {
      observed := store.record;
    }

    method Publish(r: Record)
      modifies this`observed, store
      ensures store.record == Some(r) && observed == Some(r)
    {
      store.record := Some(r);
      observed := Some(r);
    }

    method CurrentSession() returns (session: AuthSession?)
      requires Valid()
      modifies this`handles
      ensures Valid() && forall e | e in old(handles) :: e in handles && handles[e] == old(handles)[e]
      ensures session != null <==> observed.Some? && observed.value.status == Active
      ensures session != null ==> Owns(session) && session.epoch == observed.value.epoch
    {
      if observed.None? || observed.value.status != Active {
        return null;
      }
      if observed.value.epoch !in handles {
        var created := new AuthSession(observed.value.epoch);
        handles := handles[observed.value.epoch := created];
      }
      session := handles[observed.value.epoch];
    }

    /** Comparing the current handle with a session compares their epochs. */
    method IsCurrentSession(session: AuthSession) returns (current: bool)
      requires Valid() && Owns(session)
      modifies this`handles
      ensures Valid() && Owns(session)
      ensures current == IsCurrent(observed, session.epoch)
    {
      var other := CurrentSession();
      current := other == session;
    }

    method Initialize(legacy: Legacy, newId: string) returns (session: AuthSession?)
      requires Valid()
      modifies this, store
      ensures Valid()
      ensures store.record == InitializeSection(old(store.record), legacy, newId) && observed == store.record
      ensures session != null <==> store.record.Some? && store.record.value.status == Active
      ensures session != null ==> Owns(session) && session.epoch == store.record.value.epoch
    {
      Refresh();
      if observed.None? {
        match legacy {
          case Snapshot(r) => Publish(r);
          case Tokens(access, refresh) =>
            if access != "" || refresh != "" {
              Publish(Record(newId, Active, 0, access, refresh, None, None));
            }
        }
      }
      session := CurrentSession();
    }

    method RememberOperator(session: AuthSession, operator: Operator) returns (ended: bool)
      modifies this`observed, store
      ensures store.record == RememberSection(old(store.record), session.epoch, operator) && observed == store.record
      ensures ended <==> !IsCurrent(old(store.record), session.epoch)
    {
      Refresh();
      ended := !IsCurrent(observed, session.epoch);
      if !ended && observed.value.operator.None? {
        Publish(observed.value.(operator := Some(operator)));
      }
    }

    /** A null result tells the caller to revoke the tokens it was given. */
    method Install(auth: AuthResponse, boundary: string, newId: string) returns (session: AuthSession?)
      requires Valid()
      modifies this, store
      ensures Valid() && observed == store.record
      ensures var next := InstallSection(old(store.record), auth, boundary, newId);
              && store.record == (if next.Some? then next else old(store.record))
              && (session != null <==> next.Some?)
      ensures session != null ==> Owns(session) && session.epoch == newId
    {
      Refresh();
      if Boundary(observed) != boundary {
        return null;
      }
      Publish(Record(newId, Active, 0, auth.accessToken, auth.refreshToken, auth.operator, None));
      session := CurrentSession();
    }

    /** Returns the record as it was before the logout, whose token the caller then revokes. */
    method Logout(session: AuthSession) returns (before: Option<Record>)
      modifies this`observed, store
      ensures store.record == LogoutSection(old(store.record), session.epoch) && observed == store.record
      ensures before == if LogoutApplies(old(store.record), session.epoch) then old(store.record) else None
    {
      Refresh();
      if observed.None? || observed.value.epoch != session.epoch {
        return None;
      }
      before := observed;
      if observed.value.status == Active {
        Publish(EndedRecord(observed.value));
      }
    }

    method ReadForRenewal(session: AuthSession, challenged: int, attempt: Option<string>, retry: bool) returns (d: Decision)
      modifies this`observed
      ensures observed == store.record
      ensures d == Decide(store.record, session.epoch, challenged, attempt, retry)
    {
      Refresh();
      if observed.None? || observed.value.status != Active || observed.value.epoch != session.epoch {
        return SessionOver;
      }
      var latest := observed.value;
      if latest.revision != challenged {
        return AlreadyRenewed;
      }
      if latest.attempt.Some? && latest.attempt.value.error.Some? && latest.attempt.value.error.value != "" {
        if !retry || attempt != Some(latest.attempt.value.id) {
          return ShareFailure(latest.attempt.value.error.value);
        }
      }
      if latest.refreshToken == "" {
        return NothingToSend;
      }
      d := SendRefresh(latest.refreshToken, AttemptId(latest));
    }

    method EndUnrefreshable(session: AuthSession)
      requires Valid() && Owns(session)
      modifies this, store
      ensures Valid() && Owns(session) && observed == store.record
      ensures store.record == EndIfCurrentSection(old(store.record), session.epoch)
    {
      Refresh();
      var current := IsCurrentSession(session);
      if current {
        Publish(EndedRecord(observed.value));
      }
    }

    method EndRejected(session: AuthSession, challenged: int)
      requires Valid() && Owns(session)
      modifies this, store
      ensures Valid() && Owns(session) && observed == store.record
      ensures store.record == EndIfCurrentAtSection(old(store.record), session.epoch, challenged)
    {
      Refresh();
      var current := IsCurrentSession(session);
      if current && observed.value.revision == challenged {
        Publish(EndedRecord(observed.value));
      }
    }

    method SettleReply(session: AuthSession, challenged: int, auth: AuthResponse, newId: string) returns (accepted: bool)
      requires Valid() && Owns(session) && Complete(auth)
      modifies this, store
      ensures Valid() && Owns(session) && observed == store.record
      ensures store.record == AcceptSection(old(store.record), session.epoch, challenged, auth, newId)
      ensures accepted == Accepts(old(store.record), session.epoch, challenged, auth)
    {
      Refresh();
      var current := IsCurrentSession(session);
      if !current {
        return false;
      }
      var active := observed.value;
      if active.revision != challenged {
        return false;
      }
      if active.operator.Some? && active.operator.value.id != auth.operator.value.id {
        Publish(EndedRecord(active));
        return false;
      }
      Publish(active.(revision := active.revision + 1, accessToken := auth.accessToken,
                      refreshToken := auth.refreshToken, operator := auth.operator,
                      attempt := Some(Attempt(newId, None))));
      accepted := true;
    }

    method RecordFailure(session: AuthSession, challenged: int, message: string, newId: string)
      requires Valid() && Owns(session)
      modifies this, store
      ensures Valid() && Owns(session) && observed == store.record
      ensures store.record == FailureSection(old(store.record), session.epoch, challenged, message, newId)
    {
      Refresh();
      var current := IsCurrentSession(session);
      if current && observed.value.revision == challenged {
        Publish(observed.value.(attempt := Some(Attempt(newId, Some(message)))));
      }
    }

    method RecordRevocationFailure(session: AuthSession, message: string, newId: string)
      modifies this`observed, store
      ensures observed == store.record
      ensures store.record == RevocationFailureSection(old(store.record), session.epoch, message, newId)
    {
      Refresh();
      if observed.Some? && observed.value.epoch == session.epoch && observed.value.status == Ended {
        Publish(observed.value.(attempt := Some(Attempt(newId, Some(message)))));
      }
    }
  }
}
