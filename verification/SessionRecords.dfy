/**
 The canonical session record that all browser tabs of one origin share, and the
 bodies of the sections that run under the state lock (frontend/src/authSession.ts).
 Each section is a function from the canonical record to the record it leaves behind;
 `Tab` is the imperative form, where a section reads the canonical record into the
 tab's cache, decides, and publishes.
 */
module SessionRecords {
  import opened Options

  datatype Status = Active | Ended

  /** The operator's identity; `authority` stands for role, status and scopes. */
  datatype Operator = Operator(id: string, authority: string)

  datatype Attempt = Attempt(id: string, error: Option<string>)

  datatype Record = Record(
    epoch: string,
    status: Status,
    revision: int,
    accessToken: string,
    refreshToken: string,
    operator: Option<Operator>,
    attempt: Option<Attempt>)

  datatype AuthResponse = AuthResponse(accessToken: string, refreshToken: string, operator: Option<Operator>)

  /** What a browser upgraded from an older release may still hold in local storage. */
  datatype Legacy = Snapshot(record: Record) | Tokens(accessToken: string, refreshToken: string)

  predicate IsCurrent(rec: Option<Record>, epoch: string) {
    rec.Some? && rec.value.status == Active && rec.value.epoch == epoch
  }

  predicate IsCurrentAt(rec: Option<Record>, epoch: string, revision: int) {
    IsCurrent(rec, epoch) && rec.value.revision == revision
  }

  function AttemptId(r: Record): Option<string> {
    if r.attempt.Some? then Some(r.attempt.value.id) else None
  }

  /** A recorded failure is a truthy error: an empty message does not count as one. */
  predicate RecordsFailure(r: Record) {
    r.attempt.Some? && r.attempt.value.error.Some? && r.attempt.value.error.value != ""
  }

  function StatusText(status: Status): string {
    if status == Active then "active" else "ended"
  }

  /** The login boundary an installation captures before it talks to the server. */
  function Boundary(rec: Option<Record>): string {
    if rec.None? then "absent" else rec.value.epoch + ":" + StatusText(rec.value.status)
  }

  /** The text of a boundary determines whether a record exists, its epoch and its status. */
  lemma BoundaryIsInjective(x: Option<Record>, y: Option<Record>)
    requires Boundary(x) == Boundary(y)
    ensures x.Some? == y.Some?
    ensures x.Some? ==> x.value.epoch == y.value.epoch && x.value.status == y.value.status
  {
    if x.Some? {
      BoundaryShape(x.value);
    }
    if y.Some? {
      BoundaryShape(y.value);
    }
    if x.Some? && y.Some? {
      var b := Boundary(x);
      assert x.value.status == y.value.status;
      assert b[..|b| - |StatusText(x.value.status)| - 1] == x.value.epoch;
      assert b[..|b| - |StatusText(y.value.status)| - 1] == y.value.epoch;
    }
  }

  lemma BoundaryShape(r: Record)
    ensures var b := Boundary(Some(r));
            b != "absent" && |b| > 0 && (b[|b| - 1] == if r.status == Active then 'e' else 'd')
  {
    var b := Boundary(Some(r));
    assert b[|r.epoch|] == ':';
    assert forall i | 0 <= i < 6 :: "absent"[i] != ':';
  }

  // ---- state-lock sections -------------------------------------------------

  function InitializeSection(rec: Option<Record>, legacy: Legacy, newId: string): Option<Record> {
    if rec.Some? then rec
    else match legacy
      case Snapshot(r) => Some(r)
      case Tokens(access, refresh) =>
        if access != "" || refresh != "" then Some(Record(newId, Active, 0, access, refresh, None, None)) else None
  }

  function RememberSection(rec: Option<Record>, epoch: string, operator: Operator): Option<Record> {
    if IsCurrent(rec, epoch) && rec.value.operator.None? then Some(rec.value.(operator := Some(operator))) else rec
  }

  /** The record that an installation publishes, or `None` when the boundary has moved. */
  function InstallSection(rec: Option<Record>, auth: AuthResponse, boundary: string, newId: string): Option<Record> {
    if Boundary(rec) != boundary then None
    else Some(Record(newId, Active, 0, auth.accessToken, auth.refreshToken, auth.operator, None))
  }

  function EndedRecord(r: Record): Record {
    r.(status := Ended, accessToken := "", refreshToken := "", operator := None, attempt := None)
  }

  predicate LogoutApplies(rec: Option<Record>, epoch: string) {
    rec.Some? && rec.value.epoch == epoch
  }

  function LogoutSection(rec: Option<Record>, epoch: string): Option<Record> {
    if IsCurrent(rec, epoch) then Some(EndedRecord(rec.value)) else rec
  }

  /** What the renewal owner decides after reading the canonical record. */
  datatype Decision =
    | SessionOver                        // the login has ended or was replaced
    | AlreadyRenewed                     // the challenged revision is no longer the current one
    | ShareFailure(message: string)      // an earlier attempt's failure is reported instead
    | NothingToSend                      // no refresh token: end the login
    | SendRefresh(token: string, attempt: Option<string>)

  function Decide(rec: Option<Record>, epoch: string, challenged: int, observed: Option<string>, retry: bool): (d: Decision)
    ensures d.SendRefresh? ==> IsCurrentAt(rec, epoch, challenged) && d.token == rec.value.refreshToken != ""
    // without a failure to share, there is nothing to send exactly when there is no refresh token
    ensures IsCurrentAt(rec, epoch, challenged) && (!RecordsFailure(rec.value) || (retry && observed == AttemptId(rec.value))) ==>
              (d.NothingToSend? <==> rec.value.refreshToken == "")
    // a recorded failure is reopened only by an explicit retry that names that very attempt
    ensures d.SendRefresh? && RecordsFailure(rec.value) ==> retry && observed == d.attempt
  {
    if !IsCurrent(rec, epoch) then SessionOver
    else if rec.value.revision != challenged then AlreadyRenewed
    else if RecordsFailure(rec.value) && (!retry || AttemptId(rec.value) != observed) then
      ShareFailure(rec.value.attempt.value.error.value)
    else if rec.value.refreshToken == "" then NothingToSend
    else SendRefresh(rec.value.refreshToken, AttemptId(rec.value))
  }

  function EndIfCurrentSection(rec: Option<Record>, epoch: string): Option<Record> {
    if IsCurrent(rec, epoch) then Some(EndedRecord(rec.value)) else rec
  }

  function EndIfCurrentAtSection(rec: Option<Record>, epoch: string, challenged: int): Option<Record> {
    if IsCurrentAt(rec, epoch, challenged) then Some(EndedRecord(rec.value)) else rec
  }

  predicate Complete(auth: AuthResponse) {
    auth.accessToken != "" && auth.refreshToken != "" && auth.operator.Some?
  }

  predicate OperatorChanged(r: Record, auth: AuthResponse)
    requires auth.operator.Some?
  {
    r.operator.Some? && r.operator.value.id != auth.operator.value.id
  }

  predicate Accepts(rec: Option<Record>, epoch: string, challenged: int, auth: AuthResponse)
    requires Complete(auth)
  {
    IsCurrentAt(rec, epoch, challenged) && !OperatorChanged(rec.value, auth)
  }

  function AcceptSection(rec: Option<Record>, epoch: string, challenged: int, auth: AuthResponse, newId: string): Option<Record>
    requires Complete(auth)
  {
    if !IsCurrentAt(rec, epoch, challenged) then rec
    else if OperatorChanged(rec.value, auth) then Some(EndedRecord(rec.value))
    else Some(rec.value.(revision := rec.value.revision + 1, accessToken := auth.accessToken,
                         refreshToken := auth.refreshToken, operator := auth.operator,
                         attempt := Some(Attempt(newId, None))))
  }

  function FailureSection(rec: Option<Record>, epoch: string, challenged: int, message: string, newId: string): Option<Record> {
    if IsCurrentAt(rec, epoch, challenged)
    then Some(rec.value.(attempt := Some(Attempt(newId, Some(message)))))
    else rec
  }

  function RevocationFailureSection(rec: Option<Record>, epoch: string, message: string, newId: string): Option<Record> {
    if rec.Some? && rec.value.epoch == epoch && rec.value.status == Ended
    then Some(rec.value.(attempt := Some(Attempt(newId, Some(message)))))
    else rec
  }
}
