/** The license server's tables as maps, and each of its transactions as one atomic step on them. */
module LicenseSpec {
  import opened Wrappers

  /** Ids, key values and tokens all come from one generator that never repeats itself. */
  type Id = nat
  type Device = string

  datatype RecordState = Active | Archived | Deleted
  datatype NotificationState = Queued | Sent | Delivered | Read
  datatype EntitlementStatus = Entitled | PendingConfirmation | ReplacementIssued

  datatype License = License(owner: string, state: RecordState)
  datatype Key = Key(license: Id, value: Id, active: bool, rotatedFrom: Option<Id>, state: RecordState)
  /** `UNIQUE (license_id, device_install_id)`: an installation row is found by this pair. */
  datatype Pair = Pair(license: Id, device: Device)
  datatype Installation = Installation(trusted: bool, state: RecordState)
  datatype Replacement = Replacement(license: Id, key: Id)
  /** Where a verification says it comes from. */
  datatype Origin = Origin(ip: Option<string>, os: string, arch: string, hostname: Option<string>)
  datatype Request = Request(license: Id, sourceKey: Id, device: Device, origin: Origin, token: Id, createdAt: nat,
                             expiresAt: nat, approvedAt: Option<nat>, replacement: Option<Replacement>,
                             state: RecordState)
  datatype Mail =
    | ConfirmationLink(owner: string, origin: Origin, token: Id)
    | Manual(recipient: string, subject: string, body: string)
  datatype Email = Email(license: Id, request: Option<Id>, mail: Mail, createdAt: nat, sentAt: Option<nat>,
                         deliveredAt: Option<nat>, readAt: Option<nat>, notification: NotificationState,
                         state: RecordState)

  datatype Db = Db(licenses: map<Id, License>, keys: map<Id, Key>, installations: map<Pair, Installation>,
                   requests: map<Id, Request>, emails: map<Id, Email>, next: Id)

  const EMPTY := Db(map[], map[], map[], map[], map[], 0)

  datatype Error =
    | KeyNotFoundOrInactive | KeyMismatch | KeyNotFound | LicenseNotFound | InstallationNotFound | RequestNotFound
    | RecipientRequired | SubjectRequired | BodyRequired

  datatype Reply =
    | Refused(error: Error)
    | Issued(license: Id, keyValue: Id)
    | Confirmed(confirmed: Option<Id>)
    | Verdict(license: Id, key: Id, status: EntitlementStatus, replacementKey: Option<Id>)
    | Accepted(email: Id)
    | Notifications(ids: set<Id>)
    | Done

  /**
   * One transaction. `now` is the clock, `window` the confirmation window in seconds and `pick` the row the
   * database returns for "the latest request of this pair", whose ties it breaks as it likes.
   */
  datatype Op =
    | Issue(owner: string)
    | Verify(now: nat, keyValue: Id, device: Device, origin: Origin, window: nat, pick: Option<Id>)
    | Confirm(now: nat, token: Id)
    | Approve(now: nat, request: Id)
    | SetKeyActive(key: Id, active: bool)
    | SetLicenseState(license: Id, state: RecordState)
    | SetKeyState(key: Id, state: RecordState)
    | SetInstallationState(pair: Pair, state: RecordState)
    | SetRequestState(request: Id, state: RecordState)
    | CreateNotification(now: nat, license: Id, recipient: string, subject: string, body: string)
    | ReadNotifications(now: nat, keyValue: Id, license: Id)
    | MarkSent(now: nat, email: Id)
    | MarkDelivered(now: nat, email: Id)

  // ---------------------------------------------------------------- queries

  ghost predicate UsableKey(db: Db, k: Id, value: Id) {
    && k in db.keys
    && db.keys[k].value == value
    && db.keys[k].active
    && db.keys[k].state.Active?
    && db.keys[k].license in db.licenses
    && db.licenses[db.keys[k].license].state.Active?
  }

  ghost function FindActiveKey(db: Db, value: Id): (k: Option<Id>)
    ensures k.Some? ==> UsableKey(db, k.value, value)
    ensures k.None? ==> forall j: Id :: !UsableKey(db, j, value)
  {
    if exists j: Id :: UsableKey(db, j, value)
    then var j: Id :| UsableKey(db, j, value); Some(j)
    else None
  }

  ghost predicate ActiveTrusted(db: Db, p: Pair) {
    p in db.installations && db.installations[p].trusted && db.installations[p].state.Active?
  }

  ghost function TrustedDevices(db: Db, license: Id): (devices: set<Device>)
    ensures forall d :: d in devices <==> ActiveTrusted(db, Pair(license, d))
  {
    var pairs := set p | p in db.installations && p.license == license && ActiveTrusted(db, p);
    assert forall d :: ActiveTrusted(db, Pair(license, d)) ==>
      Pair(license, d) in pairs && Pair(license, d).device == d;
    set p | p in pairs :: p.device
  }

  ghost predicate Open(db: Db, r: Id, p: Pair) {
    r in db.requests && db.requests[r].license == p.license && db.requests[r].device == p.device
      && db.requests[r].state.Active?
  }

  /** What `ORDER BY created_at DESC LIMIT 1` may return. */
  ghost predicate Latest(db: Db, p: Pair, pick: Option<Id>) {
    match pick
    case None => forall r: Id :: !Open(db, r, p)
    case Some(r) =>
      Open(db, r, p) && forall q: Id :: Open(db, q, p) ==> db.requests[q].createdAt <= db.requests[r].createdAt
  }

  ghost function RequestWithToken(db: Db, token: Id): (r: Option<Id>)
    ensures r.Some? ==> r.value in db.requests && db.requests[r.value].token == token
    ensures r.None? ==> forall q: Id :: q in db.requests ==> db.requests[q].token != token
  {
    if exists q: Id :: q in db.requests && db.requests[q].token == token
    then var q: Id :| q in db.requests && db.requests[q].token == token; Some(q)
    else None
  }

  /** A manual notification that has been sent and not read: what a client is shown. */
  predicate Deliverable(e: Email, license: Id) {
    && e.license == license
    && e.request.None?
    && e.state.Active?
    && (e.notification.Sent? || e.notification.Delivered?)
  }

  function DeliverableIds(db: Db, license: Id): set<Id> {
    set e | e in db.emails && Deliverable(db.emails[e], license)
  }

  /** Unicode White_Space, the characters that trimming removes. */
  predicate White(c: char) {
    var p := c as int;
    || 0x9 <= p <= 0xD || p == 0x20 || p == 0x85 || p == 0xA0 || p == 0x1680 || 0x2000 <= p <= 0x200A
    || p == 0x2028 || p == 0x2029 || p == 0x202F || p == 0x205F || p == 0x3000
  }

  function Trim(s: string): (t: string)
    ensures t == [] <==> forall i :: 0 <= i < |s| ==> White(s[i])
    ensures t != [] ==> !White(t[0]) && !White(t[|t| - 1])
  {
    if s == [] then []
    else if White(s[0]) then Trim(s[1..])
    else if White(s[|s| - 1]) then Trim(s[..|s| - 1])
    else s
  }

  /** The claimed address, or that of the connection. */
  function EffectiveOrigin(claimed: Origin, remoteIp: Option<string>): Origin {
    if claimed.ip.Some? then claimed else claimed.(ip := remoteIp)
  }

  // ---------------------------------------------------------------- single-row updates

  /** Insert, or on conflict mark trusted and active again. */
  function Trusting(db: Db, p: Pair): Db {
    db.(installations := db.installations[p := Installation(true, Active)])
  }

  function Closed(e: Email, now: nat): Email {
    e.(notification := Read, readAt := Some(now), state := Deleted)
  }

  function Coalesce(t: Option<nat>, now: nat): Option<nat> {
    if t.Some? then t else Some(now)
  }

  function MarkedSent(e: Email, now: nat): Email {
    e.(sentAt := Coalesce(e.sentAt, now), notification := Sent)
  }

  function MarkedDelivered(e: Email, now: nat): Email {
    e.(sentAt := Coalesce(e.sentAt, now), deliveredAt := Coalesce(e.deliveredAt, now), notification := Delivered)
  }

  function NewEmail(license: Id, request: Option<Id>, mail: Mail, now: nat): Email {
    Email(license, request, mail, now, None, None, None, Queued, Active)
  }

  // ---------------------------------------------------------------- transactions

  function IssueStep(db: Db, owner: string): (Db, Reply) {
    var n := db.next;
    (db.(licenses := db.licenses[n := License(owner, Active)],
         keys := db.keys[n + 1 := Key(n, n + 2, true, None, Active)],
         next := n + 3),
     Issued(n, n + 2))
  }

  /** A fresh license of the same owner for the requesting device, recorded on the expired request. */
  function ReplaceStep(db: Db, k: Id, r: Id, device: Device): (Db, Reply)
    requires k in db.keys && db.keys[k].license in db.licenses && r in db.requests
  {
    var n := db.next;
    var owner := db.licenses[db.keys[k].license].owner;
    (db.(licenses := db.licenses[n := License(owner, Active)],
         keys := db.keys[n + 1 := Key(n, n + 2, true, Some(k), Active)],
         installations := db.installations[Pair(n, device) := Installation(true, Active)],
         requests := db.requests[r := db.requests[r].(replacement := Some(Replacement(n, n + 1)))],
         next := n + 3),
     Verdict(n, n + 1, ReplacementIssued, Some(n + 2)))
  }

  /** A pending request together with the confirmation mail to the owner, still queued. */
  function AskOwner(db: Db, k: Id, op: Op): (Db, Reply)
    requires op.Verify? && k in db.keys && db.keys[k].license in db.licenses
  {
    var n := db.next;
    var license := db.keys[k].license;
    var request := Request(license, k, op.device, op.origin, n, op.now, op.now + op.window, None, None, Active);
    var mail := ConfirmationLink(db.licenses[license].owner, op.origin, n);
    (db.(requests := db.requests[n + 1 := request],
         emails := db.emails[n + 2 := NewEmail(license, Some(n + 1), mail, op.now)],
         next := n + 3),
     Verdict(license, k, PendingConfirmation, None))
  }

  /** `verify_key` once the key is known to be usable. */
  ghost function VerifyWithKey(db: Db, k: Id, op: Op): (Db, Reply)
    requires op.Verify? && k in db.keys && db.keys[k].license in db.licenses
    requires op.pick.Some? ==> op.pick.value in db.requests
  {
    var license := db.keys[k].license;
    var p := Pair(license, op.device);
    if TrustedDevices(db, license) == {} then (Trusting(db, p), Verdict(license, k, Entitled, None))
    else if ActiveTrusted(db, p) then (db, Verdict(license, k, Entitled, None))
    else match op.pick
      case None => AskOwner(db, k, op)
      case Some(r) =>
        if db.requests[r].approvedAt.Some? then (Trusting(db, p), Verdict(license, k, Entitled, None))
        else if op.now >= db.requests[r].expiresAt then ReplaceStep(db, k, r, op.device)
        else (db, Verdict(license, k, PendingConfirmation, None))
  }

  ghost function VerifyStep(db: Db, op: Op): (Db, Reply)
    requires Legal(db, op) && op.Verify?
  {
    match FindActiveKey(db, op.keyValue)
    case None => (db, Refused(KeyNotFoundOrInactive))
    case Some(k) => VerifyWithKey(db, k, op)
  }

  function Approved(db: Db, r: Id, now: nat): Db
    requires r in db.requests
  {
    if db.requests[r].approvedAt.Some? then db
    else db.(requests := db.requests[r := db.requests[r].(approvedAt := Some(now))])
  }

  /** Close every mail of request `r` that is not deleted yet. */
  function CloseMails(emails: map<Id, Email>, r: Id, now: nat): map<Id, Email> {
    map e | e in emails ::
      if emails[e].request == Some(r) && !emails[e].state.Deleted? then Closed(emails[e], now) else emails[e]
  }

  ghost function ConfirmStep(db: Db, now: nat, token: Id): (Db, Reply) {
    match RequestWithToken(db, token)
    case None => (db, Confirmed(None))
    case Some(r) =>
      var reply := Confirmed(Some(db.requests[r].license));
      if db.requests[r].approvedAt.Some? then (db, reply)
      else (Approved(db, r, now).(emails := CloseMails(db.emails, r, now)), reply)
  }

  /** The license's own row and every key, installation and request of it; mails keep their state. */
  function LicenseStateStep(db: Db, license: Id, state: RecordState): (Db, Reply) {
    if license !in db.licenses then (db, Refused(LicenseNotFound))
    else
      (db.(licenses := db.licenses[license := db.licenses[license].(state := state)],
           keys := map k | k in db.keys ::
             if db.keys[k].license == license then db.keys[k].(state := state) else db.keys[k],
           installations := map p | p in db.installations ::
             if p.license == license then db.installations[p].(state := state) else db.installations[p],
           requests := map r | r in db.requests ::
             if db.requests[r].license == license then db.requests[r].(state := state) else db.requests[r]),
       Done)
  }

  function NotificationStep(db: Db, op: Op): (Db, Reply)
    requires op.CreateNotification?
  {
    if op.license !in db.licenses then (db, Refused(LicenseNotFound))
    else if Trim(op.recipient) == [] then (db, Refused(RecipientRequired))
    else if Trim(op.subject) == [] then (db, Refused(SubjectRequired))
    else if Trim(op.body) == [] then (db, Refused(BodyRequired))
    else
      var mail := Manual(Trim(op.recipient), Trim(op.subject), Trim(op.body));
      (db.(emails := db.emails[db.next := NewEmail(op.license, None, mail, op.now)], next := db.next + 1),
       Accepted(db.next))
  }

  function CloseDeliverable(emails: map<Id, Email>, license: Id, now: nat): map<Id, Email> {
    map e | e in emails :: if Deliverable(emails[e], license) then Closed(emails[e], now) else emails[e]
  }

  ghost function ReadStep(db: Db, now: nat, keyValue: Id, license: Id): (Db, Reply) {
    match FindActiveKey(db, keyValue)
    case None => (db, Refused(KeyNotFoundOrInactive))
    case Some(k) =>
      if db.keys[k].license != license then (db, Refused(KeyMismatch))
      else (db.(emails := CloseDeliverable(db.emails, license, now)), Notifications(DeliverableIds(db, license)))
  }

  /** The only freedom the database has: which of several latest requests it returns. */
  ghost predicate Legal(db: Db, op: Op) {
    op.Verify? ==>
      var k := FindActiveKey(db, op.keyValue);
      if k.Some? then Latest(db, Pair(db.keys[k.value].license, op.device), op.pick) else op.pick.None?
  }

  ghost function Step(db: Db, op: Op): (Db, Reply)
    requires Legal(db, op)
  {
    match op
    case Issue(owner) => IssueStep(db, owner)
    case Verify(_, _, _, _, _, _) => VerifyStep(db, op)
    case Confirm(now, token) => ConfirmStep(db, now, token)
    case Approve(now, r) => if r in db.requests then (Approved(db, r, now), Done) else (db, Refused(RequestNotFound))
    case SetKeyActive(k, active) =>
      if k in db.keys then (db.(keys := db.keys[k := db.keys[k].(active := active)]), Done)
      else (db, Refused(KeyNotFound))
    case SetLicenseState(license, state) => LicenseStateStep(db, license, state)
    case SetKeyState(k, state) =>
      if k in db.keys then (db.(keys := db.keys[k := db.keys[k].(state := state)]), Done)
      else (db, Refused(KeyNotFound))
    case SetInstallationState(p, state) =>
      if p in db.installations
      then (db.(installations := db.installations[p := db.installations[p].(state := state)]), Done)
      else (db, Refused(InstallationNotFound))
    case SetRequestState(r, state) =>
      if r in db.requests
      then (db.(requests := db.requests[r := db.requests[r].(state := state)]), Done)
      else (db, Refused(RequestNotFound))
    case CreateNotification(_, _, _, _, _) => NotificationStep(db, op)
    case ReadNotifications(now, keyValue, license) => ReadStep(db, now, keyValue, license)
    case MarkSent(now, e) =>
      (if e in db.emails then db.(emails := db.emails[e := MarkedSent(db.emails[e], now)]) else db, Done)
    case MarkDelivered(now, e) =>
      (if e in db.emails then db.(emails := db.emails[e := MarkedDelivered(db.emails[e], now)]) else db, Done)
  }

  // ---------------------------------------------------------------- runs and the invariant

  ghost predicate LegalRun(db: Db, ops: seq<Op>)
    decreases |ops|
  {
    ops == [] || (Legal(db, ops[0]) && LegalRun(Step(db, ops[0]).0, ops[1..]))
  }

  /** The database after the transactions `ops`, which may belong to interleaved requests of many clients. */
  ghost function Run(db: Db, ops: seq<Op>): Db
    requires LegalRun(db, ops)
    decreases |ops|
  {
    if ops == [] then db else Run(Step(db, ops[0]).0, ops[1..])
  }

  ghost predicate EmailSound(e: Email) {
    && !e.state.Archived?
    && (e.state.Deleted? <==> e.readAt.Some?)
    && (e.deliveredAt.Some? ==> e.sentAt.Some?)
    && (e.notification.Sent? ==> e.sentAt.Some?)
    && (e.notification.Delivered? ==> e.deliveredAt.Some?)
    && (e.notification.Read? ==> e.readAt.Some?)
  }

  /** Keys are unique by value and belong to a license; `next` is above everything generated. */
  ghost predicate KeysSound(keys: map<Id, Key>, licenses: set<Id>, next: Id) {
    && (forall k: Id :: k in keys ==> k < next && keys[k].value < next && keys[k].license in licenses)
    && (forall j: Id, k: Id :: j in keys && k in keys && keys[j].value == keys[k].value ==> j == k)
  }

  /** No statement ever writes an untrusted installation. */
  ghost predicate InstallationsSound(installations: map<Pair, Installation>, licenses: set<Id>) {
    forall p: Pair :: p in installations ==> p.license in licenses && installations[p].trusted
  }

  ghost predicate RequestsSound(requests: map<Id, Request>, licenses: set<Id>, next: Id) {
    && (forall r: Id :: r in requests ==> r < next && requests[r].token < next && requests[r].license in licenses)
    && (forall q: Id, r: Id :: q in requests && r in requests && requests[q].token == requests[r].token ==> q == r)
  }

  ghost predicate EmailsSound(emails: map<Id, Email>, licenses: set<Id>, next: Id) {
    forall e: Id :: e in emails ==> e < next && emails[e].license in licenses && EmailSound(emails[e])
  }

  ghost predicate WellFormed(db: Db) {
    && (forall l: Id :: l in db.licenses ==> l < db.next)
    && KeysSound(db.keys, db.licenses.Keys, db.next)
    && InstallationsSound(db.installations, db.licenses.Keys)
    && RequestsSound(db.requests, db.licenses.Keys, db.next)
    && EmailsSound(db.emails, db.licenses.Keys, db.next)
  }
}
