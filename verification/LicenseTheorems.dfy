/** What every transaction of the license server keeps, and what holds over every interleaving of them. */
module LicenseTheorems {
  import opened Wrappers
  import opened LicenseSpec

  // ---------------------------------------------------------------- the invariant

  /** Adding licenses and ids leaves every table sound. */
  lemma SoundInLarger(db: Db, licenses: set<Id>, next: Id)
    requires WellFormed(db) && db.licenses.Keys <= licenses && db.next <= next
    ensures KeysSound(db.keys, licenses, next)
    ensures InstallationsSound(db.installations, licenses)
    ensures RequestsSound(db.requests, licenses, next)
    ensures EmailsSound(db.emails, licenses, next)
  {
    hide EmailSound;
  }

  lemma KeyPutKeepsSound(keys: map<Id, Key>, licenses: set<Id>, next: Id, k: Id, key: Key)
    requires KeysSound(keys, licenses, next) && k < next && key.value < next && key.license in licenses
    requires forall j: Id :: j in keys && keys[j].value == key.value ==> j == k
    ensures KeysSound(keys[k := key], licenses, next)
  {
  }

  lemma RequestPutKeepsSound(requests: map<Id, Request>, licenses: set<Id>, next: Id, r: Id, request: Request)
    requires RequestsSound(requests, licenses, next)
    requires r < next && request.token < next && request.license in licenses
    requires forall q: Id :: q in requests && requests[q].token == request.token ==> q == r
    ensures RequestsSound(requests[r := request], licenses, next)
  {
  }

  lemma EmailPutKeepsSound(emails: map<Id, Email>, licenses: set<Id>, next: Id, e: Id, mail: Email)
    requires EmailsSound(emails, licenses, next) && e < next && mail.license in licenses && EmailSound(mail)
    ensures EmailsSound(emails[e := mail], licenses, next)
  {
    hide EmailSound;
  }

  /** A license with its first key: the part that issuing and replacing share. */
  lemma NewLicenseKeepsSound(db: Db, owner: string, rotatedFrom: Option<Id>)
    requires WellFormed(db)
    ensures var n := db.next;
      var added := db.(licenses := db.licenses[n := License(owner, Active)],
                       keys := db.keys[n + 1 := Key(n, n + 2, true, rotatedFrom, Active)], next := n + 3);
      WellFormed(added) && db.licenses.Keys <= added.licenses.Keys
  {
    var n := db.next;
    var licenses := db.licenses[n := License(owner, Active)].Keys;
    SoundInLarger(db, licenses, n + 3);
    forall j: Id | j in db.keys
      ensures db.keys[j].value != n + 2
    {
    }
    KeyPutKeepsSound(db.keys, licenses, n + 3, n + 1, Key(n, n + 2, true, rotatedFrom, Active));
    hide KeysSound, InstallationsSound, RequestsSound, EmailsSound;
  }

  /** Rewriting a row without touching its license, token or key value keeps the tables well formed. */
  lemma KeyUpdateKeepsWellFormed(db: Db, k: Id, key: Key)
    requires WellFormed(db) && k in db.keys && key.license == db.keys[k].license && key.value == db.keys[k].value
    ensures WellFormed(db.(keys := db.keys[k := key]))
  {
    KeyPutKeepsSound(db.keys, db.licenses.Keys, db.next, k, key);
    hide KeysSound, InstallationsSound, RequestsSound, EmailsSound;
  }

  lemma RequestUpdateKeepsWellFormed(db: Db, r: Id, request: Request)
    requires WellFormed(db) && r in db.requests
    requires request.license == db.requests[r].license && request.token == db.requests[r].token
    ensures WellFormed(db.(requests := db.requests[r := request]))
  {
    RequestPutKeepsSound(db.requests, db.licenses.Keys, db.next, r, request);
    hide KeysSound, InstallationsSound, RequestsSound, EmailsSound;
  }

  lemma InstallationUpdateKeepsWellFormed(db: Db, p: Pair, row: Installation)
    requires WellFormed(db) && p.license in db.licenses && row.trusted
    ensures WellFormed(db.(installations := db.installations[p := row]))
  {
    hide KeysSound, RequestsSound, EmailsSound;
  }

  lemma MarkKeepsWellFormed(db: Db, e: Id, mail: Email)
    requires WellFormed(db) && e in db.emails && mail.license == db.emails[e].license
    requires EmailSound(db.emails[e]) ==> EmailSound(mail)
    ensures WellFormed(db.(emails := db.emails[e := mail]))
  {
    EmailPutKeepsSound(db.emails, db.licenses.Keys, db.next, e, mail);
    hide KeysSound, InstallationsSound, RequestsSound, EmailsSound;
  }

  lemma ReplaceKeepsWellFormed(db: Db, k: Id, r: Id, device: Device)
    requires WellFormed(db) && k in db.keys && db.keys[k].license in db.licenses && r in db.requests
    ensures WellFormed(ReplaceStep(db, k, r, device).0)
  {
    hide WellFormed;
    var n := db.next;
    var owner := db.licenses[db.keys[k].license].owner;
    NewLicenseKeepsSound(db, owner, Some(k));
    var issued := db.(licenses := db.licenses[n := License(owner, Active)],
                      keys := db.keys[n + 1 := Key(n, n + 2, true, Some(k), Active)], next := n + 3);
    InstallationUpdateKeepsWellFormed(issued, Pair(n, device), Installation(true, Active));
    var trusted := issued.(installations := db.installations[Pair(n, device) := Installation(true, Active)]);
    RequestUpdateKeepsWellFormed(trusted, r, db.requests[r].(replacement := Some(Replacement(n, n + 1))));
  }

  lemma RequestInsertKeepsWellFormed(db: Db, r: Id, request: Request, next: Id)
    requires WellFormed(db) && db.next <= request.token < next && r < next && request.license in db.licenses
    ensures WellFormed(db.(requests := db.requests[r := request], next := next))
  {
    assert forall q: Id :: q in db.requests ==> db.requests[q].token != request.token;
    SoundInLarger(db, db.licenses.Keys, next);
    hide KeysSound, InstallationsSound, RequestsSound, EmailsSound;
    RequestPutKeepsSound(db.requests, db.licenses.Keys, next, r, request);
  }

  lemma EmailInsertKeepsWellFormed(db: Db, e: Id, mail: Email, next: Id)
    requires WellFormed(db) && db.next <= next && e < next && mail.license in db.licenses && EmailSound(mail)
    ensures WellFormed(db.(emails := db.emails[e := mail], next := next))
  {
    SoundInLarger(db, db.licenses.Keys, next);
    hide KeysSound, InstallationsSound, RequestsSound, EmailsSound;
    EmailPutKeepsSound(db.emails, db.licenses.Keys, next, e, mail);
  }

  lemma AskKeepsWellFormed(db: Db, k: Id, op: Op)
    requires WellFormed(db) && k in db.keys && db.keys[k].license in db.licenses && op.Verify?
    ensures WellFormed(AskOwner(db, k, op).0)
  {
    hide WellFormed;
    var n := db.next;
    var license := db.keys[k].license;
    var request := Request(license, k, op.device, op.origin, n, op.now, op.now + op.window, None, None, Active);
    RequestInsertKeepsWellFormed(db, n + 1, request, n + 3);
    var mail := NewEmail(license, Some(n + 1), ConfirmationLink(db.licenses[license].owner, op.origin, n), op.now);
    EmailInsertKeepsWellFormed(db.(requests := db.requests[n + 1 := request], next := n + 3), n + 2, mail, n + 3);
  }

  lemma VerifyKeepsWellFormed(db: Db, k: Id, op: Op)
    requires WellFormed(db) && op.Verify? && k in db.keys && db.keys[k].license in db.licenses
    requires op.pick.Some? ==> op.pick.value in db.requests
    ensures WellFormed(VerifyWithKey(db, k, op).0)
  {
    hide WellFormed, ReplaceStep, AskOwner, TrustedDevices, ActiveTrusted;
    InstallationUpdateKeepsWellFormed(db, Pair(db.keys[k].license, op.device), Installation(true, Active));
    AskKeepsWellFormed(db, k, op);
    if op.pick.Some? {
      ReplaceKeepsWellFormed(db, k, op.pick.value, op.device);
    }
  }

  lemma InstallationStateKeepsWellFormed(db: Db, p: Pair, state: RecordState)
    requires WellFormed(db) && p in db.installations
    ensures WellFormed(db.(installations := db.installations[p := db.installations[p].(state := state)]))
  {
    InstallationUpdateKeepsWellFormed(db, p, db.installations[p].(state := state));
    hide KeysSound, RequestsSound, EmailsSound;
  }

  lemma KeyStatesKeepSound(keys: map<Id, Key>, changed: map<Id, Key>, licenses: set<Id>, next: Id, state: RecordState)
    requires KeysSound(keys, licenses, next) && changed.Keys == keys.Keys
    requires forall k: Id :: k in changed ==> changed[k] == keys[k] || changed[k] == keys[k].(state := state)
    ensures KeysSound(changed, licenses, next)
  {
    assert forall k: Id :: k in changed ==> k in keys && changed[k].value == keys[k].value;
  }

  lemma RequestStatesKeepSound(requests: map<Id, Request>, changed: map<Id, Request>, licenses: set<Id>, next: Id,
                               state: RecordState)
    requires RequestsSound(requests, licenses, next) && changed.Keys == requests.Keys
    requires forall r: Id :: r in changed ==> changed[r] == requests[r] || changed[r] == requests[r].(state := state)
    ensures RequestsSound(changed, licenses, next)
  {
    assert forall r: Id :: r in changed ==> r in requests && changed[r].token == requests[r].token;
  }

  lemma LicenseStateKeepsWellFormed(db: Db, license: Id, state: RecordState)
    requires WellFormed(db)
    ensures WellFormed(LicenseStateStep(db, license, state).0)
  {
    hide KeysSound, RequestsSound, EmailsSound;
    var after := LicenseStateStep(db, license, state).0;
    assert after.licenses.Keys == db.licenses.Keys;
    KeyStatesKeepSound(db.keys, after.keys, db.licenses.Keys, db.next, state);
    RequestStatesKeepSound(db.requests, after.requests, db.licenses.Keys, db.next, state);
  }

  /** Closing any set of mails leaves the table sound. */
  lemma ClosingKeepsSound(emails: map<Id, Email>, closed: map<Id, Email>, licenses: set<Id>, next: Id, now: nat)
    requires EmailsSound(emails, licenses, next) && closed.Keys == emails.Keys
    requires forall e: Id :: e in closed ==> closed[e] == emails[e] || closed[e] == Closed(emails[e], now)
    ensures EmailsSound(closed, licenses, next)
  {
    forall e: Id | e in closed
      ensures e < next && closed[e].license in licenses && EmailSound(closed[e])
    {
      assert e in emails && EmailSound(emails[e]);
    }
  }

  lemma ConfirmKeepsWellFormed(db: Db, now: nat, token: Id)
    requires WellFormed(db)
    ensures WellFormed(ConfirmStep(db, now, token).0)
  {
    var found := RequestWithToken(db, token);
    if found.Some? {
      var r := found.value;
      RequestUpdateKeepsWellFormed(db, r, db.requests[r].(approvedAt := Some(now)));
      ClosingKeepsSound(db.emails, CloseMails(db.emails, r, now), db.licenses.Keys, db.next, now);
    }
    hide KeysSound, InstallationsSound, RequestsSound, EmailsSound, CloseMails;
  }

  lemma ReadKeepsWellFormed(db: Db, now: nat, keyValue: Id, license: Id)
    requires WellFormed(db)
    ensures WellFormed(ReadStep(db, now, keyValue, license).0)
  {
    ClosingKeepsSound(db.emails, CloseDeliverable(db.emails, license, now), db.licenses.Keys, db.next, now);
    hide KeysSound, InstallationsSound, RequestsSound, EmailsSound, CloseDeliverable, DeliverableIds;
  }

  lemma NotificationKeepsWellFormed(db: Db, op: Op)
    requires WellFormed(db) && op.CreateNotification?
    ensures WellFormed(NotificationStep(db, op).0)
  {
    hide Trim, WellFormed;
    var mail := Manual(Trim(op.recipient), Trim(op.subject), Trim(op.body));
    if op.license in db.licenses {
      EmailInsertKeepsWellFormed(db, db.next, NewEmail(op.license, None, mail, op.now), db.next + 1);
    }
  }

  lemma AdminRowKeepsWellFormed(db: Db, op: Op)
    requires WellFormed(db) && (op.Approve? || op.SetKeyActive? || op.SetKeyState? || op.SetRequestState?)
    ensures WellFormed(Step(db, op).0)
  {
    match op
    case Approve(now, r) =>
      if r in db.requests {
        RequestUpdateKeepsWellFormed(db, r, db.requests[r].(approvedAt := Some(now)));
      }
    case SetKeyActive(k, active) =>
      if k in db.keys {
        KeyUpdateKeepsWellFormed(db, k, db.keys[k].(active := active));
      }
    case SetKeyState(k, state) =>
      if k in db.keys {
        KeyUpdateKeepsWellFormed(db, k, db.keys[k].(state := state));
      }
    case SetRequestState(r, state) =>
      if r in db.requests {
        RequestUpdateKeepsWellFormed(db, r, db.requests[r].(state := state));
      }
    hide WellFormed;
  }

  /** Every transaction keeps the tables well formed. */
  lemma StepKeepsWellFormed(db: Db, op: Op)
    requires WellFormed(db) && Legal(db, op)
    ensures WellFormed(Step(db, op).0)
  {
    hide KeysSound, InstallationsSound, RequestsSound, EmailsSound;
    match op
    case Issue(owner) =>
      NewLicenseKeepsSound(db, owner, None);
    case Verify(_, value, _, _, _, _) =>
      hide WellFormed, VerifyWithKey;
      var found := FindActiveKey(db, value);
      if found.Some? {
        VerifyKeepsWellFormed(db, found.value, op);
      }
    case Confirm(now, token) =>
      ConfirmKeepsWellFormed(db, now, token);
    case SetLicenseState(license, state) =>
      LicenseStateKeepsWellFormed(db, license, state);
    case SetInstallationState(p, state) =>
      if p in db.installations {
        InstallationStateKeepsWellFormed(db, p, state);
      }
    case CreateNotification(_, _, _, _, _) =>
      NotificationKeepsWellFormed(db, op);
    case ReadNotifications(now, value, license) =>
      ReadKeepsWellFormed(db, now, value, license);
    case MarkSent(now, e) =>
      if e in db.emails {
        MarkKeepsWellFormed(db, e, MarkedSent(db.emails[e], now));
      }
    case MarkDelivered(now, e) =>
      if e in db.emails {
        MarkKeepsWellFormed(db, e, MarkedDelivered(db.emails[e], now));
      }
    case _ =>
      AdminRowKeepsWellFormed(db, op);
  }

  /** Every state a run passes through is well formed, and a run is its prefixes run one after the other. */
  lemma {:induction false} RunKeepsWellFormed(db: Db, ops: seq<Op>)
    requires WellFormed(db) && LegalRun(db, ops)
    ensures WellFormed(Run(db, ops))
    decreases |ops|
  {
    if ops != [] {
      StepKeepsWellFormed(db, ops[0]);
      RunKeepsWellFormed(Step(db, ops[0]).0, ops[1..]);
    }
  }

  lemma {:induction false} RunSplits(db: Db, ops: seq<Op>, k: nat)
    requires LegalRun(db, ops) && k <= |ops|
    ensures LegalRun(db, ops[..k]) && LegalRun(Run(db, ops[..k]), ops[k..])
    ensures Run(Run(db, ops[..k]), ops[k..]) == Run(db, ops)
    ensures k < |ops| ==> Legal(Run(db, ops[..k]), ops[k])
    decreases k
  {
    hide Step, Legal;
    if k == 0 {
      assert ops[..0] == [] && ops[0..] == ops;
    } else {
      RunSplits(Step(db, ops[0]).0, ops[1..], k - 1);
      assert ops[..k][1..] == ops[1..][..k - 1] && ops[k..] == ops[1..][k - 1..];
    }
  }

  lemma RunSnoc(db: Db, ops: seq<Op>, k: nat)
    requires LegalRun(db, ops) && k < |ops|
    ensures LegalRun(db, ops[..k]) && LegalRun(db, ops[..k + 1])
    ensures Legal(Run(db, ops[..k]), ops[k])
    ensures Run(db, ops[..k + 1]) == Step(Run(db, ops[..k]), ops[k]).0
  {
    hide Step, Legal;
    RunSplits(db, ops, k + 1);
    RunSplits(db, ops[..k + 1], k);
    assert ops[..k + 1][..k] == ops[..k];
    assert ops[..k + 1][k..] == [ops[k]] && ops[..k + 1][k..][1..] == [];
  }

  // ---------------------------------------------------------------- where trust comes from

  /** A verification of `p`'s device with a key of `p`'s license. */
  ghost predicate Asks(db: Db, op: Op, p: Pair) {
    && op.Verify?
    && op.device == p.device
    && var k := FindActiveKey(db, op.keyValue);
    && k.Some?
    && db.keys[k.value].license == p.license
  }

  /** The license had no active trusted installation. */
  ghost predicate FirstTrust(db: Db, op: Op, p: Pair) {
    Asks(db, op, p) && TrustedDevices(db, p.license) == {}
  }

  /** The latest request of the pair that is not archived or deleted has been approved. */
  ghost predicate ApprovedTrust(db: Db, op: Op, p: Pair) {
    && Asks(db, op, p)
    && op.pick.Some?
    && Open(db, op.pick.value, p)
    && db.requests[op.pick.value].approvedAt.Some?
  }

  /** The license does not exist yet: the device's own request ran out and a replacement is issued. */
  ghost predicate ReplacementTrust(db: Db, op: Op, p: Pair) {
    && p.license == db.next
    && op.Verify?
    && op.device == p.device
    && var k := FindActiveKey(db, op.keyValue);
    && k.Some?
    && var asked := Pair(db.keys[k.value].license, op.device);
    && TrustedDevices(db, asked.license) != {}
    && !ActiveTrusted(db, asked)
    && op.pick.Some?
    && Open(db, op.pick.value, asked)
    && db.requests[op.pick.value].approvedAt.None?
    && op.now >= db.requests[op.pick.value].expiresAt
  }

  ghost predicate Granted(db: Db, op: Op, p: Pair) {
    FirstTrust(db, op, p) || ApprovedTrust(db, op, p) || ReplacementTrust(db, op, p)
  }

  /** An administrator makes the row, or every row of its license, active again. */
  predicate Reactivates(op: Op, p: Pair) {
    op == SetInstallationState(p, Active) || op == SetLicenseState(p.license, Active)
  }

  predicate Withdraws(op: Op, p: Pair) {
    || (op.SetInstallationState? && op.pair == p && !op.state.Active?)
    || (op.SetLicenseState? && op.license == p.license && !op.state.Active?)
  }

  /** What a verification does to the installations: at most one pair is made trusted, for one of three reasons. */
  lemma VerifyInstallations(db: Db, op: Op, p: Pair)
    requires WellFormed(db) && op.Verify? && Legal(db, op)
    ensures p in Step(db, op).0.installations <==> p in db.installations || Granted(db, op, p)
    ensures ActiveTrusted(Step(db, op).0, p) <==> ActiveTrusted(db, p) || Granted(db, op, p)
  {
    hide TrustedDevices, KeysSound, RequestsSound, EmailsSound;
    var found := FindActiveKey(db, op.keyValue);
    if found.Some? {
      var k := found.value;
      var asked := Pair(db.keys[k].license, op.device);
      assert Asks(db, op, p) <==> p == asked;
      assert ActiveTrusted(db, asked) ==> asked.device in TrustedDevices(db, asked.license);
      assert p.license == db.next ==> p !in db.installations;
    }
  }

  /** Only verifications and two administrator's actions write the installations table. */
  lemma InstallationsUntouched(db: Db, op: Op)
    requires Legal(db, op) && !op.Verify? && !op.SetInstallationState? && !op.SetLicenseState?
    ensures Step(db, op).0.installations == db.installations
  {
    hide CloseMails, CloseDeliverable, DeliverableIds, RequestWithToken, FindActiveKey, Legal, Trim;
  }

  lemma LicenseStateInstallations(db: Db, license: Id, state: RecordState, p: Pair)
    requires WellFormed(db)
    ensures var after := LicenseStateStep(db, license, state).0;
      && after.installations.Keys == db.installations.Keys
      && (ActiveTrusted(after, p) <==>
            p in db.installations && (if p.license == license then state.Active? else ActiveTrusted(db, p)))
  {
    hide KeysSound, RequestsSound, EmailsSound;
  }

  /** Outside verifications only an administrator's state changes reach an installation. */
  lemma OtherInstallations(db: Db, op: Op, p: Pair)
    requires WellFormed(db) && !op.Verify? && Legal(db, op)
    ensures Step(db, op).0.installations.Keys == db.installations.Keys
    ensures !Granted(db, op, p)
    ensures ActiveTrusted(Step(db, op).0, p) <==>
      p in db.installations && !Withdraws(op, p) && (ActiveTrusted(db, p) || Reactivates(op, p))
  {
    assert !Granted(db, op, p);
    assert p in db.installations ==> db.installations[p].trusted;
    hide Granted, WellFormed, Legal, LicenseStateStep;
    if op.SetLicenseState? {
      LicenseStateInstallations(db, op.license, op.state, p);
    } else if !op.SetInstallationState? {
      InstallationsUntouched(db, op);
      hide Step;
    }
  }

  /** Trust in a pair begins, and ends, exactly for these reasons, whatever the transaction. */
  lemma TrustChangesExactly(db: Db, op: Op, p: Pair)
    requires WellFormed(db) && Legal(db, op)
    ensures !ActiveTrusted(db, p) ==>
      (ActiveTrusted(Step(db, op).0, p) <==> Granted(db, op, p) || (p in db.installations && Reactivates(op, p)))
    ensures ActiveTrusted(db, p) ==> (!ActiveTrusted(Step(db, op).0, p) <==> Withdraws(op, p))
  {
    assert op.Verify? ==> !Reactivates(op, p) && !Withdraws(op, p);
    assert !(Reactivates(op, p) && Withdraws(op, p));
    assert ActiveTrusted(db, p) ==> p in db.installations;
    hide *;
    if op.Verify? {
      VerifyInstallations(db, op, p);
    } else {
      OtherInstallations(db, op, p);
    }
  }
}
