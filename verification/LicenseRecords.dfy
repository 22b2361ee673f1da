/** What each transaction writes into the rows: record states, times, texts and references. */
module LicenseRecords {
  import opened Wrappers
  import opened LicenseSpec
  import opened LicenseFlows
  import opened LicenseWaits

  // ---------------------------------------------------------------- when a key works

  predicate LicenseActive(db: Db, license: Id) {
    license in db.licenses && db.licenses[license].state.Active?
  }

  /** The transaction gives a key that exists the one thing it lacked. */
  ghost predicate Enables(db: Db, op: Op, k: Id, value: Id) {
    && k in db.keys && db.keys[k].value == value
    && (|| (op == SetKeyActive(k, true) && db.keys[k].state.Active? && LicenseActive(db, db.keys[k].license))
        || (op == SetKeyState(k, Active) && db.keys[k].active && LicenseActive(db, db.keys[k].license))
        || (op == SetLicenseState(db.keys[k].license, Active) && db.keys[k].active
              && db.keys[k].license in db.licenses))
  }

  /** The transaction takes from a key one of the things it needs. */
  ghost predicate Stops(db: Db, op: Op, k: Id) {
    && k in db.keys
    && (|| op == SetKeyActive(k, false)
        || (op.SetKeyState? && op.key == k && !op.state.Active?)
        || (op.SetLicenseState? && op.license == db.keys[k].license && !op.state.Active?))
  }

  /** The transaction writes a new license, and its key with this id and value. */
  ghost predicate Creates(db: Db, op: Op, k: Id, value: Id) {
    && k == db.next + 1 && value == db.next + 2
    && (op.Issue? || (op.Verify? && Legal(db, op) && Replaced(Step(db, op).1)))
  }

  /** A key works after a transaction exactly if it worked before and was not stopped, was enabled, or is new. */
  lemma KeyWorksExactly(db: Db, op: Op, k: Id, value: Id)
    requires WellFormed(db) && Legal(db, op)
    ensures UsableKey(Step(db, op).0, k, value) <==>
      (UsableKey(db, k, value) && !Stops(db, op, k)) || Enables(db, op, k, value) || Creates(db, op, k, value)
  {
    if op.Verify? {
      VerifyAndKey(db, op, k, value);
    } else if op.Issue? {
      IssueAndKey(db, op, k, value);
    } else if op.SetLicenseState? {
      LicenseStateAndKey(db, op, k, value);
    } else if op.SetKeyActive? || op.SetKeyState? {
      KeyRowAndKey(db, op, k, value);
    } else {
      KeysUntouched(db, op);
      hide Step, WellFormed, Legal;
    }
  }

  lemma VerifyAndKey(db: Db, op: Op, k: Id, value: Id)
    requires WellFormed(db) && Legal(db, op) && op.Verify?
    ensures UsableKey(Step(db, op).0, k, value) <==> UsableKey(db, k, value) || Creates(db, op, k, value)
  {
    hide TrustedDevices, ActiveTrusted, InstallationsSound, RequestsSound, EmailsSound;
  }

  lemma IssueAndKey(db: Db, op: Op, k: Id, value: Id)
    requires WellFormed(db) && Legal(db, op) && op.Issue?
    ensures UsableKey(Step(db, op).0, k, value) <==> UsableKey(db, k, value) || Creates(db, op, k, value)
  {
    hide InstallationsSound, RequestsSound, EmailsSound;
  }

  lemma LicenseStateAndKey(db: Db, op: Op, k: Id, value: Id)
    requires WellFormed(db) && Legal(db, op) && op.SetLicenseState?
    ensures UsableKey(Step(db, op).0, k, value) <==>
      (UsableKey(db, k, value) && !Stops(db, op, k)) || Enables(db, op, k, value)
  {
    hide InstallationsSound, RequestsSound, EmailsSound;
  }

  lemma KeyRowAndKey(db: Db, op: Op, k: Id, value: Id)
    requires WellFormed(db) && Legal(db, op) && (op.SetKeyActive? || op.SetKeyState?)
    ensures UsableKey(Step(db, op).0, k, value) <==>
      (UsableKey(db, k, value) && !Stops(db, op, k)) || Enables(db, op, k, value)
  {
    hide InstallationsSound, RequestsSound, EmailsSound;
  }

  // ---------------------------------------------------------------- rows that administrators write

  /** A license's record state becomes that of its keys, installations and requests; nothing else is written. */
  lemma LicenseStateReaches(db: Db, license: Id, state: RecordState)
    requires license in db.licenses
    ensures var (after, reply) := Step(db, SetLicenseState(license, state));
      && reply == Done && after.emails == db.emails && after.next == db.next
      && after.licenses.Keys == db.licenses.Keys && after.keys.Keys == db.keys.Keys
      && after.installations.Keys == db.installations.Keys && after.requests.Keys == db.requests.Keys
      && after.licenses[license].state == state && after.licenses[license].owner == db.licenses[license].owner
      && (forall l: Id :: l in db.licenses && l != license ==> after.licenses[l] == db.licenses[l])
      && (forall k: Id :: k in db.keys ==>
            && after.keys[k].state == (if db.keys[k].license == license then state else db.keys[k].state)
            && after.keys[k].(state := Active) == db.keys[k].(state := Active))
      && (forall p: Pair :: p in db.installations ==>
            && after.installations[p].trusted == db.installations[p].trusted
            && after.installations[p].state == if p.license == license then state else db.installations[p].state)
      && (forall r: Id :: r in db.requests ==>
            && after.requests[r].state == (if db.requests[r].license == license then state else db.requests[r].state)
            && after.requests[r].(state := Active) == db.requests[r].(state := Active))
  {
  }

  /** The other administrator's transactions write one field of one row, or refuse. */
  lemma SingleRowWritten(db: Db, op: Op)
    requires op.SetKeyActive? || op.SetKeyState? || op.SetInstallationState? || op.SetRequestState?
    ensures Legal(db, op)
    ensures var (after, reply) := Step(db, op);
      match op
      case SetKeyActive(k, active) =>
        if k !in db.keys then after == db && reply == Refused(KeyNotFound)
        else
          && reply == Done && after == db.(keys := after.keys) && after.keys.Keys == db.keys.Keys
          && (forall j: Id :: j in db.keys && j != k ==> after.keys[j] == db.keys[j])
          && after.keys[k].active == active && after.keys[k].(active := true) == db.keys[k].(active := true)
      case SetKeyState(k, state) =>
        if k !in db.keys then after == db && reply == Refused(KeyNotFound)
        else
          && reply == Done && after == db.(keys := after.keys) && after.keys.Keys == db.keys.Keys
          && (forall j: Id :: j in db.keys && j != k ==> after.keys[j] == db.keys[j])
          && after.keys[k].state == state && after.keys[k].(state := Active) == db.keys[k].(state := Active)
      case SetInstallationState(p, state) =>
        if p !in db.installations then after == db && reply == Refused(InstallationNotFound)
        else
          && reply == Done && after == db.(installations := after.installations)
          && after.installations.Keys == db.installations.Keys
          && (forall q: Pair :: q in db.installations && q != p ==> after.installations[q] == db.installations[q])
          && after.installations[p].state == state && after.installations[p].trusted == db.installations[p].trusted
      case SetRequestState(r, state) =>
        if r !in db.requests then after == db && reply == Refused(RequestNotFound)
        else
          && reply == Done && after == db.(requests := after.requests) && after.requests.Keys == db.requests.Keys
          && (forall q: Id :: q in db.requests && q != r ==> after.requests[q] == db.requests[q])
          && after.requests[r].state == state && after.requests[r].(state := Active) == db.requests[r].(state := Active)
      case _ => true
  {
  }

  /** A license with one key that works, for the owner given, and nothing else. */
  lemma IssuedRows(db: Db, owner: string)
    requires WellFormed(db)
    ensures var (after, reply) := Step(db, Issue(owner));
      && reply.Issued? && reply.license !in db.licenses
      && after.licenses == db.licenses[reply.license := after.licenses[reply.license]]
      && after.licenses[reply.license].owner == owner && after.licenses[reply.license].state.Active?
      && after.installations == db.installations && after.requests == db.requests && after.emails == db.emails
      && exists k: Id ::
           && k !in db.keys && k in after.keys && after.keys == db.keys[k := after.keys[k]]
           && UsableKey(after, k, reply.keyValue)
           && after.keys[k].license == reply.license && after.keys[k].rotatedFrom.None?
           && forall j: Id :: j in db.keys ==> db.keys[j].value != reply.keyValue
  {
    var k := db.next + 1;
    var after := Step(db, Issue(owner)).0;
    assert k !in db.keys && after.keys == db.keys[k := after.keys[k]] && UsableKey(after, k, db.next + 2);
  }

  // ---------------------------------------------------------------- requests and replacements

  /** What is written when the owner is asked: who asks, with which key, from where, and until when. */
  lemma AskedRows(db: Db, ask: Op, k: Id)
    requires WellFormed(db) && Legal(db, ask) && AsksOwner(db, ask, k)
    ensures k in db.keys && db.keys[k].license in db.licenses
    ensures var after := Step(db, ask).0;
      && db.next + 1 in after.requests && db.next + 2 in after.emails
      && var r, e := after.requests[db.next + 1], after.emails[db.next + 2];
      && after.requests == db.requests[db.next + 1 := r] && after.emails == db.emails[db.next + 2 := e]
      && r.license == db.keys[k].license && r.sourceKey == k && r.device == ask.device && r.origin == ask.origin
      && r.createdAt == ask.now && r.expiresAt == ask.now + ask.window
      && r.approvedAt.None? && r.replacement.None? && r.state.Active?
      && e.license == r.license && e.request == Some(db.next + 1) && e.createdAt == ask.now
      && e.sentAt.None? && e.deliveredAt.None? && e.readAt.None? && e.notification.Queued? && e.state.Active?
      && e.mail.ConfirmationLink? && e.mail.owner == db.licenses[r.license].owner
      && e.mail.origin == ask.origin && e.mail.token == r.token
  {
    StepVerify(db, ask, k);
    assert db.next + 1 !in db.requests;
    hide WellFormed, Legal, Step, TrustedDevices, ActiveTrusted, FindActiveKey;
  }

  /** What is written when a replacement is issued: the new license, and on the request which one it was. */
  lemma ReplacedRows(db: Db, op: Op)
    requires WellFormed(db) && op.Verify? && Legal(db, op) && Replaced(Step(db, op).1)
    ensures var (after, reply) := Step(db, op);
      && FindActiveKey(db, op.keyValue).Some? && op.pick.Some?
      && var k, r := FindActiveKey(db, op.keyValue).value, op.pick.value;
      && r in db.requests
      && after.requests == db.requests[r := db.requests[r].(replacement := Some(Replacement(reply.license, reply.key)))]
      && after.emails == db.emails
      && after.licenses == db.licenses[reply.license := License(db.licenses[db.keys[k].license].owner, Active)]
      && reply.key !in db.keys && reply.key in after.keys && after.keys == db.keys[reply.key := after.keys[reply.key]]
      && after.keys[reply.key].rotatedFrom == Some(k) && after.keys[reply.key].license == reply.license
      && Some(after.keys[reply.key].value) == reply.replacementKey
      && after.installations == db.installations[Pair(reply.license, op.device) := Installation(true, Active)]
  {
    ReplacedWaits(db, op);
    assert db.next + 1 !in db.keys;
    hide WellFormed, Legal, Step, TrustedDevices, ActiveTrusted, FindActiveKey;
  }

  /** Request `r` is confirmed by `token` for the first time. */
  predicate FirstTime(db: Db, r: Id, token: Id) {
    r in db.requests && db.requests[r].token == token && db.requests[r].approvedAt.None?
  }

  /** A confirmation writes the time of approval; a second one, or one with an unknown token, writes nothing. */
  lemma ConfirmedRows(db: Db, now: nat, token: Id)
    requires WellFormed(db)
    ensures var (after, reply) := Step(db, Op.Confirm(now, token));
      && after == db.(requests := after.requests, emails := after.emails)
      && after.requests.Keys == db.requests.Keys
      && (forall r: Id :: r in db.requests ==>
            after.requests[r] ==
              if FirstTime(db, r, token) then db.requests[r].(approvedAt := Some(now)) else db.requests[r])
      && (reply == Confirmed(None) <==> forall r: Id :: r in db.requests ==> db.requests[r].token != token)
      && ((forall r: Id :: !FirstTime(db, r, token)) ==> after == db)
  {
    var found := RequestWithToken(db, token);
    assert Step(db, Op.Confirm(now, token)) == ConfirmStep(db, now, token);
    forall r: Id | r in db.requests && db.requests[r].token == token
      ensures found == Some(r)
    {
      TokenFound(db, r);
    }
    hide WellFormed, Step, RequestWithToken, CloseMails;
    assert found.Some? && db.requests[found.value].approvedAt.None? ==> FirstTime(db, found.value, token);
  }

  /** It closes exactly the mails of the request it confirms that are not deleted, and leaves their sent times. */
  lemma ConfirmedMails(db: Db, now: nat, r: Id, e: Id)
    requires WellFormed(db) && r in db.requests && e in db.emails
    ensures var after := Step(db, Op.Confirm(now, db.requests[r].token)).0;
      && after.emails.Keys == db.emails.Keys
      && after.emails[e] ==
           if db.requests[r].approvedAt.None? && db.emails[e].request == Some(r) && !db.emails[e].state.Deleted?
           then db.emails[e].(notification := Read, readAt := Some(now), state := Deleted)
           else db.emails[e]
  {
    ConfirmIs(db, r, now);
    hide WellFormed, Step;
  }

  /** An administrator's approval writes the time and leaves mails alone. */
  lemma ApprovedRows(db: Db, now: nat, r: Id)
    ensures var (after, reply) := Step(db, Approve(now, r));
      if r !in db.requests then after == db && reply == Refused(RequestNotFound)
      else
        && reply == Done && after == db.(requests := after.requests)
        && after.requests == db.requests[r := after.requests[r]]
        && after.requests[r] ==
             if db.requests[r].approvedAt.Some? then db.requests[r] else db.requests[r].(approvedAt := Some(now))
  {
    if r in db.requests {
      assert db.requests[r := db.requests[r]] == db.requests;
    }
  }

  // ---------------------------------------------------------------- notifications

  /** The code points that have the Unicode property White_Space. */
  lemma WhiteSpace(c: char)
    ensures White(c) <==> c as int in {9, 10, 11, 12, 13, 32, 133, 160, 5760, 8192, 8193, 8194, 8195, 8196, 8197, 8198,
                                       8199, 8200, 8201, 8202, 8232, 8233, 8239, 8287, 12288}
  {
  }

  /** Trimming takes white space from both ends, all of it, and nothing else. */
  lemma {:induction false} TrimTakesEnds(s: string) returns (left: string, right: string)
    ensures s == left + Trim(s) + right
    ensures (forall i :: 0 <= i < |left| ==> White(left[i])) && (forall i :: 0 <= i < |right| ==> White(right[i]))
    ensures Trim(s) != [] ==> !White(Trim(s)[0]) && !White(Trim(s)[|Trim(s)| - 1])
    decreases |s|
  {
    hide White;
    left, right := [], [];
    if s != [] && White(s[0]) {
      left, right := TrimTakesEnds(s[1..]);
      FrontAgain(s, left, Trim(s[1..]), right);
      left := [s[0]] + left;
    } else if s != [] && White(s[|s| - 1]) {
      left, right := TrimTakesEnds(s[..|s| - 1]);
      BackAgain(s, left, Trim(s[..|s| - 1]), right);
      right := right + [s[|s| - 1]];
    } else {
      assert [] + s + [] == s;
    }
  }

  lemma FrontAgain(s: string, a: string, b: string, c: string)
    requires s != [] && s[1..] == a + b + c
    ensures s == [s[0]] + a + b + c
  {
  }

  lemma BackAgain(s: string, a: string, b: string, c: string)
    requires s != [] && s[..|s| - 1] == a + b + c
    ensures s == a + b + (c + [s[|s| - 1]])
  {
  }

  /** A notification is refused for the first of its flaws, and otherwise queued with its texts trimmed. */
  lemma NotificationRows(db: Db, op: Op)
    requires WellFormed(db) && op.CreateNotification?
    ensures Legal(db, op)
    ensures var (after, reply) := Step(db, op);
      if op.license !in db.licenses then after == db && reply == Refused(LicenseNotFound)
      else if forall i :: 0 <= i < |op.recipient| ==> White(op.recipient[i]) then
        after == db && reply == Refused(RecipientRequired)
      else if forall i :: 0 <= i < |op.subject| ==> White(op.subject[i]) then
        after == db && reply == Refused(SubjectRequired)
      else if forall i :: 0 <= i < |op.body| ==> White(op.body[i]) then after == db && reply == Refused(BodyRequired)
      else
        && reply.Accepted? && reply.email !in db.emails && reply.email in after.emails
        && after == db.(emails := after.emails, next := after.next)
        && after.emails == db.emails[reply.email := after.emails[reply.email]]
        && var e := after.emails[reply.email];
        && e.license == op.license && e.request.None? && e.createdAt == op.now
        && e.sentAt.None? && e.deliveredAt.None? && e.readAt.None? && e.notification.Queued? && e.state.Active?
        && e.mail.Manual? && e.mail.recipient == Trim(op.recipient) && e.mail.subject == Trim(op.subject)
        && e.mail.body == Trim(op.body)
  {
    assert db.next !in db.emails;
    hide Trim, White, WellFormed;
  }

  /** The first mark writes the time, later ones keep it; either way the mail is "sent" or "delivered" again. */
  lemma MarkedRows(db: Db, now: nat, e: Id)
    requires e in db.emails
    ensures var sent := Step(db, MarkSent(now, e)).0;
      && sent == db.(emails := sent.emails) && sent.emails == db.emails[e := sent.emails[e]]
      && sent.emails[e] == db.emails[e].(notification := Sent,
           sentAt := if db.emails[e].sentAt.None? then Some(now) else db.emails[e].sentAt)
    ensures var delivered := Step(db, MarkDelivered(now, e)).0;
      && delivered == db.(emails := delivered.emails) && delivered.emails == db.emails[e := delivered.emails[e]]
      && delivered.emails[e] == db.emails[e].(notification := Delivered,
           sentAt := if db.emails[e].sentAt.None? then Some(now) else db.emails[e].sentAt,
           deliveredAt := if db.emails[e].deliveredAt.None? then Some(now) else db.emails[e].deliveredAt)
  {
  }

  /**
   * A read with a usable key of the license returns exactly its live manual notifications that are marked sent or
   * delivered, and writes to exactly those that they were read now and are deleted; any other read writes nothing.
   */
  lemma ReadRows(db: Db, now: nat, keyValue: Id, license: Id)
    requires WellFormed(db)
    ensures var (after, reply) := Step(db, Op.ReadNotifications(now, keyValue, license));
      var allowed := exists k: Id :: UsableKey(db, k, keyValue) && db.keys[k].license == license;
      && (!allowed ==> after == db && reply.Refused?)
      && (allowed ==>
            && reply.Notifications? && after == db.(emails := after.emails) && after.emails.Keys == db.emails.Keys
            && forall e: Id ::
                 && (e in reply.ids ==> e in db.emails)
                 && (e in db.emails ==>
                       && (e in reply.ids <==>
                             && db.emails[e].license == license && db.emails[e].request.None?
                             && db.emails[e].state.Active? && db.emails[e].notification in {Sent, Delivered})
                       && after.emails[e] ==
                            if e in reply.ids
                            then db.emails[e].(notification := Read, readAt := Some(now), state := Deleted)
                            else db.emails[e]))
  {
    var found := FindActiveKey(db, keyValue);
    assert Step(db, Op.ReadNotifications(now, keyValue, license)) == ReadStep(db, now, keyValue, license);
    forall k: Id | UsableKey(db, k, keyValue)
      ensures found == Some(k)
    {
      KeyIsFound(db, k, keyValue);
    }
    hide WellFormed, Step, FindActiveKey;
  }

  /** A request is recorded with the address the client claims, or else with that of its connection. */
  lemma ClaimedAddressFirst(claimed: Origin, remoteIp: Option<string>)
    ensures var origin := EffectiveOrigin(claimed, remoteIp);
      && origin.os == claimed.os && origin.arch == claimed.arch && origin.hostname == claimed.hostname
      && (claimed.ip.Some? ==> origin.ip == claimed.ip)
      && (claimed.ip.None? ==> origin.ip == remoteIp)
  {
  }
}
