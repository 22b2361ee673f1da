/** The database object: one method per transaction, each proved to be the step of the same name. */
module LicenseServer {
  import opened Wrappers
  import opened LicenseSpec
  import opened LicenseTheorems

  lemma {:induction false} MaxExists(s: set<Id>, rank: Id -> int) returns (top: Id)
    requires s != {}
    ensures top in s && forall x: Id :: x in s ==> rank(x) <= rank(top)
    decreases |s|
  {
    var x: Id :| x in s;
    top := x;
    if y: Id :| y in s && y != x {
      assert y in s - {x};
      var other := MaxExists(s - {x}, rank);
      if rank(x) < rank(other) {
        top := other;
      }
    }
  }

  lemma LatestExists(db: Db, p: Pair) returns (pick: Option<Id>)
    ensures Latest(db, p, pick)
  {
    var open := set r | r in db.requests && Open(db, r, p);
    if r: Id :| Open(db, r, p) {
      assert r in open;
      var top := MaxExists(open, (r: Id) => if r in db.requests then db.requests[r].createdAt else 0);
      assert forall q: Id :: Open(db, q, p) ==> q in open;
      pick := Some(top);
    } else {
      pick := None;
    }
  }

  lemma VerifyIsStep(db: Db, k: Id, op: Op)
    requires WellFormed(db) && op.Verify? && FindActiveKey(db, op.keyValue) == Some(k)
    requires Latest(db, Pair(db.keys[k].license, op.device), op.pick)
    ensures Legal(db, op) && Step(db, op) == VerifyWithKey(db, k, op) && WellFormed(Step(db, op).0)
    ensures db.next + 2 !in db.emails
  {
    StepKeepsWellFormed(db, op);
  }

  /** Each id once, all of them mails, by creation time. */
  predicate OldestFirst(ids: seq<Id>, emails: map<Id, Email>) {
    && (forall e: Id :: e in ids ==> e in emails)
    && (forall i, j :: 0 <= i < j < |ids| ==> ids[i] != ids[j] && emails[ids[i]].createdAt <= emails[ids[j]].createdAt)
  }

  function Newness(emails: map<Id, Email>, e: Id): int {
    if e in emails then emails[e].createdAt else 0
  }

  lemma OldestExists(emails: map<Id, Email>, left: set<Id>) returns (oldest: Id)
    requires left != {} && left <= emails.Keys
    ensures oldest in left && forall x: Id :: x in left ==> emails[oldest].createdAt <= emails[x].createdAt
  {
    oldest := MaxExists(left, (e: Id) => -Newness(emails, e));
    forall x: Id | x in left
      ensures emails[oldest].createdAt <= emails[x].createdAt
    {
      assert -Newness(emails, x) <= -Newness(emails, oldest);
    }
  }

  lemma OldestFirstGrows(ids: seq<Id>, emails: map<Id, Email>, e: Id)
    requires OldestFirst(ids, emails) && e in emails
    requires forall x: Id :: x in ids ==> x != e && emails[x].createdAt <= emails[e].createdAt
    ensures OldestFirst(ids + [e], emails)
  {
  }

  lemma ReadIsStep(db: Db, now: nat, keyValue: Id, license: Id, k: Id)
    requires FindActiveKey(db, keyValue) == Some(k) && db.keys[k].license == license
    ensures Step(db, Op.ReadNotifications(now, keyValue, license)) ==
      (db.(emails := CloseDeliverable(db.emails, license, now)), Notifications(DeliverableIds(db, license)))
  {
    hide CloseDeliverable, DeliverableIds, UsableKey;
  }

  class Database {
    var licenses: map<Id, License>
    var keys: map<Id, Key>
    var installations: map<Pair, Installation>
    var requests: map<Id, Request>
    var emails: map<Id, Email>
    var next: Id

    function Tables(): Db
      reads this
    {
      Db(licenses, keys, installations, requests, emails, next)
    }

    constructor ()
      ensures Tables() == EMPTY && WellFormed(Tables())
    {
      licenses, keys, installations, requests, emails, next := map[], map[], map[], map[], map[], 0;
    }

    // -------------------------------------------------------------- queries

    method FindActiveKeyRow(value: Id) returns (k: Option<Id>)
      requires WellFormed(Tables())
      ensures k == FindActiveKey(Tables(), value)
    {
      if j: Id :| (
        && j in keys && keys[j].value == value && keys[j].active && keys[j].state.Active?
        && keys[j].license in licenses && licenses[keys[j].license].state.Active?
      ) {
        assert UsableKey(Tables(), j, value);
        k := Some(j);
      } else {
        assert forall j: Id :: !UsableKey(Tables(), j, value);
        k := None;
      }
    }

    /** `COUNT(*)` of the license's trusted, active installations. */
    method CountTrustedInstallations(license: Id) returns (count: nat)
      ensures count == |TrustedDevices(Tables(), license)|
    {
      var rows := set p | p in installations && p.license == license && installations[p].trusted
        && installations[p].state.Active? :: p.device;
      assert rows == TrustedDevices(Tables(), license) by {
        forall d: Device
          ensures d in rows <==> d in TrustedDevices(Tables(), license)
        {
          assert ActiveTrusted(Tables(), Pair(license, d)) ==> Pair(license, d).device in rows;
        }
      }
      count := |rows|;
    }

    /** `ORDER BY created_at DESC LIMIT 1`; which of several rows of one second is returned is left open. */
    method FindPendingRequest(p: Pair) returns (pick: Option<Id>)
      ensures Latest(Tables(), p, pick) && (pick.Some? ==> pick.value in requests)
    {
      var open := set r | r in requests && requests[r].license == p.license && requests[r].device == p.device
        && requests[r].state.Active?;
      assert forall r: Id :: Open(Tables(), r, p) <==> r in open;
      if open == {} {
        pick := None;
      } else {
        ghost var top := LatestExists(Tables(), p);
        assert top.Some? && top.value in open;
        var r: Id :| r in open && forall q: Id :: q in open ==> requests[q].createdAt <= requests[r].createdAt;
        pick := Some(r);
      }
    }

    // -------------------------------------------------------------- keys and verification

    method IssueLicense(owner: string) returns (reply: Reply)
      requires WellFormed(Tables())
      modifies this
      ensures (Tables(), reply) == Step(old(Tables()), Issue(owner)) && WellFormed(Tables())
    {
      StepKeepsWellFormed(Tables(), Issue(owner));
      hide WellFormed;
      var license, key, value := next, next + 1, next + 2;
      next := next + 3;
      licenses := licenses[license := License(owner, Active)];
      keys := keys[key := Key(license, value, true, None, Active)];
      reply := Issued(license, value);
    }

    method UpsertTrustedInstallation(p: Pair)
      modifies this`installations
      ensures Tables() == Trusting(old(Tables()), p)
    {
      installations := installations[p := Installation(true, Active)];
    }

    method IssueReplacementLicense(k: Id, device: Device) returns (license: Id, key: Id, value: Id)
      requires k in keys && keys[k].license in licenses
      modifies this`licenses, this`keys, this`installations, this`next
      ensures (license, key, value) == (old(next), old(next) + 1, old(next) + 2) && next == old(next) + 3
      ensures licenses == old(licenses)[license := License(old(licenses[keys[k].license].owner), Active)]
      ensures keys == old(keys)[key := Key(license, value, true, Some(k), Active)]
      ensures installations == old(installations)[Pair(license, device) := Installation(true, Active)]
    {
      var owner := licenses[keys[k].license].owner;
      license, key, value := next, next + 1, next + 2;
      next := next + 3;
      licenses := licenses[license := License(owner, Active)];
      keys := keys[key := Key(license, value, true, Some(k), Active)];
      installations := installations[Pair(license, device) := Installation(true, Active)];
    }

    method EnqueueEmail(license: Id, request: Option<Id>, mail: Mail, now: nat) returns (e: Id)
      modifies this`emails, this`next
      ensures e == old(next) && next == old(next) + 1
      ensures emails == old(emails)[e := NewEmail(license, request, mail, now)]
    {
      e := next;
      next := next + 1;
      emails := emails[e := Email(license, request, mail, now, None, None, None, Queued, Active)];
    }

    /** The branch of `verify_key` for a request that ran out. */
    method ReplaceExpired(r: Id, k: Id, device: Device) returns (reply: Reply)
      requires k in keys && keys[k].license in licenses && r in requests
      modifies this`licenses, this`keys, this`installations, this`requests, this`next
      ensures (Tables(), reply) == ReplaceStep(old(Tables()), k, r, device)
    {
      var license, key, value := IssueReplacementLicense(k, device);
      requests := requests[r := requests[r].(replacement := Some(Replacement(license, key)))];
      reply := Verdict(license, key, ReplacementIssued, Some(value));
    }

    /** The branch of `verify_key` for a device without an open request; `mail` is left queued. */
    method AskForConfirmation(now: nat, keyValue: Id, k: Id, device: Device, origin: Origin, window: nat)
      returns (reply: Reply, mail: Id)
      requires k in keys && keys[k].license in licenses
      modifies this`requests, this`emails, this`next
      ensures (Tables(), reply) == AskOwner(old(Tables()), k, Verify(now, keyValue, device, origin, window, None))
      ensures mail == old(next) + 2 && mail in emails && emails == old(emails)[mail := emails[mail]]
    {
      var license := keys[k].license;
      var token, request := next, next + 1;
      next := next + 2;
      requests := requests[request :=
        Request(license, k, device, origin, token, now, now + window, None, None, Active)];
      mail := EnqueueEmail(license, Some(request), ConfirmationLink(licenses[license].owner, origin, token), now);
      reply := Verdict(license, k, PendingConfirmation, None);
    }

    /**
     * `verify_key` up to its commit. The address is the claimed one, or the connection's if none is claimed. `pick` is
     * the request row the query returned; `mail` is the confirmation mail to send and then mark, in transactions of
     * their own.
     */
    method VerifyKey(now: nat, keyValue: Id, device: Device, claimed: Origin, remoteIp: Option<string>, window: nat)
      returns (reply: Reply, mail: Option<Id>, ghost pick: Option<Id>)
      requires WellFormed(Tables())
      modifies this
      ensures Legal(old(Tables()), Verify(now, keyValue, device, EffectiveOrigin(claimed, remoteIp), window, pick))
      ensures (Tables(), reply)
        == Step(old(Tables()), Verify(now, keyValue, device, EffectiveOrigin(claimed, remoteIp), window, pick))
      ensures WellFormed(Tables())
      ensures if mail.Some? then
                && mail.value !in old(emails) && mail.value in emails
                && emails == old(emails)[mail.value := emails[mail.value]]
              else emails == old(emails)
    {
      ghost var before := Tables();
      var origin := EffectiveOrigin(claimed, remoteIp);
      mail, pick := None, None;
      var found := FindActiveKeyRow(keyValue);
      if found.None? {
        reply := Refused(KeyNotFoundOrInactive);
        return;
      }
      var k := found.value;
      var p := Pair(keys[k].license, device);
      pick := LatestExists(before, p);
      VerifyIsStep(before, k, Verify(now, keyValue, device, origin, window, pick));
      var trusted := CountTrustedInstallations(p.license);
      hide WellFormed, Legal, Step, TrustedDevices, FindActiveKey, Latest, UsableKey, AskOwner, ReplaceStep;
      if trusted == 0 {
        UpsertTrustedInstallation(p);
        reply := Verdict(p.license, k, Entitled, None);
        return;
      }
      if p in installations && installations[p].state.Active? && installations[p].trusted {
        reply := Verdict(p.license, k, Entitled, None);
        return;
      }
      var row := FindPendingRequest(p);
      pick := row;
      VerifyIsStep(before, k, Verify(now, keyValue, device, origin, window, pick));
      if row.Some? {
        var r := row.value;
        if requests[r].approvedAt.Some? {
          UpsertTrustedInstallation(p);
          reply := Verdict(p.license, k, Entitled, None);
          return;
        }
        if now >= requests[r].expiresAt {
          reply := ReplaceExpired(r, k, device);
          return;
        }
        reply := Verdict(p.license, k, PendingConfirmation, None);
        return;
      }
      var e: Id;
      reply, e := AskForConfirmation(now, keyValue, k, device, origin, window);
      mail := Some(e);
    }

    // -------------------------------------------------------------- confirmation and administration

    method ConfirmRequest(now: nat, token: Id) returns (reply: Reply)
      requires WellFormed(Tables())
      modifies this`requests, this`emails
      ensures (Tables(), reply) == Step(old(Tables()), Op.Confirm(now, token)) && WellFormed(Tables())
    {
      ghost var before := Tables();
      StepKeepsWellFormed(before, Op.Confirm(now, token));
      if r: Id :| r in requests && requests[r].token == token {
        assert RequestWithToken(before, token) == Some(r);
        assert Step(before, Op.Confirm(now, token)) == ConfirmStep(before, now, token);
        hide WellFormed, RequestWithToken, Step, CloseMails;
        if requests[r].approvedAt.None? {
          requests := requests[r := requests[r].(approvedAt := Some(now))];
          emails := CloseMails(emails, r, now);
        }
        reply := Confirmed(Some(requests[r].license));
      } else {
        assert RequestWithToken(before, token) == None;
        hide WellFormed, RequestWithToken;
        reply := Confirmed(None);
      }
    }

    method ApproveRequestById(now: nat, r: Id) returns (reply: Reply)
      requires WellFormed(Tables())
      modifies this`requests
      ensures (Tables(), reply) == Step(old(Tables()), Approve(now, r)) && WellFormed(Tables())
    {
      StepKeepsWellFormed(Tables(), Approve(now, r));
      hide WellFormed;
      if r !in requests {
        return Refused(RequestNotFound);
      }
      if requests[r].approvedAt.None? {
        requests := requests[r := requests[r].(approvedAt := Some(now))];
      }
      reply := Done;
    }

    method SetActive(k: Id, active: bool) returns (reply: Reply)
      requires WellFormed(Tables())
      modifies this`keys
      ensures (Tables(), reply) == Step(old(Tables()), SetKeyActive(k, active)) && WellFormed(Tables())
    {
      StepKeepsWellFormed(Tables(), SetKeyActive(k, active));
      hide WellFormed;
      if k !in keys {
        return Refused(KeyNotFound);
      }
      keys := keys[k := keys[k].(active := active)];
      reply := Done;
    }

    method SetLicenseRecordState(license: Id, state: RecordState) returns (reply: Reply)
      requires WellFormed(Tables())
      modifies this`licenses, this`keys, this`installations, this`requests
      ensures (Tables(), reply) == Step(old(Tables()), SetLicenseState(license, state)) && WellFormed(Tables())
    {
      StepKeepsWellFormed(Tables(), SetLicenseState(license, state));
      assert Step(Tables(), SetLicenseState(license, state)) == LicenseStateStep(Tables(), license, state);
      hide WellFormed, Step;
      if license !in licenses {
        return Refused(LicenseNotFound);
      }
      licenses := licenses[license := licenses[license].(state := state)];
      keys := map k | k in keys :: if keys[k].license == license then keys[k].(state := state) else keys[k];
      installations := map p | p in installations ::
        if p.license == license then installations[p].(state := state) else installations[p];
      requests := map r | r in requests ::
        if requests[r].license == license then requests[r].(state := state) else requests[r];
      reply := Done;
    }

    method SetKeyRecordState(k: Id, state: RecordState) returns (reply: Reply)
      requires WellFormed(Tables())
      modifies this`keys
      ensures (Tables(), reply) == Step(old(Tables()), SetKeyState(k, state)) && WellFormed(Tables())
    {
      StepKeepsWellFormed(Tables(), SetKeyState(k, state));
      hide WellFormed;
      if k !in keys {
        return Refused(KeyNotFound);
      }
      keys := keys[k := keys[k].(state := state)];
      reply := Done;
    }

    method SetInstallationRecordState(p: Pair, state: RecordState) returns (reply: Reply)
      requires WellFormed(Tables())
      modifies this`installations
      ensures (Tables(), reply) == Step(old(Tables()), SetInstallationState(p, state)) && WellFormed(Tables())
    {
      StepKeepsWellFormed(Tables(), SetInstallationState(p, state));
      hide WellFormed;
      if p !in installations {
        return Refused(InstallationNotFound);
      }
      installations := installations[p := installations[p].(state := state)];
      reply := Done;
    }

    method SetRequestRecordState(r: Id, state: RecordState) returns (reply: Reply)
      requires WellFormed(Tables())
      modifies this`requests
      ensures (Tables(), reply) == Step(old(Tables()), SetRequestState(r, state)) && WellFormed(Tables())
    {
      StepKeepsWellFormed(Tables(), SetRequestState(r, state));
      hide WellFormed;
      if r !in requests {
        return Refused(RequestNotFound);
      }
      requests := requests[r := requests[r].(state := state)];
      reply := Done;
    }

    // -------------------------------------------------------------- notifications

    /** The transaction of `create_and_send_notification`; its marks are transactions of their own. */
    method CreateNotification(now: nat, license: Id, recipient: string, subject: string, body: string)
      returns (reply: Reply)
      requires WellFormed(Tables())
      modifies this`emails, this`next
      ensures (Tables(), reply) == Step(old(Tables()), Op.CreateNotification(now, license, recipient, subject, body))
      ensures WellFormed(Tables())
    {
      StepKeepsWellFormed(Tables(), Op.CreateNotification(now, license, recipient, subject, body));
      hide WellFormed, Trim;
      if license !in licenses {
        return Refused(LicenseNotFound);
      }
      if Trim(recipient) == [] {
        return Refused(RecipientRequired);
      }
      if Trim(subject) == [] {
        return Refused(SubjectRequired);
      }
      if Trim(body) == [] {
        return Refused(BodyRequired);
      }
      var e := EnqueueEmail(license, None, Manual(Trim(recipient), Trim(subject), Trim(body)), now);
      reply := Accepted(e);
    }

    method MarkNotificationSent(now: nat, e: Id)
      requires WellFormed(Tables())
      modifies this`emails
      ensures Tables() == Step(old(Tables()), MarkSent(now, e)).0 && WellFormed(Tables())
    {
      StepKeepsWellFormed(Tables(), MarkSent(now, e));
      hide WellFormed;
      if e in emails {
        emails := emails[e := emails[e].(sentAt := Coalesce(emails[e].sentAt, now), notification := Sent)];
      }
    }

    method MarkNotificationDelivered(now: nat, e: Id)
      requires WellFormed(Tables())
      modifies this`emails
      ensures Tables() == Step(old(Tables()), MarkDelivered(now, e)).0 && WellFormed(Tables())
    {
      StepKeepsWellFormed(Tables(), MarkDelivered(now, e));
      hide WellFormed;
      if e in emails {
        emails := emails[e := emails[e].(sentAt := Coalesce(emails[e].sentAt, now),
                                         deliveredAt := Coalesce(emails[e].deliveredAt, now),
                                         notification := Delivered)];
      }
    }

    /** The waiting notifications of a license, each once, oldest first. */
    method SelectDeliverable(license: Id) returns (ids: seq<Id>)
      ensures OldestFirst(ids, emails) && (set e | e in ids) == DeliverableIds(Tables(), license)
    {
      var left := set e | e in emails && Deliverable(emails[e], license);
      ghost var all := left;
      assert all == DeliverableIds(Tables(), license);
      ids := [];
      while left != {}
        invariant left <= all <= emails.Keys
        invariant forall e: Id :: e in all <==> e in left || e in ids
        invariant forall e: Id :: e in ids ==> e !in left
        invariant OldestFirst(ids, emails)
        invariant forall e: Id, x: Id :: e in ids && x in left ==> emails[e].createdAt <= emails[x].createdAt
        decreases |left|
      {
        hide DeliverableIds, Deliverable, OldestFirst;
        ghost var oldest := OldestExists(emails, left);
        var e: Id :| e in left && forall x: Id :: x in left ==> emails[e].createdAt <= emails[x].createdAt;
        OldestFirstGrows(ids, emails, e);
        ids := ids + [e];
        left := left - {e};
      }
      hide DeliverableIds, Deliverable, OldestFirst;
    }

    /** The loop of `read_client_notifications` that closes the rows it has selected. */
    method CloseRows(now: nat, ids: seq<Id>)
      requires forall e: Id :: e in ids ==> e in emails
      modifies this`emails
      ensures emails.Keys == old(emails).Keys
      ensures forall e: Id :: e in emails ==>
        emails[e] == if e in ids then Closed(old(emails)[e], now) else old(emails)[e]
    {
      for i := 0 to |ids|
        invariant emails.Keys == old(emails).Keys
        invariant forall e: Id :: e in emails ==>
          emails[e] == if e in ids[..i] then Closed(old(emails)[e], now) else old(emails)[e]
      {
        var e := ids[i];
        emails := emails[e := emails[e].(notification := Read, readAt := Some(now), state := Deleted)];
      }
      assert ids[..|ids|] == ids;
    }

    /** The query and the loop of `read_client_notifications`. */
    method TakeDeliverable(now: nat, license: Id) returns (ids: seq<Id>)
      modifies this`emails
      ensures emails == CloseDeliverable(old(emails), license, now)
      ensures OldestFirst(ids, old(emails)) && (set e | e in ids) == DeliverableIds(old(Tables()), license)
    {
      ghost var before := Tables();
      ids := SelectDeliverable(license);
      assert forall e: Id :: e in ids ==> e in emails;
      hide OldestFirst;
      forall e: Id | e in emails
        ensures e in ids <==> Deliverable(before.emails[e], license)
      {
        assert e in (set x | x in ids) <==> e in DeliverableIds(before, license);
      }
      hide DeliverableIds, Deliverable;
      CloseRows(now, ids);
    }

    /** `read_client_notifications`: the waiting notifications are returned and each row is closed. */
    method ReadClientNotifications(now: nat, keyValue: Id, license: Id) returns (reply: Reply, ids: seq<Id>)
      requires WellFormed(Tables())
      modifies this`emails
      ensures (Tables(), reply) == Step(old(Tables()), Op.ReadNotifications(now, keyValue, license))
        && WellFormed(Tables())
      ensures reply.Notifications? ==> reply.ids == set e | e in ids
      ensures reply.Refused? ==> ids == []
      ensures OldestFirst(ids, old(emails))
    {
      ghost var before := Tables();
      StepKeepsWellFormed(before, Op.ReadNotifications(now, keyValue, license));
      ids := [];
      var found := FindActiveKeyRow(keyValue);
      hide WellFormed, FindActiveKey, UsableKey, CloseDeliverable, DeliverableIds;
      if found.None? {
        reply := Refused(KeyNotFoundOrInactive);
        return;
      }
      if keys[found.value].license != license {
        reply := Refused(KeyMismatch);
        return;
      }
      ReadIsStep(before, now, keyValue, license, found.value);
      hide Step, OldestFirst;
      ids := TakeDeliverable(now, license);
      reply := Notifications(set e | e in ids);
      assert reply.ids == DeliverableIds(before, license);
    }
  }
}
