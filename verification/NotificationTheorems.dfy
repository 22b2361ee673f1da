/** What a mail keeps over every interleaving, and why a client is shown a notification at most once. */
module NotificationTheorems {
  import opened Wrappers
  import opened LicenseSpec
  import opened LicenseTheorems

  // ---------------------------------------------------------------- one step

  /**
   * What a mail keeps for ever: its addressee and text, a deletion with the time it was read, and the first times it
   * was sent and delivered.
   */
  predicate Keeps(a: Email, b: Email) {
    && b.license == a.license && b.request == a.request && b.mail == a.mail && b.createdAt == a.createdAt
    && (a.state.Deleted? ==> b.state.Deleted? && b.readAt == a.readAt)
    && (a.sentAt.Some? ==> b.sentAt == a.sentAt)
    && (a.deliveredAt.Some? ==> b.deliveredAt == a.deliveredAt)
  }

  /** The step reads out notification `e`. */
  ghost predicate Returns(db: Db, op: Op, e: Id) {
    Legal(db, op) && var reply := Step(db, op).1; reply.Notifications? && e in reply.ids
  }

  lemma EmailsUntouched(db: Db, op: Op)
    requires Legal(db, op) && !op.Verify? && !op.Confirm? && !op.CreateNotification? && !op.ReadNotifications?
    requires !op.MarkSent? && !op.MarkDelivered?
    ensures Step(db, op).0.emails == db.emails && !Step(db, op).1.Notifications?
  {
  }

  lemma VerifyEmail(db: Db, op: Op, e: Id)
    requires Legal(db, op) && op.Verify? && e in db.emails && e < db.next
    ensures e in Step(db, op).0.emails && Step(db, op).0.emails[e] == db.emails[e] && !Step(db, op).1.Notifications?
  {
    hide TrustedDevices, ActiveTrusted, Latest, UsableKey;
  }

  lemma ConfirmEmail(db: Db, now: nat, token: Id, e: Id)
    requires e in db.emails
    ensures var (after, reply) := ConfirmStep(db, now, token);
      && e in after.emails && !reply.Notifications?
      && (after.emails[e] == db.emails[e]
          || (after.emails[e] == Closed(db.emails[e], now) && db.emails[e].request.Some?
            && !db.emails[e].state.Deleted?))
  {
  }

  lemma ReadEmail(db: Db, now: nat, keyValue: Id, license: Id, e: Id)
    requires e in db.emails
    ensures var (after, reply) := ReadStep(db, now, keyValue, license);
      && e in after.emails
      && (if reply.Notifications? && e in reply.ids
          then Deliverable(db.emails[e], license) && after.emails[e] == Closed(db.emails[e], now)
          else after.emails[e] == db.emails[e])
  {
    hide UsableKey;
  }

  /** Every way a step can change a mail that exists. */
  lemma EmailCases(db: Db, op: Op, e: Id)
    requires WellFormed(db) && Legal(db, op) && e in db.emails
    ensures e in Step(db, op).0.emails
    ensures var (a, b) := (db.emails[e], Step(db, op).0.emails[e]);
      || (b == a && !Returns(db, op, e))
      || (op.Confirm? && a.request.Some? && !a.state.Deleted? && b == Closed(a, op.now) && !Returns(db, op, e))
      || (op.ReadNotifications? && Returns(db, op, e) && Deliverable(a, op.license) && b == Closed(a, op.now))
      || (op == MarkSent(op.now, e) && b == MarkedSent(a, op.now) && !Returns(db, op, e))
      || (op == MarkDelivered(op.now, e) && b == MarkedDelivered(a, op.now) && !Returns(db, op, e))
  {
    if op.Verify? {
      VerifyEmail(db, op, e);
      hide Step;
    } else if op.Confirm? {
      ConfirmEmail(db, op.now, op.token, e);
      hide ConfirmStep;
    } else if op.ReadNotifications? {
      ReadEmail(db, op.now, op.keyValue, op.license, e);
      hide ReadStep;
    } else if op.CreateNotification? || op.MarkSent? || op.MarkDelivered? {
      hide Trim, MarkedSent, MarkedDelivered;
    } else {
      EmailsUntouched(db, op);
      hide Step;
    }
  }

  /**
   * A step reads out only a live manual notification, and deletes it; any other step leaves a live notification live
   * and a deleted one deleted.
   */
  lemma EmailStep(db: Db, op: Op, e: Id)
    requires WellFormed(db) && Legal(db, op) && e in db.emails
    ensures e in Step(db, op).0.emails && Keeps(db.emails[e], Step(db, op).0.emails[e])
    ensures Returns(db, op, e) ==>
      && db.emails[e].request.None? && Deliverable(db.emails[e], db.emails[e].license)
      && Step(db, op).0.emails[e].state.Deleted?
    ensures !Returns(db, op, e) && Deliverable(db.emails[e], db.emails[e].license) ==>
      Deliverable(Step(db, op).0.emails[e], db.emails[e].license)
  {
    EmailCases(db, op, e);
    hide WellFormed, Legal, Step, Returns;
  }

  // ---------------------------------------------------------------- whole runs

  lemma {:induction false} EmailKept(db: Db, ops: seq<Op>, e: Id)
    requires WellFormed(db) && LegalRun(db, ops) && e in db.emails
    ensures e in Run(db, ops).emails && Keeps(db.emails[e], Run(db, ops).emails[e])
    decreases |ops|
  {
    if ops != [] {
      StepKeepsWellFormed(db, ops[0]);
      EmailStep(db, ops[0], e);
      EmailKept(Step(db, ops[0]).0, ops[1..], e);
    }
  }

  ghost predicate ReturnedAt(db: Db, ops: seq<Op>, k: nat, e: Id) {
    k < |ops| && LegalRun(db, ops[..k]) && Returns(Run(db, ops[..k]), ops[k], e)
  }

  /** A mail that has not been written yet is not read out. */
  lemma OnlyWrittenReturned(db: Db, op: Op, e: Id)
    requires Returns(db, op, e)
    ensures e in db.emails
  {
    hide UsableKey, Latest, TrustedDevices;
  }

  /** Once read out, a notification is deleted in every later state. */
  lemma {:induction false} DeletedAfterReturn(db: Db, ops: seq<Op>, i: nat, j: nat, e: Id)
    requires WellFormed(db) && LegalRun(db, ops) && i < j <= |ops| && ReturnedAt(db, ops, i, e)
    ensures LegalRun(db, ops[..j]) && e in Run(db, ops[..j]).emails && Run(db, ops[..j]).emails[e].state.Deleted?
    decreases j
  {
    var k := j - 1;
    RunSnoc(db, ops, k);
    var before := Run(db, ops[..k]);
    RunKeepsWellFormed(db, ops[..k]);
    if k == i {
      OnlyWrittenReturned(before, ops[i], e);
    } else {
      DeletedAfterReturn(db, ops, i, k, e);
    }
    EmailStep(before, ops[k], e);
    hide Step, Legal, WellFormed, LegalRun, Run;
  }

  /**
   * A notification is read out at most once in any run: whatever other requests, late "sent" and "delivered" marks or
   * administrator's steps come between two reads.
   */
  lemma ReturnedAtMostOnce(ops: seq<Op>, i: nat, j: nat, e: Id)
    requires LegalRun(EMPTY, ops) && ReturnedAt(EMPTY, ops, i, e) && ReturnedAt(EMPTY, ops, j, e)
    ensures i == j
  {
    if i != j {
      var first, second := if i < j then i else j, if i < j then j else i;
      DeletedAfterReturn(EMPTY, ops, first, second, e);
      RunSplits(EMPTY, ops, second);
      RunKeepsWellFormed(EMPTY, ops[..second]);
      hide Step, Legal, Returns, LegalRun, Run;
      EmailStep(Run(EMPTY, ops[..second]), ops[second], e);
    }
  }

  /**
   * A live notification stays live until a read returns it, and then it is gone: over any run it is read out at
   * exactly one step, or it is still waiting at the end.
   */
  lemma {:induction false} ReturnedOrWaiting(db: Db, ops: seq<Op>, e: Id)
    requires WellFormed(db) && LegalRun(db, ops) && e in db.emails && Deliverable(db.emails[e], db.emails[e].license)
    ensures e in Run(db, ops).emails
    ensures Deliverable(Run(db, ops).emails[e], db.emails[e].license) <==> forall k: nat :: !ReturnedAt(db, ops, k, e)
    decreases |ops|
  {
    if ops != [] {
      var op := ops[0];
      var after := Step(db, op).0;
      StepKeepsWellFormed(db, op);
      EmailStep(db, op, e);
      assert ops[..0] == [];
      assert ReturnedAt(db, ops, 0, e) <==> Returns(db, op, e);
      if Returns(db, op, e) {
        EmailKept(after, ops[1..], e);
      } else {
        ReturnedOrWaiting(after, ops[1..], e);
        forall k: nat
          ensures ReturnedAt(db, ops, k + 1, e) <==> ReturnedAt(after, ops[1..], k, e)
        {
          if k + 1 < |ops| {
            assert ops[..k + 1][0] == op && ops[..k + 1][1..] == ops[1..][..k];
          }
        }
        hide Returns, Step, Legal, WellFormed, LegalRun, Run;
        assert forall k: nat :: ReturnedAt(db, ops, k, e) ==> k > 0 && ReturnedAt(after, ops[1..], k - 1, e) by {
          forall k: nat | ReturnedAt(db, ops, k, e)
            ensures k > 0 && ReturnedAt(after, ops[1..], k - 1, e)
          {
            assert ReturnedAt(db, ops, k - 1 + 1, e);
          }
        }
      }
    }
  }

  /** A read with a usable key of the license returns every notification that is waiting for it. */
  lemma ReadReturnsAllWaiting(db: Db, op: Op, k: Id, e: Id)
    requires WellFormed(db) && op.ReadNotifications? && UsableKey(db, k, op.keyValue) && e in db.emails
    ensures Returns(db, op, e) <==> db.keys[k].license == op.license && Deliverable(db.emails[e], op.license)
  {
    var found := FindActiveKey(db, op.keyValue);
    assert found == Some(k);
  }

  /** In every state of every run a delivered mail has been sent and a deleted one has been read. */
  lemma DeliveredWasSent(ops: seq<Op>, e: Id)
    requires LegalRun(EMPTY, ops) && e in Run(EMPTY, ops).emails
    ensures var mail := Run(EMPTY, ops).emails[e];
      && (mail.deliveredAt.Some? ==> mail.sentAt.Some?)
      && (mail.state.Deleted? <==> mail.readAt.Some?)
      && !mail.state.Archived?
  {
    RunKeepsWellFormed(EMPTY, ops);
  }

  /** The operation is a late "sent" or "delivered" mark of this mail. */
  predicate Marks(op: Op, e: Id) {
    (op.MarkSent? || op.MarkDelivered?) && op.email == e
  }

  /**
   * The notification state alone does not tell whether a mail was read. For a mail that has been read and deleted it
   * stays "read" over a run exactly as long as no mark of the mail comes after the read; the record state always tells.
   */
  lemma {:induction false} LateMarkHidesRead(db: Db, ops: seq<Op>, e: Id)
    requires WellFormed(db) && LegalRun(db, ops) && e in db.emails && db.emails[e].state.Deleted?
    ensures e in Run(db, ops).emails && Run(db, ops).emails[e].state.Deleted?
    ensures Run(db, ops).emails[e].notification.Read? <==>
      db.emails[e].notification.Read? && forall k :: 0 <= k < |ops| ==> !Marks(ops[k], e)
    decreases |ops|
  {
    if ops != [] {
      var op := ops[0];
      var after := Step(db, op).0;
      StepKeepsWellFormed(db, op);
      DeletedStep(db, op, e);
      hide Step, Legal, WellFormed;
      LateMarkHidesRead(after, ops[1..], e);
      assert (forall k :: 0 <= k < |ops| ==> !Marks(ops[k], e)) <==>
        !Marks(op, e) && forall k :: 0 <= k < |ops[1..]| ==> !Marks(ops[1..][k], e) by {
        assert ops == [op] + ops[1..];
      }
    }
  }

  /** One step of that run. */
  lemma DeletedStep(db: Db, op: Op, e: Id)
    requires WellFormed(db) && Legal(db, op) && e in db.emails && db.emails[e].state.Deleted?
    ensures e in Step(db, op).0.emails && Step(db, op).0.emails[e].state.Deleted?
    ensures Step(db, op).0.emails[e].notification.Read? <==> db.emails[e].notification.Read? && !Marks(op, e)
  {
    EmailCases(db, op, e);
    if Marks(op, e) {
      MarkOverwrites(db, op, e);
    }
    hide WellFormed, Legal, Step, Returns;
  }

  lemma MarkOverwrites(db: Db, op: Op, e: Id)
    requires Legal(db, op) && Marks(op, e) && e in db.emails
    ensures e in Step(db, op).0.emails && !Step(db, op).0.emails[e].notification.Read?
  {
  }
}
