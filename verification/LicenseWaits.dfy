/** What becomes of an open request while any other transactions run in between. */
module LicenseWaits {
  import opened Wrappers
  import opened LicenseSpec
  import opened LicenseTheorems
  import opened LicenseRuns
  import opened LicenseFlows
  import opened NotificationTheorems

  /** A request `r` of pair `p`, and the key `k` of this value that its device verifies with. */
  datatype Wait = Wait(value: Id, k: Id, r: Id, p: Pair)

  /** The key can be used and the request is open. */
  ghost predicate Held(db: Db, w: Wait) {
    && FindActiveKey(db, w.value) == Some(w.k)
    && db.keys[w.k].license == w.p.license
    && Open(db, w.r, w.p)
  }

  /** Nobody has approved the request, and the license trusts some device, but not this one. */
  ghost predicate Waiting(db: Db, w: Wait) {
    && Held(db, w)
    && db.requests[w.r].approvedAt.None?
    && TrustedDevices(db, w.p.license) != {}
    && !ActiveTrusted(db, w.p)
  }

  // ---------------------------------------------------------------- which transactions disturb a wait

  /** The key, or its license, is switched off. */
  predicate Disables(op: Op, w: Wait) {
    || op == SetKeyActive(w.k, false)
    || (op.SetKeyState? && op.key == w.k && !op.state.Active?)
    || (op.SetLicenseState? && op.license == w.p.license && !op.state.Active?)
  }

  /** The request is archived or deleted, alone or with its license. */
  predicate Closes(op: Op, w: Wait) {
    || (op.SetRequestState? && op.request == w.r && !op.state.Active?)
    || (op.SetLicenseState? && op.license == w.p.license && !op.state.Active?)
  }

  /** The last device the license trusts is taken away. */
  ghost predicate EmptiesTrust(db: Db, op: Op, license: Id) {
    || (op.SetLicenseState? && op.license == license && !op.state.Active?)
    || (op.SetInstallationState? && op.pair.license == license && !op.state.Active?
          && TrustedDevices(db, license) == {op.pair.device})
  }

  /** What ends a wait. A replacement is not among it, nor is the end of the window. */
  ghost predicate Settles(db: Db, op: Op, w: Wait) {
    || Disables(op, w)
    || Closes(op, w)
    || Approves(db, op, w.r)
    || EmptiesTrust(db, op, w.p.license)
    || Granted(db, op, w.p)
    || (w.p in db.installations && Reactivates(op, w.p))
  }

  lemma DisablesExactly(db: Db, op: Op, w: Wait)
    requires WellFormed(db) && Legal(db, op)
    requires FindActiveKey(db, w.value) == Some(w.k) && db.keys[w.k].license == w.p.license
    ensures w.k in Step(db, op).0.keys && Step(db, op).0.keys[w.k].license == w.p.license
    ensures Step(db, op).0.keys[w.k].value == w.value
    ensures FindActiveKey(Step(db, op).0, w.value) == Some(w.k) <==> !Disables(op, w)
  {
    KeyRow(db, op, w);
    StepKeepsWellFormed(db, op);
    hide WellFormed, Legal, Step, Disables;
    if UsableKey(Step(db, op).0, w.k, w.value) {
      KeyIsFound(Step(db, op).0, w.k, w.value);
    }
  }

  /** A step leaves a usable key usable unless it disables it. */
  lemma KeyRow(db: Db, op: Op, w: Wait)
    requires WellFormed(db) && Legal(db, op)
    requires UsableKey(db, w.k, w.value) && db.keys[w.k].license == w.p.license
    ensures w.k in Step(db, op).0.keys && Step(db, op).0.keys[w.k].license == w.p.license
    ensures Step(db, op).0.keys[w.k].value == w.value
    ensures UsableKey(Step(db, op).0, w.k, w.value) <==> !Disables(op, w)
  {
    assert w.k < db.next && w.p.license < db.next;
    hide WellFormed, Legal, VerifyStep;
    if op.Verify? {
      VerifyKeepsKey(db, op, w.k);
    } else if !op.Issue? && !op.SetKeyActive? && !op.SetKeyState? && !op.SetLicenseState? {
      KeysUntouched(db, op);
      hide Step;
    }
  }

  lemma KeysUntouched(db: Db, op: Op)
    requires Legal(db, op) && !op.Verify? && !op.Issue? && !op.SetKeyActive? && !op.SetKeyState? && !op.SetLicenseState?
    ensures Step(db, op).0.keys == db.keys && Step(db, op).0.licenses == db.licenses
  {
    hide CloseMails, CloseDeliverable, DeliverableIds, RequestWithToken, FindActiveKey, Legal, Trim;
  }

  /** A verification adds rows, but changes no key and no license. */
  lemma VerifyKeepsKey(db: Db, op: Op, k: Id)
    requires WellFormed(db) && op.Verify? && Legal(db, op) && k in db.keys
    ensures var after := VerifyStep(db, op).0;
      && k in after.keys && after.keys[k] == db.keys[k]
      && db.keys[k].license in after.licenses
      && after.licenses[db.keys[k].license] == db.licenses[db.keys[k].license]
  {
    hide TrustedDevices, ActiveTrusted, InstallationsSound, RequestsSound, EmailsSound;
  }

  lemma ClosesExactly(db: Db, op: Op, w: Wait)
    requires WellFormed(db) && Legal(db, op) && Open(db, w.r, w.p)
    ensures Open(Step(db, op).0, w.r, w.p) <==> !Closes(op, w)
  {
    RequestStep(db, op, w.r);
    RequestState(db, op, w.r);
    hide WellFormed, Legal, Step, Approves;
  }

  /** A request changes its record state only alone or with its license. */
  lemma RequestState(db: Db, op: Op, r: Id)
    requires WellFormed(db) && Legal(db, op) && r in db.requests
    ensures r in Step(db, op).0.requests
    ensures Step(db, op).0.requests[r].state ==
      if op.SetRequestState? && op.request == r then op.state
      else if op.SetLicenseState? && op.license == db.requests[r].license then op.state
      else db.requests[r].state
  {
    assert db.requests[r].license in db.licenses;
    hide WellFormed, Legal, ConfirmStep, VerifyStep;
    if op.Verify? {
      VerifyKeepsState(db, op, r);
    } else if op.Confirm? {
      ConfirmRequests(db, op.now, op.token, r);
    } else if !op.Approve? && !op.SetLicenseState? && !op.SetRequestState? {
      RequestsUntouched(db, op);
      hide Step;
    }
  }

  lemma VerifyKeepsState(db: Db, op: Op, r: Id)
    requires WellFormed(db) && op.Verify? && Legal(db, op) && r in db.requests
    ensures r in VerifyStep(db, op).0.requests && VerifyStep(db, op).0.requests[r].state == db.requests[r].state
  {
    hide TrustedDevices, ActiveTrusted, KeysSound, InstallationsSound, EmailsSound;
  }

  lemma EmptiesTrustExactly(db: Db, op: Op, license: Id)
    requires WellFormed(db) && Legal(db, op) && TrustedDevices(db, license) != {}
    ensures TrustedDevices(Step(db, op).0, license) == {} <==> EmptiesTrust(db, op, license)
  {
    var after := Step(db, op).0;
    hide WellFormed, Legal, Step, ActiveTrusted, TrustedDevices, Granted, Reactivates;
    forall d: Device | d in TrustedDevices(db, license)
      ensures d in TrustedDevices(after, license) <==> !Withdraws(op, Pair(license, d))
    {
      TrustChangesExactly(db, op, Pair(license, d));
    }
    var d: Device :| d in TrustedDevices(db, license);
    if EmptiesTrust(db, op, license) {
      forall e: Device
        ensures e !in TrustedDevices(after, license)
      {
        TrustChangesExactly(db, op, Pair(license, e));
        NotGrantedByAdmin(db, op, Pair(license, e));
      }
    } else if op.SetInstallationState? && op.pair == Pair(license, d) && !op.state.Active? {
      assert TrustedDevices(db, license) != {d};
      var e: Device :| e in TrustedDevices(db, license) && e != d;
      assert e in TrustedDevices(after, license);
    }
  }

  lemma NotGrantedByAdmin(db: Db, op: Op, p: Pair)
    requires op.SetLicenseState? || op.SetInstallationState?
    ensures !Granted(db, op, p)
    ensures !op.state.Active? ==> !Reactivates(op, p)
  {
  }

  /** A wait goes on over a transaction exactly if the transaction does not settle it. */
  lemma WaitingStep(db: Db, op: Op, w: Wait)
    requires WellFormed(db) && Legal(db, op) && Waiting(db, w)
    ensures Waiting(Step(db, op).0, w) <==> !Settles(db, op, w)
    ensures w.r in Step(db, op).0.requests && SameRequest(db.requests[w.r], Step(db, op).0.requests[w.r])
  {
    hide WellFormed, Legal, Step, ActiveTrusted, TrustedDevices, FindActiveKey, Granted, Reactivates, EmptiesTrust,
         Disables, Closes, Approves;
    DisablesExactly(db, op, w);
    ClosesExactly(db, op, w);
    RequestStep(db, op, w.r);
    EmptiesTrustExactly(db, op, w.p.license);
    TrustChangesExactly(db, op, w.p);
  }

  // ---------------------------------------------------------------- other requests of the same pair

  ghost predicate OnlyOpen(db: Db, r: Id, p: Pair) {
    forall q: Id :: Open(db, q, p) ==> q == r
  }

  /** Another request of the pair is made active again. */
  ghost predicate ReopensOther(db: Db, op: Op, w: Wait) {
    exists q: Id ::
      && q != w.r && q in db.requests && db.requests[q].license == w.p.license && db.requests[q].device == w.p.device
      && (op == SetRequestState(q, Active) || op == SetLicenseState(w.p.license, Active))
  }

  lemma OnlyOpenStep(db: Db, op: Op, w: Wait)
    requires WellFormed(db) && Legal(db, op) && Open(db, w.r, w.p) && OnlyOpen(db, w.r, w.p)
    ensures OnlyOpen(Step(db, op).0, w.r, w.p) <==> !ReopensOther(db, op, w)
  {
    var after := Step(db, op).0;
    hide WellFormed, Legal, Step;
    forall q: Id | q in db.requests && q != w.r
      ensures Open(after, q, w.p) <==>
        && db.requests[q].license == w.p.license && db.requests[q].device == w.p.device
        && (op == SetRequestState(q, Active) || op == SetLicenseState(w.p.license, Active))
    {
      assert !Open(db, q, w.p);
      RequestStep(db, op, q);
      RequestState(db, op, q);
    }
    forall q: Id | q !in db.requests
      ensures !Open(after, q, w.p)
    {
      NoSecondRequest(db, op, w, q);
    }
  }

  /** No transaction opens a new request for a pair that has one. */
  lemma NoSecondRequest(db: Db, op: Op, w: Wait, q: Id)
    requires WellFormed(db) && Legal(db, op) && Open(db, w.r, w.p) && q !in db.requests
    ensures !Open(Step(db, op).0, q, w.p)
  {
    if op.Verify? {
      hide TrustedDevices, ActiveTrusted, KeysSound, InstallationsSound, RequestsSound, EmailsSound;
    } else {
      OtherRequests(db, op, q);
      hide Step, WellFormed, Legal;
    }
  }

  /** Whatever makes a request of a wait unusable, or gives the pair a second one. */
  ghost predicate Drops(db: Db, op: Op, w: Wait) {
    Disables(op, w) || Closes(op, w) || ReopensOther(db, op, w)
  }

  lemma HeldStep(db: Db, op: Op, w: Wait)
    requires WellFormed(db) && Legal(db, op) && Held(db, w) && OnlyOpen(db, w.r, w.p)
    ensures Held(Step(db, op).0, w) && OnlyOpen(Step(db, op).0, w.r, w.p) <==> !Drops(db, op, w)
    ensures w.r in Step(db, op).0.requests && SameRequest(db.requests[w.r], Step(db, op).0.requests[w.r])
  {
    hide WellFormed, Legal, Step, FindActiveKey, Disables, Closes, ReopensOther, OnlyOpen, Approves;
    DisablesExactly(db, op, w);
    ClosesExactly(db, op, w);
    OnlyOpenStep(db, op, w);
    RequestStep(db, op, w.r);
  }

  // ---------------------------------------------------------------- over runs

  ghost predicate Unsettled(db: Db, ops: seq<Op>, w: Wait)
    requires LegalRun(db, ops)
    decreases |ops|
  {
    ops != [] ==> !Settles(db, ops[0], w) && Unsettled(Step(db, ops[0]).0, ops[1..], w)
  }

  ghost predicate Undropped(db: Db, ops: seq<Op>, w: Wait)
    requires LegalRun(db, ops)
    decreases |ops|
  {
    ops != [] ==> !Drops(db, ops[0], w) && Undropped(Step(db, ops[0]).0, ops[1..], w)
  }

  lemma {:induction false} WaitingRun(db: Db, ops: seq<Op>, w: Wait)
    requires WellFormed(db) && LegalRun(db, ops) && Waiting(db, w) && Unsettled(db, ops, w)
    ensures WellFormed(Run(db, ops)) && Waiting(Run(db, ops), w)
    ensures SameRequest(db.requests[w.r], Run(db, ops).requests[w.r])
    ensures Run(db, ops).next >= db.next
    decreases |ops|
  {
    hide WellFormed, Legal, Step, Settles, FindActiveKey, TrustedDevices, ActiveTrusted;
    if ops != [] {
      StepKeepsWellFormed(db, ops[0]);
      WaitingStep(db, ops[0], w);
      NextGrows(db, ops[0]);
      WaitingRun(Step(db, ops[0]).0, ops[1..], w);
    }
  }

  lemma {:induction false} HeldRun(db: Db, ops: seq<Op>, w: Wait)
    requires WellFormed(db) && LegalRun(db, ops) && Held(db, w) && OnlyOpen(db, w.r, w.p) && Undropped(db, ops, w)
    ensures WellFormed(Run(db, ops)) && Held(Run(db, ops), w) && OnlyOpen(Run(db, ops), w.r, w.p)
    ensures SameRequest(db.requests[w.r], Run(db, ops).requests[w.r])
    decreases |ops|
  {
    hide WellFormed, Legal, Step, Drops, FindActiveKey, OnlyOpen;
    if ops != [] {
      StepKeepsWellFormed(db, ops[0]);
      HeldStep(db, ops[0], w);
      HeldRun(Step(db, ops[0]).0, ops[1..], w);
    }
  }

  lemma NextGrows(db: Db, op: Op)
    requires Legal(db, op)
    ensures Step(db, op).0.next >= db.next
  {
    hide FindActiveKey, UsableKey, Latest, TrustedDevices, ActiveTrusted, RequestWithToken, Trim, CloseMails,
         CloseDeliverable, DeliverableIds;
  }

  // ---------------------------------------------------------------- verifying again

  /** A verification for this request: the same key and device, and the database returns the request. */
  ghost predicate Resumes(db: Db, op: Op, w: Wait) {
    op.Verify? && op.keyValue == w.value && op.device == w.p.device && Legal(db, op) && op.pick == Some(w.r)
  }

  /** Waiting is answered "pending" without any change until the window closes, and with a replacement from then on. */
  lemma WaitingVerified(db: Db, op: Op, w: Wait)
    requires WellFormed(db) && Waiting(db, w) && Resumes(db, op, w)
    ensures Step(db, op) ==
      if op.now < db.requests[w.r].expiresAt then (db, Verdict(w.p.license, w.k, PendingConfirmation, None))
      else ReplaceStep(db, w.k, w.r, w.p.device)
  {
    StepVerify(db, op, w.k);
  }

  lemma OnlyOpenPicked(db: Db, op: Op, w: Wait)
    requires Held(db, w) && OnlyOpen(db, w.r, w.p) && Legal(db, op)
    requires op.Verify? && op.keyValue == w.value && op.device == w.p.device
    ensures Resumes(db, op, w)
  {
  }

  lemma WaitingEnd(asked: Db, ops: seq<Op>, again: Op, w: Wait)
    requires WellFormed(asked) && Waiting(asked, w) && OnlyOpen(asked, w.r, w.p)
    requires LegalRun(asked, ops) && Unsettled(asked, ops, w) && Undropped(asked, ops, w)
    requires again.Verify? && again.keyValue == w.value && again.device == w.p.device && Legal(Run(asked, ops), again)
    ensures w.r in asked.requests && WellFormed(Run(asked, ops)) && Waiting(Run(asked, ops), w)
    ensures var end := Run(asked, ops);
      Step(end, again) ==
        if again.now < asked.requests[w.r].expiresAt then (end, Verdict(w.p.license, w.k, PendingConfirmation, None))
        else ReplaceStep(end, w.k, w.r, w.p.device)
  {
    hide WellFormed, LegalRun, Run, Legal, Step, ReplaceStep, FindActiveKey, TrustedDevices, ActiveTrusted, Unsettled,
         Undropped, OnlyOpen;
    WaitingRun(asked, ops, w);
    HeldRun(asked, ops, w);
    OnlyOpenPicked(Run(asked, ops), again, w);
    WaitingVerified(Run(asked, ops), again, w);
  }

  /**
   * The device asks, and any transactions follow that neither settle the wait nor drop its request. Until the window
   * closes a repeated verification then changes nothing, and from then on it issues a replacement.
   */
  lemma WaitingFlow(db: Db, ask: Op, k: Id, ops: seq<Op>, again: Op)
    requires WellFormed(db) && Legal(db, ask) && AsksOwner(db, ask, k) && Repeats(again, ask)
    requires LegalRun(Step(db, ask).0, ops) && Legal(Run(Step(db, ask).0, ops), again)
    requires var w := Wait(ask.keyValue, k, db.next + 1, Pair(db.keys[k].license, ask.device));
      Unsettled(Step(db, ask).0, ops, w) && Undropped(Step(db, ask).0, ops, w)
    ensures k in db.keys
    ensures var end := Run(Step(db, ask).0, ops);
      if again.now < ask.now + ask.window
      then Step(end, again) == (end, Verdict(db.keys[k].license, k, PendingConfirmation, None))
      else Step(end, again).1 == Verdict(end.next, end.next + 1, ReplacementIssued, Some(end.next + 2))
  {
    hide WellFormed, LegalRun, Run, Legal, Step, FindActiveKey, TrustedDevices, ActiveTrusted, Unsettled, Undropped,
         OnlyOpen;
    var w := Wait(ask.keyValue, k, db.next + 1, Pair(db.keys[k].license, ask.device));
    AskedWaits(db, ask, k, w);
    StepKeepsWellFormed(db, ask);
    WaitingEnd(Step(db, ask).0, ops, again, w);
  }

  lemma AskedWaits(db: Db, ask: Op, k: Id, w: Wait)
    requires WellFormed(db) && Legal(db, ask) && AsksOwner(db, ask, k)
    requires w == Wait(ask.keyValue, k, db.next + 1, Pair(db.keys[k].license, ask.device))
    ensures var asked := Step(db, ask).0;
      && Waiting(asked, w) && Held(asked, w) && OnlyOpen(asked, w.r, w.p)
      && asked.requests[w.r].expiresAt == ask.now + ask.window && asked.requests[w.r].token == db.next
      && db.next + 2 in asked.emails && asked.emails[db.next + 2].request == Some(w.r)
  {
    OwnerIsAsked(db, ask, k);
    var asked := Step(db, ask).0;
    hide Step, Legal, WellFormed, TrustedDevices, FindActiveKey, ActiveTrusted;
    SameKeyFound(db, asked, ask.keyValue);
    SameTrusted(db, asked, w.p);
  }

  // ---------------------------------------------------------------- replaced again and again

  ghost predicate Replaced(reply: Reply) {
    reply.Verdict? && reply.status.ReplacementIssued?
  }

  /** The request that a verification resumes. */
  ghost function WaitOf(db: Db, op: Op): Wait
    requires op.Verify? && FindActiveKey(db, op.keyValue).Some? && op.pick.Some?
  {
    var k := FindActiveKey(db, op.keyValue).value;
    Wait(op.keyValue, k, op.pick.value, Pair(db.keys[k].license, op.device))
  }

  /** A replacement is the answer to a wait, and the wait goes on. */
  lemma ReplacedWaits(db: Db, op: Op)
    requires WellFormed(db) && op.Verify? && Legal(db, op) && Replaced(Step(db, op).1)
    ensures FindActiveKey(db, op.keyValue).Some? && op.pick.Some?
    ensures Waiting(db, WaitOf(db, op)) && Waiting(Step(db, op).0, WaitOf(db, op))
    ensures Step(db, op) == ReplaceStep(db, WaitOf(db, op).k, op.pick.value, op.device)
  {
    ReplacedExactly(db, op);
    var w := WaitOf(db, op);
    assert w.p.license < db.next;
    WaitingVerified(db, op, w);
    hide WellFormed, Legal, Step, TrustedDevices, FindActiveKey, ReplaceStep;
    WaitingStep(db, op, w);
  }

  /**
   * A replacement does not settle the request that ran out: after any transactions that do not settle it either, the
   * same verification issues yet another license.
   */
  lemma ReplacementRepeats(db: Db, op: Op, ops: seq<Op>, again: Op)
    requires WellFormed(db) && op.Verify? && Legal(db, op) && Replaced(Step(db, op).1)
    requires FindActiveKey(db, op.keyValue).Some? && op.pick.Some?
    requires LegalRun(Step(db, op).0, ops) && Unsettled(Step(db, op).0, ops, WaitOf(db, op))
    requires Repeats(again, op) && again.pick == op.pick && Legal(Run(Step(db, op).0, ops), again)
    requires again.now >= op.now
    ensures var first, second := Step(db, op).1, Step(Run(Step(db, op).0, ops), again).1;
      && Replaced(second)
      && second.license != first.license && second.replacementKey != first.replacementKey
  {
    hide WellFormed, LegalRun, Run, Legal, Step, TrustedDevices, ActiveTrusted, FindActiveKey, Unsettled;
    var w := WaitOf(db, op);
    ReplacedWaits(db, op);
    ReplacedInTime(db, op);
    StepKeepsWellFormed(db, op);
    WaitingRun(Step(db, op).0, ops, w);
    WaitingVerified(Run(Step(db, op).0, ops), again, w);
  }

  lemma ReplacedInTime(db: Db, op: Op)
    requires WellFormed(db) && op.Verify? && Legal(db, op) && Replaced(Step(db, op).1)
    ensures op.pick.Some? && op.pick.value in db.requests && op.now >= db.requests[op.pick.value].expiresAt
  {
    ReplacedExactly(db, op);
  }

  lemma SameKey(db: Db, value: Id, k: Id)
    requires WellFormed(db) && k in db.keys && db.keys[k].value == value && FindActiveKey(db, value).Some?
    ensures FindActiveKey(db, value) == Some(k)
  {
  }

  /**
   * After the window, with this the pair's only request: the verification that follows a transaction is answered with
   * a further replacement exactly if the transaction did not settle the wait.
   */
  lemma ReplacedUnlessSettled(db: Db, op: Op, w: Wait, again: Op)
    requires WellFormed(db) && Waiting(db, w) && OnlyOpen(db, w.r, w.p)
    requires Legal(db, op) && !ReopensOther(db, op, w)
    requires again.Verify? && again.keyValue == w.value && again.device == w.p.device && Legal(Step(db, op).0, again)
    requires again.now >= db.requests[w.r].expiresAt
    ensures Replaced(Step(Step(db, op).0, again).1) <==> !Settles(db, op, w)
  {
    hide WellFormed, Legal, Step, TrustedDevices, ActiveTrusted, FindActiveKey, Settles, ReopensOther, OnlyOpen;
    var after := Step(db, op).0;
    WaitingStep(db, op, w);
    OnlyOpenStep(db, op, w);
    DisablesExactly(db, op, w);
    StepKeepsWellFormed(db, op);
    if Waiting(after, w) {
      OnlyOpenPicked(after, again, w);
      WaitingVerified(after, again, w);
    } else if Replaced(Step(after, again).1) {
      ReplacedWaits(after, again);
      SameKey(after, w.value, w.k);
      OnlyOpenIs(after, again.pick.value, w);
      assert false;
    }
  }

  lemma OnlyOpenIs(db: Db, q: Id, w: Wait)
    requires OnlyOpen(db, w.r, w.p) && Open(db, q, w.p)
    ensures q == w.r
  {
  }

  // ---------------------------------------------------------------- confirmed, however late

  /** An approved request entitles its device, whatever the clock says and whether it was replaced before or not. */
  lemma ApprovedVerified(db: Db, op: Op, w: Wait)
    requires WellFormed(db) && Held(db, w) && OnlyOpen(db, w.r, w.p) && db.requests[w.r].approvedAt.Some?
    requires op.Verify? && op.keyValue == w.value && op.device == w.p.device && Legal(db, op)
    ensures Step(db, op).1 == Verdict(w.p.license, w.k, Entitled, None)
    ensures TrustedDevices(Step(db, op).0, w.p.license) == TrustedDevices(db, w.p.license) + {w.p.device}
  {
    OnlyOpenPicked(db, op, w);
    StepVerify(db, op, w.k);
    TrustingAdds(db, w.p);
    assert ActiveTrusted(db, w.p) ==> w.p.device in TrustedDevices(db, w.p.license);
    hide WellFormed, Legal, Step, TrustedDevices, FindActiveKey, OnlyOpen;
  }

  lemma TrustingAdds(db: Db, p: Pair)
    ensures TrustedDevices(Trusting(db, p), p.license) == TrustedDevices(db, p.license) + {p.device}
  {
  }

  lemma TokenFound(db: Db, r: Id)
    requires WellFormed(db) && r in db.requests
    ensures RequestWithToken(db, db.requests[r].token) == Some(r)
  {
  }

  /** Following the link approves the request, if nobody has, and then closes its mails. */
  lemma LinkFollowed(db: Db, w: Wait, clicked: nat, e: Id)
    requires WellFormed(db) && Held(db, w) && OnlyOpen(db, w.r, w.p)
    requires e in db.emails && db.emails[e].request == Some(w.r)
    ensures var op := Op.Confirm(clicked, db.requests[w.r].token);
      var after := Step(db, op).0;
      && Step(db, op).1 == Confirmed(Some(w.p.license))
      && Held(after, w) && OnlyOpen(after, w.r, w.p)
      && after.requests[w.r].approvedAt.Some?
      && e in after.emails
      && (db.requests[w.r].approvedAt.None? ==> after.emails[e].state.Deleted?)
  {
    var op := Op.Confirm(clicked, db.requests[w.r].token);
    TokenFound(db, w.r);
    ConfirmIs(db, w.r, clicked);
    hide WellFormed, Step, FindActiveKey, OnlyOpen, RequestWithToken;
    HeldStep(db, op, w);
    RequestStep(db, op, w.r);
  }

  lemma ConfirmIs(db: Db, r: Id, now: nat)
    requires WellFormed(db) && r in db.requests
    ensures Step(db, Op.Confirm(now, db.requests[r].token)) ==
      if db.requests[r].approvedAt.Some? then (db, Confirmed(Some(db.requests[r].license)))
      else (Approved(db, r, now).(emails := CloseMails(db.emails, r, now)), Confirmed(Some(db.requests[r].license)))
  {
    TokenFound(db, r);
    hide WellFormed, RequestWithToken, CloseMails;
  }

  /**
   * The device asks, the owner follows the link at any time, also after the window or a replacement, and the device
   * verifies again, with any transactions in between that do not drop the request: the device is entitled, and the
   * mail is closed unless the request had been approved before.
   */
  lemma ConfirmationFlow(db: Db, ask: Op, k: Id, before: seq<Op>, clicked: nat, rest: seq<Op>, again: Op)
    requires WellFormed(db) && Legal(db, ask) && AsksOwner(db, ask, k) && Repeats(again, ask)
    requires LegalRun(Step(db, ask).0, before)
    requires var w := Wait(ask.keyValue, k, db.next + 1, Pair(db.keys[k].license, ask.device));
      var mid := Run(Step(db, ask).0, before);
      var confirmed := Step(mid, Op.Confirm(clicked, db.next)).0;
      && Undropped(Step(db, ask).0, before, w)
      && LegalRun(confirmed, rest) && Undropped(confirmed, rest, w)
      && Legal(Run(confirmed, rest), again)
    ensures k in db.keys
    ensures var license := db.keys[k].license;
      var mid := Run(Step(db, ask).0, before);
      var (confirmed, answer) := Step(mid, Op.Confirm(clicked, db.next));
      var end := Run(confirmed, rest);
      && answer == Confirmed(Some(license))
      && Step(end, again).1 == Verdict(license, k, Entitled, None)
      && TrustedDevices(Step(end, again).0, license) == TrustedDevices(end, license) + {ask.device}
      && db.next + 1 in mid.requests && db.next + 2 in end.emails
      && (mid.requests[db.next + 1].approvedAt.None? ==> end.emails[db.next + 2].state.Deleted?)
  {
    hide WellFormed, LegalRun, Run, Step, FindActiveKey, TrustedDevices, ActiveTrusted, Undropped, OnlyOpen;
    var w := Wait(ask.keyValue, k, db.next + 1, Pair(db.keys[k].license, ask.device));
    var asked := Step(db, ask).0;
    AskedWaits(db, ask, k, w);
    StepKeepsWellFormed(db, ask);
    HeldRun(asked, before, w);
    EmailKept(asked, before, db.next + 2);
    var mid := Run(asked, before);
    LinkFollowed(mid, w, clicked, db.next + 2);
    var op := Op.Confirm(clicked, db.next);
    StepKeepsWellFormed(mid, op);
    var confirmed := Step(mid, op).0;
    HeldRun(confirmed, rest, w);
    EmailKept(confirmed, rest, db.next + 2);
    ApprovedVerified(Run(confirmed, rest), again, w);
  }
}
