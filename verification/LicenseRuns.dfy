/** Trust over every interleaving of the license server's transactions. */
module LicenseRuns {
  import opened Wrappers
  import opened LicenseSpec
  import opened LicenseTheorems

  // ---------------------------------------------------------------- requests

  /** Whether a transaction is the owner's confirmation or the administrator's approval of request `r`. */
  ghost predicate Approves(db: Db, op: Op, r: Id) {
    && r in db.requests
    && ((op.Approve? && op.request == r) || (op.Confirm? && op.token == db.requests[r].token))
  }

  /** What a request keeps for ever once it exists. */
  predicate SameRequest(a: Request, b: Request) {
    && a.license == b.license && a.device == b.device && a.token == b.token && a.sourceKey == b.sourceKey
    && a.origin == b.origin && a.createdAt == b.createdAt && a.expiresAt == b.expiresAt
    && (a.approvedAt.Some? ==> b.approvedAt == a.approvedAt)
  }

  lemma VerifyRequests(db: Db, op: Op, r: Id)
    requires WellFormed(db) && op.Verify? && Legal(db, op)
    ensures var after := Step(db, op).0;
      if r in db.requests
      then r in after.requests && SameRequest(db.requests[r], after.requests[r])
        && after.requests[r].approvedAt == db.requests[r].approvedAt
      else r in after.requests ==> after.requests[r].approvedAt.None?
  {
    hide TrustedDevices, KeysSound, InstallationsSound, EmailsSound;
  }

  lemma RequestsUntouched(db: Db, op: Op)
    requires Legal(db, op) && !op.Verify? && !op.Confirm? && !op.Approve? && !op.SetLicenseState?
      && !op.SetRequestState?
    ensures Step(db, op).0.requests == db.requests
  {
    hide CloseDeliverable, DeliverableIds, FindActiveKey, Legal, Trim;
  }

  lemma ConfirmRequests(db: Db, now: nat, token: Id, r: Id)
    requires WellFormed(db)
    ensures ConfirmStep(db, now, token).0.requests.Keys == db.requests.Keys
    ensures r in db.requests ==>
      ConfirmStep(db, now, token).0.requests[r] ==
        if db.requests[r].token == token && db.requests[r].approvedAt.None?
        then db.requests[r].(approvedAt := Some(now))
        else db.requests[r]
  {
    hide KeysSound, InstallationsSound, EmailsSound, CloseMails;
  }

  lemma OtherRequests(db: Db, op: Op, r: Id)
    requires WellFormed(db) && !op.Verify? && Legal(db, op)
    ensures Step(db, op).0.requests.Keys == db.requests.Keys
    ensures r in db.requests ==>
      var after := Step(db, op).0.requests[r];
      && SameRequest(db.requests[r], after)
      && (db.requests[r].approvedAt.None? ==> (after.approvedAt.Some? <==> Approves(db, op, r)))
  {
    hide WellFormed, Legal, ConfirmStep;
    if op.Confirm? {
      ConfirmRequests(db, op.now, op.token, r);
    } else if !op.Approve? && !op.SetLicenseState? && !op.SetRequestState? {
      RequestsUntouched(db, op);
      hide Step;
    }
  }

  /** A request is approved only by a confirmation with its own token or by an administrator, and for good. */
  lemma RequestStep(db: Db, op: Op, r: Id)
    requires WellFormed(db) && Legal(db, op)
    ensures r in db.requests ==> r in Step(db, op).0.requests && SameRequest(db.requests[r], Step(db, op).0.requests[r])
    ensures r in Step(db, op).0.requests && !(r in db.requests && db.requests[r].approvedAt.Some?) ==>
      (Step(db, op).0.requests[r].approvedAt.Some? <==> Approves(db, op, r))
  {
    assert op.Verify? ==> !Approves(db, op, r);
    assert r !in db.requests ==> !Approves(db, op, r);
    hide *;
    if op.Verify? {
      VerifyRequests(db, op, r);
    } else {
      OtherRequests(db, op, r);
    }
  }

  // ---------------------------------------------------------------- provenance

  ghost predicate GrantedAt(db: Db, ops: seq<Op>, k: nat, p: Pair) {
    k < |ops| && LegalRun(db, ops[..k]) && Granted(Run(db, ops[..k]), ops[k], p)
  }

  ghost predicate ApprovedAt(db: Db, ops: seq<Op>, j: nat, r: Id) {
    j < |ops| && LegalRun(db, ops[..j]) && Approves(Run(db, ops[..j]), ops[j], r)
  }

  /** The reason of step `k`, traced back: an approved request was approved by an earlier transaction of the run. */
  ghost predicate TrustedFor(db: Db, ops: seq<Op>, k: nat, p: Pair) {
    && k < |ops|
    && LegalRun(db, ops[..k])
    && var before := Run(db, ops[..k]);
    || FirstTrust(before, ops[k], p)
    || ReplacementTrust(before, ops[k], p)
    || (ApprovedTrust(before, ops[k], p) && exists j: nat :: j < k && ApprovedAt(db, ops, j, ops[k].pick.value))
  }

  lemma {:induction false} InstallationHasOrigin(db: Db, ops: seq<Op>, p: Pair)
    requires WellFormed(db) && LegalRun(db, ops) && p !in db.installations && p in Run(db, ops).installations
    ensures exists k: nat :: GrantedAt(db, ops, k, p)
    decreases |ops|
  {
    if ops != [] {
      var n := |ops| - 1;
      var init := ops[..n];
      RunSnoc(db, ops, n);
      assert ops[..n + 1] == ops;
      var before := Run(db, init);
      if p in before.installations {
        InstallationHasOrigin(db, init, p);
        var k: nat :| GrantedAt(db, init, k, p);
        assert init[..k] == ops[..k];
        assert GrantedAt(db, ops, k, p);
      } else {
        RunKeepsWellFormed(db, init);
        InstallationAppears(before, ops[n], p);
        assert GrantedAt(db, ops, n, p);
      }
    }
  }

  lemma InstallationAppears(db: Db, op: Op, p: Pair)
    requires WellFormed(db) && Legal(db, op) && p !in db.installations && p in Step(db, op).0.installations
    ensures Granted(db, op, p)
  {
    hide *;
    if op.Verify? {
      VerifyInstallations(db, op, p);
    } else {
      OtherInstallations(db, op, p);
    }
  }

  lemma {:induction false} ApprovalHasOrigin(db: Db, ops: seq<Op>, r: Id)
    requires WellFormed(db) && LegalRun(db, ops)
    requires !(r in db.requests && db.requests[r].approvedAt.Some?)
    requires r in Run(db, ops).requests && Run(db, ops).requests[r].approvedAt.Some?
    ensures exists j: nat :: ApprovedAt(db, ops, j, r)
    decreases |ops|
  {
    if ops != [] {
      var n := |ops| - 1;
      var init := ops[..n];
      RunSnoc(db, ops, n);
      assert ops[..n + 1] == ops;
      var before := Run(db, init);
      if r in before.requests && before.requests[r].approvedAt.Some? {
        ApprovalHasOrigin(db, init, r);
        var j: nat :| ApprovedAt(db, init, j, r);
        assert init[..j] == ops[..j];
        assert ApprovedAt(db, ops, j, r);
      } else {
        RunKeepsWellFormed(db, init);
        RequestStep(before, ops[n], r);
        assert ApprovedAt(db, ops, n, r);
      }
    }
  }

  /**
   * Every installation row of every run, administrator's steps included, was created or renewed by a verification
   * from that very device: the first of its license, or after its request had been approved, or as a replacement.
   */
  lemma TrustProvenance(ops: seq<Op>, p: Pair)
    requires LegalRun(EMPTY, ops) && p in Run(EMPTY, ops).installations
    ensures exists k: nat :: TrustedFor(EMPTY, ops, k, p)
  {
    InstallationHasOrigin(EMPTY, ops, p);
    var k: nat :| GrantedAt(EMPTY, ops, k, p);
    var init := ops[..k];
    var before := Run(EMPTY, init);
    hide FirstTrust, ReplacementTrust, LegalRun, Run, Approves;
    if !FirstTrust(before, ops[k], p) && !ReplacementTrust(before, ops[k], p) {
      var r := ops[k].pick.value;
      ApprovalHasOrigin(EMPTY, init, r);
      var j: nat :| ApprovedAt(EMPTY, init, j, r);
      assert init[..j] == ops[..j];
      assert j < k && ApprovedAt(EMPTY, ops, j, r);
    }
    assert TrustedFor(EMPTY, ops, k, p);
  }

  // ---------------------------------------------------------------- how many devices a license trusts

  ghost predicate ApprovedFor(db: Db, r: Id, p: Pair) {
    r in db.requests && db.requests[r].license == p.license && db.requests[r].device == p.device
      && db.requests[r].approvedAt.Some?
  }

  function ApprovedRequests(db: Db, license: Id): set<Id> {
    set r | r in db.requests && db.requests[r].license == license && db.requests[r].approvedAt.Some?
  }

  /** Every trusted device is the first one, has an approved request, or was brought back by an administrator. */
  ghost predicate Accounted(db: Db, license: Id, first: Device, revived: set<Device>) {
    forall d: Device :: ActiveTrusted(db, Pair(license, d)) ==>
      d == first || d in revived || exists r: Id :: ApprovedFor(db, r, Pair(license, d))
  }

  predicate RevivesSome(op: Op, license: Id) {
    (op.SetInstallationState? && op.pair.license == license && op.state.Active?)
      || op == SetLicenseState(license, Active)
  }

  /** The devices of `license` that administrators' reactivations made trusted again during the run. */
  ghost function Revived(db: Db, ops: seq<Op>, license: Id): set<Device>
    requires LegalRun(db, ops)
    decreases |ops|
  {
    if ops == [] then {}
    else
      var after := Step(db, ops[0]).0;
      (if RevivesSome(ops[0], license) then TrustedDevices(after, license) - TrustedDevices(db, license) else {})
      + Revived(after, ops[1..], license)
  }

  lemma ApprovalStays(db: Db, op: Op, r: Id, p: Pair)
    requires WellFormed(db) && Legal(db, op) && ApprovedFor(db, r, p)
    ensures ApprovedFor(Step(db, op).0, r, p)
  {
    hide WellFormed, Legal, Step, Approves;
    RequestStep(db, op, r);
  }

  /** The device that a step may make the first trusted one of `license`. */
  ghost function FirstAfter(db: Db, op: Op, license: Id, first: Device): Device {
    if op.Verify? && (TrustedDevices(db, license) == {} || license == db.next) then op.device else first
  }

  lemma AccountedDevice(db: Db, op: Op, license: Id, first: Device, revived: set<Device>, d: Device)
    requires WellFormed(db) && Legal(db, op) && Accounted(db, license, first, revived)
    requires ActiveTrusted(Step(db, op).0, Pair(license, d))
    ensures
      || d == FirstAfter(db, op, license, first)
      || d in revived
      || (RevivesSome(op, license) && !ActiveTrusted(db, Pair(license, d)))
      || exists r: Id :: ApprovedFor(Step(db, op).0, r, Pair(license, d))
  {
    var p := Pair(license, d);
    TrustChangesExactly(db, op, p);
    assert license == db.next ==> !ActiveTrusted(db, p);
    assert ActiveTrusted(db, p) ==> d in TrustedDevices(db, license);
    hide WellFormed, Legal, Step, ActiveTrusted, TrustedDevices, FindActiveKey;
    if ActiveTrusted(db, p) {
      if d != first && d !in revived {
        var r: Id :| ApprovedFor(db, r, p);
        ApprovalStays(db, op, r, p);
      }
    } else if ApprovedTrust(db, op, p) {
      ApprovalStays(db, op, op.pick.value, p);
    }
  }

  lemma {:induction false} AccountedRun(db: Db, ops: seq<Op>, license: Id, first: Device, revived: set<Device>)
    returns (last: Device)
    requires WellFormed(db) && LegalRun(db, ops) && Accounted(db, license, first, revived)
    ensures Accounted(Run(db, ops), license, last, revived + Revived(db, ops, license))
    decreases |ops|
  {
    if ops == [] {
      last := first;
    } else {
      var op := ops[0];
      var after := Step(db, op).0;
      var next := FirstAfter(db, op, license, first);
      var back := if RevivesSome(op, license) then TrustedDevices(after, license) - TrustedDevices(db, license) else {};
      StepKeepsWellFormed(db, op);
      forall d: Device | ActiveTrusted(after, Pair(license, d))
        ensures d == next || d in revived + back || exists r: Id :: ApprovedFor(after, r, Pair(license, d))
      {
        AccountedDevice(db, op, license, first, revived, d);
      }
      last := AccountedRun(after, ops[1..], license, next, revived + back);
      assert revived + Revived(db, ops, license) == (revived + back) + Revived(after, ops[1..], license);
    }
  }

  lemma {:induction false} SubsetSize<T>(a: set<T>, b: set<T>)
    requires a <= b
    ensures |a| <= |b|
    decreases |b|
  {
    if b != {} {
      var x :| x in b;
      SubsetSize(a - {x}, b - {x});
    }
  }

  /** Each request names one device, so no more devices than requests are approved. */
  lemma {:induction false} DevicesOfRequests(db: Db, requests: set<Id>) returns (devices: set<Device>)
    requires requests <= db.requests.Keys
    ensures |devices| <= |requests|
    ensures forall r: Id :: r in requests ==> db.requests[r].device in devices
    decreases |requests|
  {
    if requests == {} {
      devices := {};
    } else {
      var r :| r in requests;
      var rest := DevicesOfRequests(db, requests - {r});
      devices := rest + {db.requests[r].device};
    }
  }

  /**
   * In every run a license trusts at most one device beyond those with an approved request and those that an
   * administrator brought back.
   */
  lemma TrustedBound(ops: seq<Op>, license: Id)
    requires LegalRun(EMPTY, ops)
    ensures |TrustedDevices(Run(EMPTY, ops), license)|
         <= 1 + |ApprovedRequests(Run(EMPTY, ops), license)| + |Revived(EMPTY, ops, license)|
  {
    var end := Run(EMPTY, ops);
    var revived := Revived(EMPTY, ops, license);
    var first := AccountedRun(EMPTY, ops, license, "", {});
    assert {} + revived == revived;
    var approved := ApprovedRequests(end, license);
    var devices := DevicesOfRequests(end, approved);
    hide LegalRun, Run, Revived, ActiveTrusted;
    forall d | d in TrustedDevices(end, license)
      ensures d in {first} + revived + devices
    {
      assert ActiveTrusted(end, Pair(license, d));
      if d != first && d !in revived {
        var r: Id :| ApprovedFor(end, r, Pair(license, d));
        assert r in approved;
      }
    }
    SubsetSize(TrustedDevices(end, license), {first} + revived + devices);
  }

  predicate NoRevival(ops: seq<Op>, license: Id) {
    forall k :: 0 <= k < |ops| ==> !RevivesSome(ops[k], license)
  }

  lemma {:induction false} NothingRevived(db: Db, ops: seq<Op>, license: Id)
    requires LegalRun(db, ops) && NoRevival(ops, license)
    ensures Revived(db, ops, license) == {}
    decreases |ops|
  {
    if ops != [] {
      assert !RevivesSome(ops[0], license);
      NothingRevived(Step(db, ops[0]).0, ops[1..], license);
    }
  }

  /** Without reactivations the approved requests alone pay for every device but the first. */
  lemma TrustedBoundWithoutRevival(ops: seq<Op>, license: Id)
    requires LegalRun(EMPTY, ops) && NoRevival(ops, license)
    ensures |TrustedDevices(Run(EMPTY, ops), license)| <= 1 + |ApprovedRequests(Run(EMPTY, ops), license)|
  {
    TrustedBound(ops, license);
    NothingRevived(EMPTY, ops, license);
  }

  // ---------------------------------------------------------------- reactivations that keep the bound

  ghost predicate Paid(db: Db, p: Pair) {
    exists r: Id :: ApprovedFor(db, r, p)
  }

  /** A trusted device that no approved request pays for. */
  ghost predicate Unpaid(db: Db, p: Pair) {
    ActiveTrusted(db, p) && !Paid(db, p)
  }

  ghost predicate AtMostOneUnpaid(db: Db, license: Id) {
    forall d: Device, e: Device :: Unpaid(db, Pair(license, d)) && Unpaid(db, Pair(license, e)) ==> d == e
  }

  /** The reactivation makes this row count: it is trusted, not active, and among the rows that `op` touches. */
  predicate Returns(db: Db, op: Op, p: Pair) {
    && p in db.installations && db.installations[p].trusted && !db.installations[p].state.Active?
    && (op.SetInstallationState? ==> p == op.pair)
  }

  /** What an administrator can check before a reactivation: at most one device would be trusted without approval. */
  ghost predicate MayReturn(db: Db, op: Op, license: Id) {
    forall d: Device, e: Device ::
      && (ActiveTrusted(db, Pair(license, d)) || Returns(db, op, Pair(license, d))) && !Paid(db, Pair(license, d))
      && (ActiveTrusted(db, Pair(license, e)) || Returns(db, op, Pair(license, e))) && !Paid(db, Pair(license, e))
      ==> d == e
  }

  lemma ReturnedRow(db: Db, op: Op, license: Id, d: Device)
    requires WellFormed(db) && RevivesSome(op, license)
    ensures var p := Pair(license, d);
      && (ActiveTrusted(Step(db, op).0, p) <==> ActiveTrusted(db, p) || Returns(db, op, p))
      && (Paid(Step(db, op).0, p) <==> Paid(db, p))
  {
    var p, after := Pair(license, d), Step(db, op).0;
    assert forall r: Id :: ApprovedFor(after, r, p) <==> ApprovedFor(db, r, p);
  }

  /** A reactivation leaves at most one device trusted without approval exactly when the check before it says so. */
  lemma RevivalChecked(db: Db, op: Op, license: Id)
    requires WellFormed(db) && RevivesSome(op, license)
    ensures AtMostOneUnpaid(Step(db, op).0, license) <==> MayReturn(db, op, license)
  {
    assert Legal(db, op);
    hide WellFormed, Legal, RevivesSome, Step, ActiveTrusted, Paid, Returns;
    forall d: Device
      ensures Unpaid(Step(db, op).0, Pair(license, d)) <==>
        (ActiveTrusted(db, Pair(license, d)) || Returns(db, op, Pair(license, d))) && !Paid(db, Pair(license, d))
    {
      ReturnedRow(db, op, license, d);
    }
  }

  /** Every other transaction keeps it. */
  lemma UnpaidStep(db: Db, op: Op, license: Id)
    requires WellFormed(db) && Legal(db, op) && AtMostOneUnpaid(db, license) && !RevivesSome(op, license)
    ensures AtMostOneUnpaid(Step(db, op).0, license)
  {
    hide WellFormed, Legal, RevivesSome, Step, ActiveTrusted, ApprovedFor;
    var first: Device := "";
    if d: Device :| Unpaid(db, Pair(license, d)) {
      first := d;
    }
    assert Accounted(db, license, first, {}) by {
      forall d: Device | ActiveTrusted(db, Pair(license, d)) && d != first
        ensures Paid(db, Pair(license, d))
      {
        assert !Unpaid(db, Pair(license, d));
      }
    }
    forall d: Device | Unpaid(Step(db, op).0, Pair(license, d))
      ensures d == FirstAfter(db, op, license, first)
    {
      AccountedDevice(db, op, license, first, {}, d);
    }
  }

  /** Every reactivation of the run was checked in the state it found. */
  ghost predicate Checked(db: Db, ops: seq<Op>, license: Id)
    requires LegalRun(db, ops)
    decreases |ops|
  {
    ops != [] ==>
      && (RevivesSome(ops[0], license) ==> MayReturn(db, ops[0], license))
      && Checked(Step(db, ops[0]).0, ops[1..], license)
  }

  lemma {:induction false} CheckedRun(db: Db, ops: seq<Op>, license: Id)
    requires WellFormed(db) && LegalRun(db, ops) && AtMostOneUnpaid(db, license) && Checked(db, ops, license)
    ensures AtMostOneUnpaid(Run(db, ops), license)
    decreases |ops|
  {
    hide WellFormed, Legal, RevivesSome, Step, AtMostOneUnpaid, MayReturn;
    if ops != [] {
      StepKeepsWellFormed(db, ops[0]);
      if RevivesSome(ops[0], license) {
        RevivalChecked(db, ops[0], license);
      } else {
        UnpaidStep(db, ops[0], license);
      }
      CheckedRun(Step(db, ops[0]).0, ops[1..], license);
    }
  }

  lemma UnpaidBound(db: Db, license: Id)
    requires AtMostOneUnpaid(db, license)
    ensures |TrustedDevices(db, license)| <= 1 + |ApprovedRequests(db, license)|
  {
    var approved := ApprovedRequests(db, license);
    var devices := DevicesOfRequests(db, approved);
    var first: Device := "";
    if d: Device :| Unpaid(db, Pair(license, d)) {
      first := d;
    }
    hide ActiveTrusted;
    forall d | d in TrustedDevices(db, license)
      ensures d in {first} + devices
    {
      assert ActiveTrusted(db, Pair(license, d));
      if d != first {
        assert !Unpaid(db, Pair(license, d));
        var r: Id :| ApprovedFor(db, r, Pair(license, d));
        assert r in approved;
      }
    }
    SubsetSize(TrustedDevices(db, license), {first} + devices);
  }

  /** So where administrators check before they reactivate, approved requests pay for every device but the first. */
  lemma TrustedBoundChecked(ops: seq<Op>, license: Id)
    requires LegalRun(EMPTY, ops) && Checked(EMPTY, ops, license)
    ensures |TrustedDevices(Run(EMPTY, ops), license)| <= 1 + |ApprovedRequests(Run(EMPTY, ops), license)|
  {
    CheckedRun(EMPTY, ops, license);
    UnpaidBound(Run(EMPTY, ops), license);
  }

  /** No approval is left over: each approved request pays for a trusted device of its own. */
  ghost predicate ApprovalsUsed(db: Db, license: Id) {
    && (forall r: Id :: r in ApprovedRequests(db, license) ==> ActiveTrusted(db, Pair(license, db.requests[r].device)))
    && forall q: Id, r: Id ::
         q in ApprovedRequests(db, license) && r in ApprovedRequests(db, license) && q != r ==>
           db.requests[q].device != db.requests[r].device
  }

  lemma {:induction false} DistinctDevices(db: Db, requests: set<Id>) returns (devices: set<Device>)
    requires requests <= db.requests.Keys
    requires forall q: Id, r: Id :: q in requests && r in requests && q != r ==>
      db.requests[q].device != db.requests[r].device
    ensures |devices| == |requests|
    ensures forall d: Device :: d in devices <==> exists r: Id :: r in requests && db.requests[r].device == d
    decreases |requests|
  {
    if requests == {} {
      devices := {};
    } else {
      var r :| r in requests;
      var rest := DistinctDevices(db, requests - {r});
      devices := rest + {db.requests[r].device};
    }
  }

  lemma TwoUnpaid(db: Db, license: Id, d: Device, e: Device, paid: set<Device>)
    requires d != e && Unpaid(db, Pair(license, d)) && Unpaid(db, Pair(license, e))
    requires forall x: Device :: x in paid ==> ActiveTrusted(db, Pair(license, x)) && Paid(db, Pair(license, x))
    ensures |TrustedDevices(db, license)| >= 2 + |paid|
  {
    hide ActiveTrusted, Paid, TrustedDevices;
    assert d !in paid && e !in paid;
    assert |{d, e}| == 2 && |{d, e} + paid| == 2 + |paid|;
    SubsetSize({d, e} + paid, TrustedDevices(db, license));
  }

  /** A reactivation changes no approval, and leaves the devices trusted that approvals pay for. */
  lemma UsedStay(db: Db, op: Op, license: Id, paid: set<Device>)
    requires WellFormed(db) && RevivesSome(op, license) && ApprovalsUsed(db, license)
    requires forall x: Device :: x in paid ==>
      exists r: Id :: r in ApprovedRequests(db, license) && db.requests[r].device == x
    ensures Legal(db, op)
    ensures forall x: Device :: x in paid ==>
      ActiveTrusted(Step(db, op).0, Pair(license, x)) && Paid(Step(db, op).0, Pair(license, x))
  {
    assert Legal(db, op);
    hide WellFormed, Legal, RevivesSome, Step, ActiveTrusted;
    forall x: Device | x in paid
      ensures ActiveTrusted(Step(db, op).0, Pair(license, x)) && Paid(Step(db, op).0, Pair(license, x))
    {
      var r: Id :| r in ApprovedRequests(db, license) && db.requests[r].device == x;
      assert ApprovedFor(db, r, Pair(license, x));
      ReturnedRow(db, op, license, x);
    }
  }

  lemma ApprovedStay(db: Db, op: Op, license: Id)
    requires WellFormed(db) && RevivesSome(op, license)
    ensures Legal(db, op) && ApprovedRequests(Step(db, op).0, license) == ApprovedRequests(db, license)
  {
  }

  /**
   * The check is also necessary as soon as no approval is left over: a reactivation then keeps the bound if and only
   * if it passes the check.
   */
  lemma RevivalKeepsBoundExactly(db: Db, op: Op, license: Id)
    requires WellFormed(db) && RevivesSome(op, license) && ApprovalsUsed(db, license)
    ensures var after := Step(db, op).0;
      |TrustedDevices(after, license)| <= 1 + |ApprovedRequests(after, license)| <==> MayReturn(db, op, license)
  {
    ApprovedStay(db, op, license);
    hide WellFormed, Legal, RevivesSome, Step, ActiveTrusted, MayReturn, Unpaid, Paid, TrustedDevices;
    RevivalChecked(db, op, license);
    var after := Step(db, op).0;
    if AtMostOneUnpaid(after, license) {
      UnpaidBound(after, license);
    } else {
      var d: Device, e: Device :| Unpaid(after, Pair(license, d)) && Unpaid(after, Pair(license, e)) && d != e;
      var paid := DistinctDevices(db, ApprovedRequests(db, license));
      UsedStay(db, op, license, paid);
      TwoUnpaid(after, license, d, e, paid);
    }
  }

  // ---------------------------------------------------------------- one open request at a time

  ghost predicate LoneRequests(db: Db) {
    forall q: Id, r: Id, p: Pair :: Open(db, q, p) && Open(db, r, p) ==> q == r
  }

  predicate Reopens(op: Op) {
    (op.SetRequestState? || op.SetLicenseState?) && op.state.Active?
  }

  /** A step opens a request only for a pair that has none, unless an administrator reopens rows. */
  lemma OpenStep(db: Db, op: Op, r: Id, p: Pair)
    requires WellFormed(db) && Legal(db, op) && !Reopens(op) && Open(Step(db, op).0, r, p)
    ensures Open(db, r, p) || (op.Verify? && r == db.next + 1 && forall q: Id :: !Open(db, q, p))
  {
    if op.Verify? {
      hide TrustedDevices, ActiveTrusted, KeysSound, InstallationsSound, RequestsSound, EmailsSound;
    } else {
      OtherRequests(db, op, r);
      OpenKept(db, op, r);
      hide WellFormed, Legal, Step, Approves;
    }
  }

  lemma OpenKept(db: Db, op: Op, r: Id)
    requires WellFormed(db) && Legal(db, op) && !op.Verify? && !Reopens(op) && r in db.requests
    requires r in Step(db, op).0.requests && Step(db, op).0.requests[r].state.Active?
    ensures db.requests[r].state.Active?
  {
    hide WellFormed, Legal, ConfirmStep;
    if op.Confirm? {
      ConfirmRequests(db, op.now, op.token, r);
    } else if !op.Approve? && !op.SetLicenseState? && !op.SetRequestState? {
      RequestsUntouched(db, op);
      hide Step;
    }
  }

  lemma {:induction false} LoneRequestsRun(db: Db, ops: seq<Op>)
    requires WellFormed(db) && LegalRun(db, ops) && LoneRequests(db)
    requires forall k :: 0 <= k < |ops| ==> !Reopens(ops[k])
    ensures LoneRequests(Run(db, ops))
    decreases |ops|
  {
    if ops != [] {
      var op := ops[0];
      var after := Step(db, op).0;
      StepKeepsWellFormed(db, op);
      forall q: Id, r: Id, p: Pair | Open(after, q, p) && Open(after, r, p)
        ensures q == r
      {
        OpenStep(db, op, q, p);
        OpenStep(db, op, r, p);
        hide Step, Legal, Open, WellFormed;
      }
      LoneRequestsRun(after, ops[1..]);
    }
  }

  /** Then the latest request of a pair is the only one, and the database has no tie to break. */
  lemma PickIsForced(ops: seq<Op>, p: Pair, a: Option<Id>, b: Option<Id>)
    requires LegalRun(EMPTY, ops) && (forall k :: 0 <= k < |ops| ==> !Reopens(ops[k]))
    requires Latest(Run(EMPTY, ops), p, a) && Latest(Run(EMPTY, ops), p, b)
    ensures a == b
  {
    LoneRequestsRun(EMPTY, ops);
  }
}
