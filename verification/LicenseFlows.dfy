/** What the answers of the license server mean, and exactly when each is given. */
module LicenseFlows {
  import opened Wrappers
  import opened LicenseSpec
  import opened LicenseTheorems
  import opened LicenseRuns

  // ---------------------------------------------------------------- answers

  /**
   * A verification answers "entitled" exactly when the device is trusted afterwards. "Pending" leaves it untrusted; a
   * replacement entitles it on a license that did not exist, of the same owner, and leaves the old license's trust as
   * it was; a refusal changes nothing.
   */
  lemma VerdictMatchesTrust(db: Db, op: Op)
    requires WellFormed(db) && op.Verify? && Legal(db, op)
    ensures var (after, reply) := Step(db, op);
      match reply
      case Refused(_) => after == db && FindActiveKey(db, op.keyValue).None?
      case Verdict(license, key, status, replacementKey) =>
        var found := FindActiveKey(db, op.keyValue);
        && found.Some?
        && var asked := Pair(db.keys[found.value].license, op.device);
        && (status.Entitled? <==> ActiveTrusted(after, asked))
        && (status.ReplacementIssued? <==> license !in db.licenses)
        && (status.ReplacementIssued? <==> replacementKey.Some?)
        && (status.ReplacementIssued? ==>
              && ActiveTrusted(after, Pair(license, op.device))
              && TrustedDevices(after, asked.license) == TrustedDevices(db, asked.license)
              && license in after.licenses && after.licenses[license].owner == after.licenses[asked.license].owner
              && UsableKey(after, key, replacementKey.value) && after.keys[key].license == license)
        && (!status.ReplacementIssued? ==> license == asked.license && key == found.value)
      case _ => false
  {
    var found := FindActiveKey(db, op.keyValue);
    if found.Some? {
      hide EmailsSound;
      var asked := Pair(db.keys[found.value].license, op.device);
      assert asked.license < db.next;
      assert ActiveTrusted(db, asked) ==> asked.device in TrustedDevices(db, asked.license);
    }
  }

  /**
   * A replacement is issued exactly when the license trusts some device, but not this one, whose latest open request
   * is neither approved nor within its window. That the request was replaced before plays no part.
   */
  lemma ReplacedExactly(db: Db, op: Op)
    requires WellFormed(db) && op.Verify? && Legal(db, op)
    ensures (Step(db, op).1.Verdict? && Step(db, op).1.status.ReplacementIssued?)
      <==> ReplacementTrust(db, op, Pair(db.next, op.device))
  {
    hide EmailsSound;
    var found := FindActiveKey(db, op.keyValue);
    if found.Some? {
      var asked := Pair(db.keys[found.value].license, op.device);
      assert ActiveTrusted(db, asked) ==> asked.device in TrustedDevices(db, asked.license);
    }
  }

  // ---------------------------------------------------------------- when the owner is asked

  /** The license trusts some device, but not this one, and no request of this one is open. */
  ghost predicate MustAsk(db: Db, op: Op)
    requires op.Verify?
  {
    var k := FindActiveKey(db, op.keyValue);
    && k.Some?
    && var asked := Pair(db.keys[k.value].license, op.device);
    && TrustedDevices(db, asked.license) != {}
    && !ActiveTrusted(db, asked)
    && forall r: Id :: !Open(db, r, asked)
  }

  /** `db` with request `n + 1` and mail `n + 2`, if there are such, naming another origin. */
  function Elsewhere(db: Db, n: Id, origin: Origin): Db {
    db.(requests := if n + 1 in db.requests
                    then db.requests[n + 1 := db.requests[n + 1].(origin := origin)] else db.requests,
        emails := if n + 2 in db.emails && db.emails[n + 2].mail.ConfirmationLink?
                  then db.emails[n + 2 := db.emails[n + 2].(mail := db.emails[n + 2].mail.(origin := origin))]
                  else db.emails)
  }

  lemma AskElsewhere(db: Db, k: Id, op: Op, origin: Origin)
    requires op.Verify? && k in db.keys && db.keys[k].license in db.licenses
    ensures AskOwner(db, k, op.(origin := origin))
      == (Elsewhere(AskOwner(db, k, op).0, db.next, origin), AskOwner(db, k, op).1)
  {
    var here, there := AskOwner(db, k, op).0, AskOwner(db, k, op.(origin := origin)).0;
    var n := db.next;
    assert here.requests[n + 1 := there.requests[n + 1]] == there.requests;
    assert here.emails[n + 2 := there.emails[n + 2]] == there.emails;
  }

  /** A verification opens a pending request exactly when it must ask. */
  lemma AskedExactly(db: Db, op: Op)
    requires WellFormed(db) && op.Verify? && Legal(db, op)
    ensures (exists r: Id :: r in Step(db, op).0.requests && r !in db.requests) <==> MustAsk(db, op)
  {
    hide KeysSound, InstallationsSound, EmailsSound;
    var found := FindActiveKey(db, op.keyValue);
    if found.Some? {
      var asked := Pair(db.keys[found.value].license, op.device);
      assert ActiveTrusted(db, asked) ==> asked.device in TrustedDevices(db, asked.license);
      if MustAsk(db, op) {
        assert db.next + 1 in Step(db, op).0.requests;
      } else {
        assert Step(db, op).0.requests.Keys == db.requests.Keys;
      }
    }
  }

  /**
   * Whether it must is decided by the tables and the device's installation id: from another origin the same
   * verification gets the same answer and leaves the same tables, but for the origin that a new request and its mail
   * name.
   */
  lemma OriginIsNotLookedAt(db: Db, op: Op, origin: Origin)
    requires WellFormed(db) && op.Verify? && Legal(db, op)
    ensures var other := op.(origin := origin);
      && Legal(db, other)
      && Step(db, other) == (Elsewhere(Step(db, op).0, db.next, origin), Step(db, op).1)
  {
    hide KeysSound, InstallationsSound, EmailSound, TrustedDevices, ActiveTrusted, AskOwner;
    assert db.next + 1 !in db.requests && db.next + 2 !in db.emails;
    var found := FindActiveKey(db, op.keyValue);
    if found.Some? {
      AskElsewhere(db, found.value, op, origin);
    }
  }

  // ---------------------------------------------------------------- asking

  /** Looking a key up depends on the keys and licenses alone. */
  lemma SameKeyFound(a: Db, b: Db, value: Id)
    requires WellFormed(a) && a.keys == b.keys && a.licenses == b.licenses
    ensures FindActiveKey(a, value) == FindActiveKey(b, value)
  {
    var x, y := FindActiveKey(a, value), FindActiveKey(b, value);
    if x.Some? {
      assert UsableKey(b, x.value, value);
    }
    if y.Some? {
      assert UsableKey(a, y.value, value);
    }
  }

  /** Trust depends on the installations alone. */
  lemma SameTrusted(a: Db, b: Db, p: Pair)
    requires a.installations == b.installations
    ensures TrustedDevices(a, p.license) == TrustedDevices(b, p.license)
    ensures ActiveTrusted(a, p) <==> ActiveTrusted(b, p)
  {
    assert forall d: Device :: ActiveTrusted(a, Pair(p.license, d)) <==> ActiveTrusted(b, Pair(p.license, d));
  }

  /** A verification that found no open request of its pair and did not trust it: the owner is asked. */
  ghost predicate AsksOwner(db: Db, ask: Op, k: Id) {
    && ask.Verify? && ask.pick.None?
    && FindActiveKey(db, ask.keyValue) == Some(k)
    && TrustedDevices(db, db.keys[k].license) != {}
    && !ActiveTrusted(db, Pair(db.keys[k].license, ask.device))
  }

  ghost predicate Repeats(again: Op, ask: Op) {
    again.Verify? && ask.Verify? && again.keyValue == ask.keyValue && again.device == ask.device
  }

  lemma StepVerify(db: Db, op: Op, k: Id)
    requires Legal(db, op) && op.Verify? && FindActiveKey(db, op.keyValue) == Some(k)
    ensures Step(db, op) == VerifyWithKey(db, k, op)
  {
  }

  /** Asking writes one request and one queued mail to the owner, with the token nobody else holds. */
  lemma OwnerIsAsked(db: Db, ask: Op, k: Id)
    requires WellFormed(db) && Legal(db, ask) && AsksOwner(db, ask, k)
    ensures k in db.keys
    ensures var n := db.next;
      var license := db.keys[k].license;
      var (after, reply) := Step(db, ask);
      && reply == Verdict(license, k, PendingConfirmation, None)
      && after.keys == db.keys && after.licenses == db.licenses && after.installations == db.installations
      && after.requests.Keys == db.requests.Keys + {n + 1}
      && Open(after, n + 1, Pair(license, ask.device))
      && (forall q: Id :: Open(after, q, Pair(license, ask.device)) ==> q == n + 1)
      && after.requests[n + 1].token == n && after.requests[n + 1].approvedAt.None?
      && after.requests[n + 1].expiresAt == ask.now + ask.window
      && after.emails.Keys == db.emails.Keys + {n + 2}
      && after.emails[n + 2]
        == NewEmail(license, Some(n + 1), ConfirmationLink(db.licenses[license].owner, ask.origin, n), ask.now)
      && (forall q: Id :: q in db.requests ==> db.requests[q].token != n)
  {
    StepVerify(db, ask, k);
    var n := db.next;
    var p := Pair(db.keys[k].license, ask.device);
    assert forall q: Id :: !Open(db, q, p);
    assert forall q: Id :: q in db.requests ==> q != n + 1 && db.requests[q].token != n;
    hide WellFormed, Legal, Step, TrustedDevices, ActiveTrusted, FindActiveKey;
    var after := AskOwner(db, k, ask).0;
    forall q: Id | Open(after, q, p)
      ensures q == n + 1
    {
      assert q == n + 1 || Open(db, q, p);
    }
    assert after.requests.Keys == db.requests.Keys + {n + 1};
    assert after.emails.Keys == db.emails.Keys + {n + 2};
  }

  lemma KeyIsFound(db: Db, k: Id, value: Id)
    requires WellFormed(db) && UsableKey(db, k, value)
    ensures FindActiveKey(db, value) == Some(k)
  {
  }

  // ---------------------------------------------------------------- why reactivations count

  /** Trust of an archived installation, replaced by another device's first trust and then brought back. */
  function RevivalRun(): seq<Op> {
    var origin := Origin(None, "", "", None);
    [Issue("owner"), Verify(0, 2, "a", origin, 0, None), SetInstallationState(Pair(0, "a"), Archived),
     Verify(0, 2, "b", origin, 0, None), SetInstallationState(Pair(0, "a"), Active)]
  }

  lemma FirstVerification(db: Db, op: Op, k: Id)
    requires WellFormed(db) && op.Verify? && UsableKey(db, k, op.keyValue)
      && TrustedDevices(db, db.keys[k].license) == {}
    requires op.pick.None? && forall r: Id :: r !in db.requests
    ensures Legal(db, op) && Step(db, op).0 == Trusting(db, Pair(db.keys[k].license, op.device))
  {
    KeyIsFound(db, k, op.keyValue);
  }

  lemma {:induction false} RunOne(db: Db, op: Op, ops: seq<Op>)
    requires Legal(db, op) && LegalRun(Step(db, op).0, ops)
    ensures LegalRun(db, [op] + ops) && Run(db, [op] + ops) == Run(Step(db, op).0, ops)
  {
    assert ([op] + ops)[1..] == ops;
  }

  function WithRows(rows: map<Pair, Installation>): Db {
    IssueStep(EMPTY, "owner").0.(installations := rows)
  }

  lemma WithRowsWellFormed(rows: map<Pair, Installation>)
    requires forall p: Pair :: p in rows ==> p.license == 0 && rows[p].trusted
    ensures WellFormed(WithRows(rows)) && UsableKey(WithRows(rows), 1, 2)
  {
  }

  /** The four states of `RevivalRun` after the license is issued differ in their installations only. */
  lemma RevivalSteps()
    ensures var ops, a, b := RevivalRun(), Pair(0, "a"), Pair(0, "b");
      var kept, gone := Installation(true, Active), Installation(true, Archived);
      && Step(EMPTY, ops[0]).0 == WithRows(map[])
      && Legal(WithRows(map[]), ops[1]) && Step(WithRows(map[]), ops[1]).0 == WithRows(map[a := kept])
      && Step(WithRows(map[a := kept]), ops[2]).0 == WithRows(map[a := gone])
      && Legal(WithRows(map[a := gone]), ops[3])
      && Step(WithRows(map[a := gone]), ops[3]).0 == WithRows(map[a := gone, b := kept])
      && Step(WithRows(map[a := gone, b := kept]), ops[4]).0 == WithRows(map[a := kept, b := kept])
  {
    var ops, a, b := RevivalRun(), Pair(0, "a"), Pair(0, "b");
    var gone := Installation(true, Archived);
    WithRowsWellFormed(map[]);
    WithRowsWellFormed(map[a := gone]);
    assert TrustedDevices(WithRows(map[]), 0) == {};
    assert TrustedDevices(WithRows(map[a := gone]), 0) == {};
    FirstVerification(WithRows(map[]), ops[1], 1);
    FirstVerification(WithRows(map[a := gone]), ops[3], 1);
    hide WellFormed, TrustedDevices, VerifyStep, FindActiveKey, UsableKey, ActiveTrusted;
  }

  /** Two trusted devices and no approved request: without counting reactivations the bound would fail. */
  lemma RevivalBreaksBound()
    ensures LegalRun(EMPTY, RevivalRun())
    ensures TrustedDevices(Run(EMPTY, RevivalRun()), 0) == {"a", "b"}
    ensures ApprovedRequests(Run(EMPTY, RevivalRun()), 0) == {}
  {
    var ops, a, b := RevivalRun(), Pair(0, "a"), Pair(0, "b");
    var kept, gone := Installation(true, Active), Installation(true, Archived);
    RevivalSteps();
    var end := WithRows(map[a := kept, b := kept]);
    assert TrustedDevices(end, 0) == {"a", "b"};
    assert ApprovedRequests(end, 0) == {};
    assert ops == [ops[0]] + ops[1..] && ops[1..] == [ops[1]] + ops[2..] && ops[2..] == [ops[2]] + ops[3..];
    assert ops[3..] == [ops[3]] + ops[4..] && ops[4..] == [ops[4]] + [];
    assert LegalRun(end, []) && Run(end, []) == end;
    hide TrustedDevices, ApprovedRequests, WithRows, Step, LegalRun, Run;
    RunOne(WithRows(map[a := gone, b := kept]), ops[4], []);
    RunOne(WithRows(map[a := gone]), ops[3], ops[4..]);
    RunOne(WithRows(map[a := kept]), ops[2], ops[3..]);
    RunOne(WithRows(map[]), ops[1], ops[2..]);
    RunOne(EMPTY, ops[0], ops[1..]);
  }
}
