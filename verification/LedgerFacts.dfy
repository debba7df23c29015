/** What single transactions mean for each family of rows: access decisions, audit, nonces. */
module LedgerFacts {
  import opened Wrappers
  import opened Text
  import opened Roles
  import opened Ledger
  import opened Transactions

  // ---- frames --------------------------------------------------------------------------

  /** The row family a request's plan changes, besides the audit trail and the sensor row it adds. */
  function Target(req: Request): Kind
  {
    match req
    case IssueCrossZoneToken(_, _, _, _, _) => TokenKind
    case RevokeCrossZoneToken(_, _) => TokenKind
    case PruneNonces(_, _) => NonceKind
    case GetAuditLog => NoKind
    case _ => RoleKind
  }

  lemma SameTransitive(s: State, t: State, u: State, kind: Kind)
    requires Same(s, t, kind) && Same(t, u, kind)
    ensures Same(s, u, kind)
  {
  }

  lemma SettleFrame(x: Effect, kind: Kind)
    requires Sound(x) && kind != AuditKind && kind != SensorKind
    ensures Same(x.state, Settle(x), kind)
  {
  }

  lemma {:induction false} PruneFrame(s: State, keys: seq<string>, n: nat, before: int, own: string, kind: Kind)
    requires Typed(s) && n <= |keys| && kind != NonceKind
    ensures Same(s, PruneFirst(s, keys, n, before, own).state, kind)
  {
    if n > 0 {
      PruneFrame(s, keys, n - 1, before, own, kind);
      var r, key := PruneFirst(s, keys, n - 1, before, own), keys[n - 1];
      if Prunable(r.state, key, before, own) {
        assert TypedRow(key, r.state[key]);
        assert KindOf(key) == NonceKind;
      }
    }
  }

  lemma AssignFrame(
    s: State, env: Env, subject: string, roleName: string, zonesCSV: string, expiry: Expiry, kind: Kind)
    requires Typed(s) && kind != RoleKind
    ensures Same(s, PlanAssignRole(s, env, subject, roleName, zonesCSV, expiry).state, kind)
  {
  }

  lemma RevokeFrame(s: State, env: Env, subject: string, kind: Kind)
    requires Typed(s) && kind != RoleKind
    ensures Same(s, PlanRevokeRole(s, env, subject).state, kind)
  {
  }

  lemma RenewFrame(s: State, env: Env, subject: string, expiry: Expiry, kind: Kind)
    requires Typed(s) && kind != RoleKind
    ensures Same(s, PlanRenewRole(s, env, subject, expiry).state, kind)
  {
  }

  lemma CheckFrame(s: State, env: Env, user: string, p: Permission, zone: string, token: string, kind: Kind)
    requires Typed(s) && kind != RoleKind
    ensures Same(s, PlanCheckAccess(s, env, user, p, zone, token).state, kind)
  {
  }

  lemma WriteFrame(
    s: State, env: Env, device: string, reading: string, validJson: bool, zone: string, kind: Kind)
    requires Typed(s) && kind != RoleKind
    ensures Same(s, PlanWriteSensor(s, env, device, reading, validJson, zone).state, kind)
  {
    CheckFrame(s, env, Trim(env.caller.id), WriteSensor, zone, "", kind);
  }

  lemma IssueFrame(
    s: State, env: Env, user: string, targetsCSV: string, expiry: Expiry, nonce: string, hash: string, kind: Kind)
    requires Typed(s) && kind != TokenKind
    ensures Same(s, PlanIssueToken(s, env, user, targetsCSV, expiry, nonce, hash).state, kind)
  {
  }

  lemma RevokeTokenFrame(s: State, env: Env, token: string, kind: Kind)
    requires Typed(s) && kind != TokenKind
    ensures Same(s, PlanRevokeToken(s, env, token).state, kind)
  {
  }

  lemma PrunePlanFrame(s: State, env: Env, before: int, nonce: string, kind: Kind)
    requires Typed(s) && kind != NonceKind
    ensures Same(s, PlanPruneNonces(s, env, before, nonce).state, kind)
  {
    if IsAdmin(env) {
      var keys, own := Index(s, NONCE_INDEX), NonceKey(env.caller.id, nonce);
      PruneFrame(s, keys, |keys|, before, own, kind);
      assert KindOf(NONCE_INDEX) == NonceKind;
    }
  }

  lemma PlanFrame(s: State, env: Env, req: Request, kind: Kind)
    requires Typed(s) && kind != Target(req)
    ensures Same(s, Plan(s, env, req).state, kind)
  {
    match req
    case AssignRole(subject, roleName, zonesCSV, expiry, _) =>
      AssignFrame(s, env, subject, roleName, zonesCSV, expiry, kind);
    case RevokeRole(subject, _) => RevokeFrame(s, env, subject, kind);
    case RenewRole(subject, expiry, _) => RenewFrame(s, env, subject, expiry, kind);
    case CheckAccess(user, permission, zone, token) =>
      CheckFrame(s, env, Trim(user), ParsePermission(Trim(permission)), zone, token, kind);
    case IssueCrossZoneToken(user, targetsCSV, expiry, nonce, hash) =>
      IssueFrame(s, env, user, targetsCSV, expiry, nonce, hash, kind);
    case RevokeCrossZoneToken(token, _) => RevokeTokenFrame(s, env, token, kind);
    case GetAuditLog =>
    case PruneNonces(before, nonce) => PrunePlanFrame(s, env, before, nonce, kind);
    case WriteSensorData(device, reading, validJson, zone, _) =>
      WriteFrame(s, env, device, reading, validJson, zone, kind);
  }

  // ---- access decisions ----------------------------------------------------------------

  /** When access is granted, in one condition: an unrevoked certificate, a live role holding the
      permission, and for zone permissions a reached zone or a token that covers it. */
  predicate Grants(s: State, env: Env, user: string, p: Permission, zone: string, token: string)
  {
    && (env.caller.serialHex == "" || CrlKey(env.caller.serialHex) !in s)
    && user != ""
    && RoleRow(s, user).Some?
    && var a := RoleRow(s, user).value;
      && !Expired(env, a)
      && HasPermission(Some(a.role), p)
      && (NeedsZoneCheck(p) ==> ZoneReached(a, zone) || TokenReached(s, env, user, zone, token))
  }

  /** The source's chain of checks grants exactly when that one condition holds. */
  lemma DecisionMeaning(s: State, env: Env, user: string, p: Permission, zone: string, token: string)
    ensures AccessReason(s, env, user, p, zone, token).Permitted? <==> Grants(s, env, user, p, zone, token)
  {
  }

  /** Decisions read roles, tokens and revocation marks only. */
  lemma GrantsFrame(s: State, t: State, env: Env, user: string, p: Permission, zone: string, token: string)
    requires Same(s, t, RoleKind) && Same(s, t, TokenKind) && Same(s, t, CrlKind)
    ensures Grants(s, env, user, p, zone, token) == Grants(t, env, user, p, zone, token)
  {
  }

  lemma ReasonFrame(s: State, t: State, env: Env, user: string, p: Permission, zone: string, token: string)
    requires Same(s, t, RoleKind) && Same(s, t, TokenKind) && Same(s, t, CrlKind)
    ensures AccessReason(s, env, user, p, zone, token) == AccessReason(t, env, user, p, zone, token)
  {
    assert CrlKey(env.caller.serialHex) in s <==> CrlKey(env.caller.serialHex) in t;
    assert TokenReached(s, env, user, zone, token) == TokenReached(t, env, user, zone, token) by {
      assert TokenRow(s, Trim(token)) == TokenRow(t, Trim(token));
    }
    assert RoleRow(s, user) == RoleRow(t, user);
    assert TokenRow(s, Trim(token)) == TokenRow(t, Trim(token));
  }

  lemma RoleKeyInjective(a: string, b: string)
    ensures RoleKey(a) == RoleKey(b) <==> a == b
  {
  }

  /** Deleting an expired role changes no decision at any time from then on: nobody could have used it. */
  lemma SweepHarmless(s: State, env: Env, u: string, reason: Reason,
                      later: Env, u': string, p: Permission, zone: string, token: string)
    requires Typed(s) && later.seconds >= env.seconds
    requires reason == RoleExpired ==> RoleRow(s, u).Some? && Expired(env, RoleRow(s, u).value)
    ensures Grants(s, later, u', p, zone, token) == Grants(SweepRole(s, u, reason), later, u', p, zone, token)
  {
  }

  /** Asking never changes an answer: after any access check, every later check decides as it would
      have without it. */
  lemma CheckHarmless(s: State, env: Env, user: string, p: Permission, zone: string, token: string,
                      later: Env, u': string, p': Permission, zone': string, token': string)
    requires Typed(s) && later.seconds >= env.seconds
    ensures var x := PlanCheckAccess(s, env, user, p, zone, token);
      Grants(s, later, u', p', zone', token') == Grants(Settle(x), later, u', p', zone', token')
  {
    var x := PlanCheckAccess(s, env, user, p, zone, token);
    SweepHarmless(s, env, user, AccessReason(s, env, user, p, zone, token), later, u', p', zone', token');
    SettleFrame(x, RoleKind);
    SettleFrame(x, TokenKind);
    SettleFrame(x, CrlKind);
    GrantsFrame(x.state, Settle(x), later, u', p', zone', token');
  }

  lemma CheckedSensorRows(s: State, env: Env, user: string, zone: string)
    requires Typed(s)
    ensures Same(s, Settle(PlanCheckAccess(s, env, user, WriteSensor, zone, "")), SensorKind)
  {
  }

  lemma AddedReading(check: Effect, env: Env, device: string, reading: string, validJson: bool)
    requires Sound(check) && check.row == None
    ensures var x := AddReading(check, env, device, reading, validJson);
      && (x.outcome.Ok? <==> check.outcome == Ok(Decision(true)) && Trim(device) != "" && validJson)
      && Settle(x) == if x.outcome.Err? then Settle(check)
                      else Settle(check)[ReadingKey(env, device) := BytesVal(reading)]
  {
  }

  /** A sensor row is written only for a caller whom the access check lets through, and it is the
      reading, under the device and the transaction time. */
  lemma SensorWriteAuthorised(s: State, env: Env, device: string, reading: string, validJson: bool, zone: string)
    requires Typed(s)
    ensures var x := PlanWriteSensor(s, env, device, reading, validJson, zone);
      var key := ReadingKey(env, device);
      && (x.outcome.Ok? <==>
            Grants(s, env, Trim(env.caller.id), WriteSensor, zone, "") && Trim(device) != "" && validJson)
      && (x.outcome.Ok? ==> key in Settle(x) && Settle(x)[key] == BytesVal(reading))
      && (forall k :: KindOf(k) == SensorKind && !(x.outcome.Ok? && k == key) ==>
            ((k in s <==> k in Settle(x)) && (k in s ==> Settle(x)[k] == s[k])))
  {
    DecisionMeaning(s, env, Trim(env.caller.id), WriteSensor, zone, "");
    CheckedSensorRows(s, env, Trim(env.caller.id), zone);
    AddedReading(PlanCheckAccess(s, env, Trim(env.caller.id), WriteSensor, zone, ""), env, device, reading, validJson);
  }

  // ---- untrimmed subjects --------------------------------------------------------------

  /** Every lookup trims, but RenewRole writes under the subject as given. A successful renewal
      therefore reaches the record the lookups see exactly when the subject was already trimmed (or the
      new expiry is the old one). */
  lemma RenewalTakesEffect(s: State, env: Env, subject: string, expiry: Expiry)
    requires Typed(s) && PlanRenewRole(s, env, subject, expiry).outcome.Ok?
    ensures var t := Settle(PlanRenewRole(s, env, subject, expiry));
      var wanted := FutureExpiry(env, expiry, true).value;
      && Lookup(s, subject).Ok? && Lookup(t, subject).Ok?
      && (Lookup(t, subject).value == Lookup(s, subject).value.(expiresAt := wanted) <==>
          (subject == Trim(subject) || Lookup(s, subject).value.expiresAt == wanted))
  {
  }

  predicate ExpiresAfter(env: Env, expiry: Expiry)
  {
    FutureExpiry(env, expiry, true).Ok? && FutureExpiry(env, expiry, true).value > env.seconds
  }

  lemma PutTokenRow(s: State, k: CrossZoneToken)
    requires Typed(s) && forall z :: z in k.targetZones ==> StorableZone(z)
    ensures TokenRow(PutToken(s, k), k.tokenId) == Some(k)
  {
  }

  lemma IssuedToken(s: State, env: Env, user: string, targetsCSV: string, expiry: Expiry, nonce: string, hash: string)
    requires Typed(s) && PlanIssueToken(s, env, user, targetsCSV, expiry, nonce, hash).outcome.Ok?
    ensures var row := TokenRow(Settle(PlanIssueToken(s, env, user, targetsCSV, expiry, nonce, hash)), hash);
      && row.Some? && row.value.subjectId == user && row.value.targetZones != {}
      && (row.value.expiresAt > env.seconds <==> ExpiresAfter(env, expiry))
  {
    var targets, expiresAt := NormalZones(targetsCSV, true).value, FutureExpiry(env, expiry, true).value;
    var k := CrossZoneToken(hash, user, targets, env.caller.id, env.seconds, expiresAt, nonce);
    var x := PlanIssueToken(s, env, user, targetsCSV, expiry, nonce, hash);
    assert x.state == PutToken(s, k);
    PutTokenRow(s, k);
    SettleFrame(x, TokenKind);
    assert TokenRow(Settle(x), hash) == TokenRow(x.state, hash);
  }

  /** IssueCrossZoneToken stores the user as given, while CheckAccess compares a trimmed one: a fresh
      token can serve some access check of that user exactly when the user was already trimmed and the
      expiry is not in the issuing second. */
  lemma TokenUsable(s: State, env: Env, user: string, targetsCSV: string, expiry: Expiry, nonce: string, hash: string)
    requires Typed(s) && PlanIssueToken(s, env, user, targetsCSV, expiry, nonce, hash).outcome.Ok?
    requires hash != "" && Trimmed(hash)
    ensures var t := Settle(PlanIssueToken(s, env, user, targetsCSV, expiry, nonce, hash));
      (exists zone :: TokenReached(t, env, Trim(user), zone, hash)) <==>
      (user == Trim(user) && ExpiresAfter(env, expiry))
  {
    IssuedToken(s, env, user, targetsCSV, expiry, nonce, hash);
    var t := Settle(PlanIssueToken(s, env, user, targetsCSV, expiry, nonce, hash));
    var zone :| zone in TokenRow(t, hash).value.targetZones;
    if user == Trim(user) && ExpiresAfter(env, expiry) {
      assert TokenReached(t, env, Trim(user), zone, hash);
    }
  }

  // ---- audit trail ---------------------------------------------------------------------

  ghost predicate NoDuplicates(keys: seq<string>)
  {
    forall i, j :: 0 <= i < j < |keys| ==> keys[i] != keys[j]
  }

  /** The index lists every stored row of its family, each once, and nothing else. */
  ghost predicate Indexed(s: State, index: string, kind: Kind)
  {
    && NoDuplicates(Index(s, index))
    && forall k :: k in Index(s, index) <==> k in s && KindOf(k) == kind && k != index
  }

  /** From `s` to `t` the index has only grown at its end and no listed entry has changed. */
  ghost predicate AuditExtends(s: State, t: State)
  {
    && Index(s, AUDIT_INDEX) <= Index(t, AUDIT_INDEX)
    && forall k :: k in Index(s, AUDIT_INDEX) && k in s ==> k in t && t[k] == s[k]
  }

  /** The one transaction id that would break the trail, and only before anything has been audited. */
  predicate LosesEntry(s: State, txId: string)
  {
    txId == "index" && AUDIT_INDEX !in s
  }

  lemma RecordAuditIndexed(s: State, e: AuditEntry)
    requires Typed(s) && Indexed(s, AUDIT_INDEX, AuditKind) && !LosesEntry(s, e.txId)
    ensures Indexed(RecordAudit(s, e), AUDIT_INDEX, AuditKind) && AuditExtends(s, RecordAudit(s, e))
    ensures RecordAudit(s, e)[AuditSlot(s, e.txId)] == AuditVal(e)
  {
  }

  lemma SlotSame(s: State, t: State, txId: string)
    requires Same(s, t, AuditKind)
    ensures AuditSlot(s, txId) == AuditSlot(t, txId)
  {
  }

  lemma RecordSame(s: State, t: State, e: AuditEntry)
    requires Typed(s) && Typed(t) && Same(s, t, AuditKind)
    ensures Same(RecordAudit(s, e), RecordAudit(t, e), AuditKind)
  {
    SlotSame(s, t, e.txId);
  }

  lemma IndexSame(s: State, t: State)
    requires Same(s, t, AuditKind)
    ensures Index(s, AUDIT_INDEX) == Index(t, AUDIT_INDEX)
    ensures Indexed(s, AUDIT_INDEX, AuditKind) <==> Indexed(t, AUDIT_INDEX, AuditKind)
  {
    assert KindOf(AUDIT_INDEX) == AuditKind;
  }

  lemma ExtendsSame(s: State, t: State, u: State)
    requires Indexed(s, AUDIT_INDEX, AuditKind) && AuditExtends(s, t) && Same(t, u, AuditKind)
    ensures AuditExtends(s, u)
  {
    IndexSame(t, u);
  }

  lemma RolePlanEntry(s: State, env: Env, req: Request)
    requires Typed(s) && (req.AssignRole? || req.RevokeRole? || req.RenewRole?)
    ensures Plan(s, env, req).entry.Some? ==> Plan(s, env, req).entry.value.txId == env.txId
  {
  }

  lemma PlanEntry(s: State, env: Env, req: Request)
    requires Typed(s)
    ensures Plan(s, env, req).entry.Some? ==> Plan(s, env, req).entry.value.txId == env.txId
  {
    if req.AssignRole? || req.RevokeRole? || req.RenewRole? {
      RolePlanEntry(s, env, req);
    }
  }

  /** The audit entry that a transaction leaves, as its plan tells before the call: none when the nonce is
      refused or the failed transaction is rolled back. */
  function Written(s: State, env: Env, req: Request, rollback: bool): Option<AuditEntry>
    requires Typed(s)
  {
    if NonceOf(req).Some? && NonceError(s, env.caller.id, NonceOf(req).value).Some? then None else
      var x := Plan(if NonceOf(req).Some? then RecordNonce(s, env, NonceOf(req).value) else s, env, req);
      if rollback && x.outcome.Err? then None else x.entry
  }

  /** The audit rows of `t` are those of `s`, and the entry written, if any. */
  ghost predicate Trails(s: State, t: State, written: Option<AuditEntry>)
    requires Typed(s)
  {
    Same(if written == None then s else RecordAudit(s, written.value), t, AuditKind)
  }

  lemma SettleTrail(s: State, x: Effect)
    requires Typed(s) && Sound(x) && Same(s, x.state, AuditKind)
    ensures Trails(s, Settle(x), x.entry)
  {
    if x.entry.Some? {
      RecordSame(s, x.state, x.entry.value);
    }
  }

  lemma PlanTrail(s: State, s1: State, env: Env, req: Request)
    requires Typed(s) && Typed(s1) && Same(s, s1, AuditKind)
    ensures var x := Plan(s1, env, req);
      Trails(s, Settle(x), x.entry) && (x.entry.Some? ==> x.entry.value.txId == env.txId)
  {
    var x := Plan(s1, env, req);
    PlanFrame(s1, env, req, AuditKind);
    SameTransitive(s, s1, x.state, AuditKind);
    PlanEntry(s1, env, req);
    SettleTrail(s, x);
  }

  /** Every transaction, however it ends, adds to the audit trail exactly the entry its plan tells. */
  lemma ExecTrail(s: State, env: Env, req: Request, rollback: bool)
    requires Typed(s)
    ensures var (t, outcome) := Exec(s, env, req);
      Trails(s, if rollback && outcome.Err? then s else t, Written(s, env, req, rollback))
    ensures var e := Written(s, env, req, rollback); e.Some? ==> e.value.txId == env.txId
  {
    if NonceOf(req) == None {
      PlanTrail(s, s, env, req);
    } else if NonceError(s, env.caller.id, NonceOf(req).value) == None {
      RecordNonceFrame(s, env, NonceOf(req).value);
      PlanTrail(s, RecordNonce(s, env, NonceOf(req).value), env, req);
    }
  }

  predicate Loses(s: State, written: Option<AuditEntry>)
  {
    written.Some? && LosesEntry(s, written.value.txId)
  }

  /** The index gains the slot of what is written and nothing else. It stays exact, and the trail is only
      extended, unless the entry is the one that gets lost; then the index lists itself. */
  lemma TrailStep(s: State, t: State, written: Option<AuditEntry>)
    requires Typed(s) && Trails(s, t, written)
    ensures Index(t, AUDIT_INDEX) ==
            Index(s, AUDIT_INDEX) + if written == None then [] else [AuditSlot(s, written.value.txId)]
    ensures !Loses(s, written) && Indexed(s, AUDIT_INDEX, AuditKind) ==>
              Indexed(t, AUDIT_INDEX, AuditKind) && AuditExtends(s, t)
    ensures !Loses(s, written) && written.Some? ==>
              var k := AuditSlot(s, written.value.txId); k in t && t[k] == AuditVal(written.value)
    ensures Loses(s, written) ==> AUDIT_INDEX in Index(t, AUDIT_INDEX)
  {
    var u := if written == None then s else RecordAudit(s, written.value);
    IndexSame(u, t);
    if written.Some? {
      AuditWrite(s, written.value);
      if !Loses(s, written) && Indexed(s, AUDIT_INDEX, AuditKind) {
        RecordAuditIndexed(s, written.value);
      }
    }
    if !Loses(s, written) && Indexed(s, AUDIT_INDEX, AuditKind) {
      ExtendsSame(s, u, t);
    }
  }

  /** The rows under the keys are these entries, in this order. */
  predicate InOrder(s: State, keys: seq<string>, entries: seq<AuditEntry>)
  {
    |keys| == |entries| && forall i :: 0 <= i < |keys| ==> keys[i] in s && s[keys[i]] == AuditVal(entries[i])
  }

  /** The index lists the rows of these entries, in this order, and no others. */
  predicate Lists(s: State, entries: seq<AuditEntry>)
  {
    InOrder(s, Index(s, AUDIT_INDEX), entries)
  }

  function Added(written: Option<AuditEntry>): seq<AuditEntry>
  {
    if written == None then [] else [written.value]
  }

  /** The rows listed stay what they were, followed by what is written. */
  lemma TrailLists(s: State, t: State, written: Option<AuditEntry>, entries: seq<AuditEntry>)
    requires Typed(s) && Trails(s, t, written) && !Loses(s, written)
    requires Indexed(s, AUDIT_INDEX, AuditKind) && Lists(s, entries)
    ensures Lists(t, entries + Added(written))
  {
    TrailStep(s, t, written);
  }

  /** Every transaction on a ledger with an exact audit index leaves it exact, and only extends the trail,
      precisely if it is not the one that loses its entry. */
  lemma ExecAudit(s: State, env: Env, req: Request)
    requires Typed(s) && Indexed(s, AUDIT_INDEX, AuditKind)
    ensures var t := Exec(s, env, req).0;
      && (Indexed(t, AUDIT_INDEX, AuditKind) <==> !Loses(s, Written(s, env, req, false)))
      && (!Loses(s, Written(s, env, req, false)) ==> AuditExtends(s, t))
  {
    ExecTrail(s, env, req, false);
    TrailStep(s, Exec(s, env, req).0, Written(s, env, req, false));
  }

  /** An access check appends exactly one slot to the trail, and in it, unless it is the one that loses its
      entry, an entry that records the verdict it returns. */
  lemma CheckAudited(s: State, env: Env, user: string, p: Permission, zone: string, token: string)
    requires Typed(s)
    ensures var x := PlanCheckAccess(s, env, user, p, zone, token);
      var slot := AuditSlot(s, env.txId);
      && x.outcome == Ok(Decision(Grants(s, env, user, p, zone, token)))
      && Index(Settle(x), AUDIT_INDEX) == Index(s, AUDIT_INDEX) + [slot]
      && (LosesEntry(s, env.txId) <==> slot == AUDIT_INDEX)
      && (!LosesEntry(s, env.txId) ==>
            && slot in Settle(x) && Settle(x)[slot].AuditVal?
            && var e := Settle(x)[slot].entry;
               && e.txId == env.txId && e.actorId == env.caller.id
               && e.action == CheckAccessAction && e.resource == Trim(zone)
               && (e.decision == GRANT <==> Grants(s, env, user, p, zone, token)))
  {
    DecisionMeaning(s, env, user, p, zone, token);
    var x := PlanCheckAccess(s, env, user, p, zone, token);
    assert Same(s, x.state, AuditKind);
    SettleTrail(s, x);
    TrailStep(s, Settle(x), x.entry);
  }

  function LastEntries(entries: seq<AuditEntry>): (last: seq<AuditEntry>)
    ensures |last| == (if |entries| < 1000 then |entries| else 1000)
    ensures last == entries[|entries| - |last|..]
  {
    if |entries| > 1000 then entries[|entries| - 1000..] else entries
  }

  /** Reading the log answers with the last thousand entries, or all of them if there are fewer, in the
      order the index lists them. */
  lemma LogMeaning(s: State, env: Env, entries: seq<AuditEntry>)
    requires Lists(s, entries) && Typed(s)
    requires IsAdmin(env) || HasPermission(env.caller.role, ReadAudit)
    ensures ReadLog(s, env) == Ok(Log(LastEntries(entries)))
  {
    LastOnes(s, Index(s, AUDIT_INDEX), entries);
    ReadInOrder(s, LastThousand(Index(s, AUDIT_INDEX)), LastEntries(entries));
  }

  lemma LastOnes(s: State, keys: seq<string>, entries: seq<AuditEntry>)
    requires InOrder(s, keys, entries)
    ensures InOrder(s, LastThousand(keys), LastEntries(entries))
  {
    var n := |keys| - 1000;
    if n > 0 {
      assert LastThousand(keys) == keys[n..] && LastEntries(entries) == entries[n..];
    }
  }

  lemma {:induction false} ReadInOrder(s: State, keys: seq<string>, entries: seq<AuditEntry>)
    requires InOrder(s, keys, entries)
    ensures AllReadable(s, keys) && Entries(s, keys) == entries
  {
    if keys != [] {
      var n := |keys| - 1;
      ReadInOrder(s, keys[..n], entries[..n]);
      assert entries == entries[..n] + [entries[n]];
    }
  }

  // ---- nonces --------------------------------------------------------------------------

  /** Index entries that pruning keeps, in order. */
  function Survivors(s: State, keys: seq<string>, n: nat, before: int, own: string): seq<string>
    requires n <= |keys|
  {
    if n == 0 then [] else
      Survivors(s, keys, n - 1, before, own) + if Prunable(s, keys[n - 1], before, own) then [] else [keys[n - 1]]
  }

  lemma {:induction false} SurvivorsMeaning(s: State, keys: seq<string>, n: nat, before: int, own: string)
    requires n <= |keys| && NoDuplicates(keys)
    ensures var kept := Survivors(s, keys, n, before, own);
      NoDuplicates(kept) && forall k :: k in kept <==> k in keys[..n] && !Prunable(s, k, before, own)
  {
    if n > 0 {
      SurvivorsMeaning(s, keys, n - 1, before, own);
      assert keys[..n] == keys[..n - 1] + [keys[n - 1]];
      assert keys[n - 1] !in keys[..n - 1];
    }
  }

  lemma {:induction false} PruneExact(s: State, keys: seq<string>, n: nat, before: int, own: string)
    requires Typed(s) && n <= |keys| && NoDuplicates(keys)
    requires forall k :: k in keys ==> k in s
    ensures var r := PruneFirst(s, keys, n, before, own);
      && r.kept == Survivors(s, keys, n, before, own)
      && r.pruned == n - |r.kept|
      && r.state == s - (set k | k in keys[..n] && Prunable(s, k, before, own))
  {
    if n > 0 {
      PruneExact(s, keys, n - 1, before, own);
      var key := keys[n - 1];
      assert keys[..n] == keys[..n - 1] + [key];
      assert key !in keys[..n - 1] && key in keys;
    } else {
      assert s - {} == s;
    }
  }

  /** Pruning removes exactly the nonce rows older than the bound other than its own, keeps the order of
      the rest, and answers with the number removed. */
  lemma PruneMeaning(s: State, env: Env, before: int, nonce: string)
    requires Typed(s) && Indexed(s, NONCE_INDEX, NonceKind) && IsAdmin(env)
    ensures var x := PlanPruneNonces(s, env, before, nonce);
      var own := NonceKey(env.caller.id, nonce);
      var keys := Index(s, NONCE_INDEX);
      && Indexed(x.state, NONCE_INDEX, NonceKind)
      && Index(x.state, NONCE_INDEX) == Survivors(s, keys, |keys|, before, own)
      && x.outcome.Ok? && x.outcome.value.Count?
      && x.outcome.value.pruned == |keys| - |Index(x.state, NONCE_INDEX)|
      && forall k :: KindOf(k) == NonceKind && k != NONCE_INDEX ==>
           ((k in x.state <==> k in s && !Prunable(s, k, before, own)) && (k in x.state ==> x.state[k] == s[k]))
  {
    var own, keys := NonceKey(env.caller.id, nonce), Index(s, NONCE_INDEX);
    PruneExact(s, keys, |keys|, before, own);
    SurvivorsMeaning(s, keys, |keys|, before, own);
    assert keys[..|keys|] == keys;
    assert KindOf(NONCE_INDEX) == NonceKind;
  }

  lemma RecordNonceIndexed(s: State, env: Env, nonce: string)
    requires Typed(s) && Indexed(s, NONCE_INDEX, NonceKind)
    requires NonceError(s, env.caller.id, nonce) == None
    ensures Indexed(RecordNonce(s, env, nonce), NONCE_INDEX, NonceKind)
  {
  }

  lemma IndexedFrame(s: State, t: State)
    requires Indexed(s, NONCE_INDEX, NonceKind) && Same(s, t, NonceKind)
    ensures Indexed(t, NONCE_INDEX, NonceKind)
  {
  }

  /** The nonce index stays exact through every transaction, however it ends. */
  lemma ExecNonceIndexed(s: State, env: Env, req: Request)
    requires Typed(s) && Indexed(s, NONCE_INDEX, NonceKind)
    ensures Indexed(Exec(s, env, req).0, NONCE_INDEX, NonceKind)
  {
    var s1 := if NonceOf(req).Some? then RecordNonce(s, env, NonceOf(req).value) else s;
    if NonceOf(req).Some? && NonceError(s, env.caller.id, NonceOf(req).value).Some? {
      return;
    }
    if NonceOf(req).Some? {
      RecordNonceIndexed(s, env, NonceOf(req).value);
    }
    var x := Plan(s1, env, req);
    if req.PruneNonces? && IsAdmin(env) {
      PruneMeaning(s1, env, req.before, req.nonce);
    } else if req.PruneNonces? {
      assert x.state == s1;
    } else {
      PlanFrame(s1, env, req, NonceKind);
      IndexedFrame(s1, x.state);
    }
    SettleFrame(x, NonceKind);
    IndexedFrame(x.state, Settle(x));
  }
}
