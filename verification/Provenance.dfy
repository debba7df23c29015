/** Where roles, tokens and grants come from: every grant of every run is traced to the administrative
    acts it rests on. */
module Provenance {
  import opened Wrappers
  import opened Text
  import opened Roles
  import opened Ledger
  import opened Transactions
  import opened LedgerFacts
  import opened LedgerRuns

  // ---- roles ---------------------------------------------------------------------------

  // What a step does to the role of `u`, a trimmed id.

  predicate Succeeds(t: Transition)
  {
    t.event.Tx? && t.outcome.Ok?
  }

  predicate Assigns(t: Transition, u: string)
  {
    Succeeds(t) && t.event.req.AssignRole? && Trim(t.event.req.subject) == u
  }

  predicate Revokes(t: Transition, u: string)
  {
    Succeeds(t) && t.event.req.RevokeRole? && Trim(t.event.req.subject) == u
  }

  predicate Renews(t: Transition, u: string)
  {
    Succeeds(t) && t.event.req.RenewRole? && t.event.req.subject == u
  }

  /** An access check, direct or nested in a sensor write, that finds `u`'s role expired and whose
      deletion of it is kept. */
  predicate Sweeps(t: Transition, u: string)
  {
    && Kept(t)
    && (t.event.req.CheckAccess? ||
        (t.event.req.WriteSensorData? && NonceError(t.before, t.event.env.caller.id, t.event.req.nonce) == None))
    && Asked(t.event.env, t.event.req) == u
    && CheckReason(t.before, t.event.env, t.event.req, u) == RoleExpired
  }

  function Asked(env: Env, req: Request): string
    requires req.CheckAccess? || req.WriteSensorData?
  {
    Trim(if req.CheckAccess? then req.user else env.caller.id)
  }

  function CheckReason(s: State, env: Env, req: Request, u: string): Reason
    requires req.CheckAccess? || req.WriteSensorData?
  {
    if req.CheckAccess? then AccessReason(s, env, u, ParsePermission(Trim(req.permission)), req.zone, req.token)
    else AccessReason(s, env, u, Permission.WriteSensor, req.zone, "")
  }

  /** The role record an assignment gives, its expiry aside. */
  predicate GivesRole(env: Env, req: Request, a: RoleAssignment)
    requires req.AssignRole?
  {
    && env.caller.role == Some(Admin)
    && a.subjectId == Trim(req.subject)
    && ParseRole(Trim(req.roleName)) == Some(a.role)
    && NormalZones(req.zonesCSV, a.role == Gateway || a.role == Sensor) == Ok(a.zones)
    && a.issuedBy == env.caller.id && a.issuedAt == env.seconds
  }

  lemma PutRoleRow(s: State, subject: string, a: RoleAssignment, u: string)
    requires Typed(s) && forall z :: z in a.zones ==> StorableZone(z)
    ensures RoleRow(PutRole(s, subject, a), u) == if subject == u then Some(a) else RoleRow(s, u)
  {
    RoleKeyInjective(subject, u);
  }

  lemma AssignRow(s: State, env: Env, req: Request, u: string)
    requires Typed(s) && req.AssignRole?
    ensures var x := PlanAssignRole(s, env, req.subject, req.roleName, req.zonesCSV, req.expiry);
      if x.outcome.Ok? && Trim(req.subject) == u
      then RoleRow(x.state, u).Some? && GivesRole(env, req, RoleRow(x.state, u).value) &&
           FutureExpiry(env, req.expiry, false) == Ok(RoleRow(x.state, u).value.expiresAt)
      else RoleRow(x.state, u) == RoleRow(s, u)
  {
    var x := PlanAssignRole(s, env, req.subject, req.roleName, req.zonesCSV, req.expiry);
    if x.outcome.Ok? {
      var id, role := Trim(req.subject), ParseRole(Trim(req.roleName)).value;
      var zones := NormalZones(req.zonesCSV, role == Gateway || role == Sensor).value;
      var expiresAt := FutureExpiry(env, req.expiry, false).value;
      var a := RoleAssignment(id, role, zones, env.caller.id, env.seconds, expiresAt);
      assert x.state == PutRole(s, id, a);
      PutRoleRow(s, id, a, u);
    }
  }

  lemma RevokeRow(s: State, env: Env, subject: string, u: string)
    requires Typed(s)
    ensures var x := PlanRevokeRole(s, env, subject);
      RoleRow(x.state, u) == if x.outcome.Ok? && Trim(subject) == u then None else RoleRow(s, u)
  {
  }

  lemma RenewRow(s: State, env: Env, subject: string, expiry: Expiry, u: string)
    requires Typed(s) && Trimmed(u)
    ensures var x := PlanRenewRole(s, env, subject, expiry);
      if x.outcome.Ok? && subject == u
      then RoleRow(s, u).Some? && FutureExpiry(env, expiry, true).Ok? &&
           RoleRow(x.state, u) == Some(RoleRow(s, u).value.(expiresAt := FutureExpiry(env, expiry, true).value))
      else RoleRow(x.state, u) == RoleRow(s, u)
  {
  }

  lemma SweepRow(s: State, asked: string, reason: Reason, u: string)
    requires Typed(s)
    ensures RoleRow(SweepRole(s, asked, reason), u) ==
            if asked == u && reason == RoleExpired then None else RoleRow(s, u)
  {
  }

  lemma RecordedReason(s: State, env: Env, req: Request, nonce: string, u: string)
    requires Typed(s) && (req.CheckAccess? || req.WriteSensorData?)
    ensures CheckReason(RecordNonce(s, env, nonce), env, req, u) == CheckReason(s, env, req, u)
  {
    var t := RecordNonce(s, env, nonce);
    RecordNonceFrame(s, env, nonce);
    if req.CheckAccess? {
      ReasonFrame(s, t, env, u, ParsePermission(Trim(req.permission)), req.zone, req.token);
    } else {
      ReasonFrame(s, t, env, u, Permission.WriteSensor, req.zone, "");
    }
  }

  lemma CheckRow(s: State, env: Env, req: Request, u: string)
    requires Typed(s) && (req.CheckAccess? || req.WriteSensorData?)
    ensures RoleRow(Plan(s, env, req).state, u) ==
            if Asked(env, req) == u && CheckReason(s, env, req, u) == RoleExpired then None else RoleRow(s, u)
  {
    SweepRow(s, Asked(env, req), CheckReason(s, env, req, Asked(env, req)), u);
  }

  /** What carrying out the plan `x` of a request does to the role row of `u`. */
  predicate PlanMoves(s: State, env: Env, req: Request, x: Effect, u: string)
    requires Sound(x)
  {
    var row := RoleRow(Settle(x), u);
    if req.AssignRole? && x.outcome.Ok? && Trim(req.subject) == u then
      row.Some? && GivesRole(env, req, row.value) && FutureExpiry(env, req.expiry, false) == Ok(row.value.expiresAt)
    else if req.RevokeRole? && x.outcome.Ok? && Trim(req.subject) == u then row == None
    else if req.RenewRole? && x.outcome.Ok? && req.subject == u then
      RoleRow(s, u).Some? && FutureExpiry(env, req.expiry, true).Ok? &&
      row == Some(RoleRow(s, u).value.(expiresAt := FutureExpiry(env, req.expiry, true).value))
    else if (req.CheckAccess? || req.WriteSensorData?) && Asked(env, req) == u
            && CheckReason(s, env, req, u) == RoleExpired
    then row == None
    else row == RoleRow(s, u)
  }

  lemma PlanRow(s: State, env: Env, req: Request, u: string)
    requires Typed(s) && Trimmed(u)
    ensures PlanMoves(s, env, req, Plan(s, env, req), u)
  {
    var x := Plan(s, env, req);
    SettleFrame(x, RoleKind);
    assert RoleRow(Settle(x), u) == RoleRow(x.state, u);
    match req
    case AssignRole(_, _, _, _, _) => AssignRow(s, env, req, u);
    case RevokeRole(subject, _) => RevokeRow(s, env, subject, u);
    case RenewRole(subject, expiry, _) => RenewRow(s, env, subject, expiry, u);
    case CheckAccess(_, _, _, _) => CheckRow(s, env, req, u);
    case WriteSensorData(_, _, _, _, _) => CheckRow(s, env, req, u);
    case _ => PlanFrame(s, env, req, RoleKind);
  }

  function Base(a: RoleAssignment): RoleAssignment
  {
    a.(expiresAt := 0)
  }

  /** The step gives `u` the role record `b`, its expiry aside. */
  predicate Gives(t: Transition, u: string, b: RoleAssignment)
  {
    Assigns(t, u) && GivesRole(t.event.env, t.event.req, b)
  }

  predicate Takes(t: Transition, u: string)
  {
    Revokes(t, u) || Sweeps(t, u)
  }

  /** The step sets the expiry of `u`'s role. */
  predicate Dates(t: Transition, u: string, expiry: int)
  {
    || (Assigns(t, u) && FutureExpiry(t.event.env, t.event.req.expiry, false) == Ok(expiry))
    || (Renews(t, u) && FutureExpiry(t.event.env, t.event.req.expiry, true) == Ok(expiry))
  }

  predicate RoleMoves(t: Transition, u: string)
  {
    var row, next := RoleRow(t.before, u), RoleRow(t.after, u);
    && (Assigns(t, u) ==> next.Some? && Gives(t, u, next.value) && Dates(t, u, next.value.expiresAt))
    && (Takes(t, u) ==> next == None)
    && (Renews(t, u) ==>
          row.Some? && next.Some? && Base(next.value) == Base(row.value) && Dates(t, u, next.value.expiresAt))
    && (!Assigns(t, u) && !Takes(t, u) && !Renews(t, u) ==> next == row)
  }

  /** The plan `x`, made on a state with the same role row, moves the role of `u` as the step does. */
  lemma CarriedMoves(t: Transition, s: State, x: Effect, u: string)
    requires t.event.Tx? && Sound(x) && PlanMoves(s, t.event.env, t.event.req, x, u)
    requires t.outcome == x.outcome
    requires t.after == if t.event.rollback && x.outcome.Err? then t.before else Settle(x)
    requires RoleRow(s, u) == RoleRow(t.before, u)
    requires NonceOf(t.event.req).Some? ==>
               NonceError(t.before, t.event.env.caller.id, NonceOf(t.event.req).value) == None
    requires t.event.req.CheckAccess? || t.event.req.WriteSensorData? ==>
               CheckReason(s, t.event.env, t.event.req, u) == CheckReason(t.before, t.event.env, t.event.req, u)
    ensures RoleMoves(t, u)
  {
  }

  /** The effect of one step on the role of one user: an assignment gives the record it describes, a
      revocation or sweep takes it away, a renewal changes its expiry alone, and nothing else touches it. */
  lemma RoleStep(t: Transition, u: string)
    requires ValidStep(t) && Trimmed(u)
    ensures RoleMoves(t, u)
  {
    match t.event
    case PublishRevocation(serial) => MarkFrame(t.before, serial, RoleKind);
    case Tx(env, req, rollback) =>
      if NonceOf(req) == None {
        PlanRow(t.before, env, req, u);
        CarriedMoves(t, t.before, Plan(t.before, env, req), u);
      } else if NonceError(t.before, env.caller.id, NonceOf(req).value) == None {
        var s1 := RecordNonce(t.before, env, NonceOf(req).value);
        RecordNonceFrame(t.before, env, NonceOf(req).value);
        PlanRow(s1, env, req, u);
        assert RoleRow(s1, u) == RoleRow(t.before, u);
        if req.WriteSensorData? {
          RecordedReason(t.before, env, req, NonceOf(req).value, u);
        }
        CarriedMoves(t, s1, Plan(s1, env, req), u);
      }
  }

  ghost function Given(tr: Trace, u: string, b: RoleAssignment): nat -> bool
  {
    (i: nat) => i < |tr| && Gives(tr[i], u, b)
  }

  ghost function Replaced(tr: Trace, u: string): nat -> bool
  {
    (i: nat) => i < |tr| && (Assigns(tr[i], u) || Takes(tr[i], u))
  }

  ghost function Dated(tr: Trace, u: string, expiry: int): nat -> bool
  {
    (i: nat) => i < |tr| && Dates(tr[i], u, expiry)
  }

  ghost function Redated(tr: Trace, u: string): nat -> bool
  {
    (i: nat) => i < |tr| && (Assigns(tr[i], u) || Renews(tr[i], u) || Takes(tr[i], u))
  }

  predicate HasRole(s: State, u: string, b: RoleAssignment)
  {
    RoleRow(s, u).Some? && Base(RoleRow(s, u).value) == Base(b)
  }

  predicate HasExpiry(s: State, u: string, expiry: int)
  {
    RoleRow(s, u).Some? && RoleRow(s, u).value.expiresAt == expiry
  }

  lemma RoleChange(t: Transition, u: string, b: RoleAssignment)
    requires ValidStep(t) && Trimmed(u)
    ensures HasRole(t.after, u, b) <==> Gives(t, u, b) || (HasRole(t.before, u, b) && !Assigns(t, u) && !Takes(t, u))
  {
    RoleStep(t, u);
  }

  lemma ExpiryChange(t: Transition, u: string, expiry: int)
    requires ValidStep(t) && Trimmed(u)
    ensures HasExpiry(t.after, u, expiry) <==>
            (Dates(t, u, expiry) || (HasExpiry(t.before, u, expiry) && !Assigns(t, u) && !Renews(t, u) && !Takes(t, u)))
  {
    RoleStep(t, u);
  }

  /** A user holds a role record exactly when an administrator assigned it and it has been neither
      replaced, revoked nor swept away since. */
  lemma {:induction false} RoleProvenance(tr: Trace, n: nat, u: string, b: RoleAssignment)
    requires n <= |tr| && ValidRun(tr) && Trimmed(u)
    ensures HasRole(StateAt(tr, n), u, b) <==> Since(Given(tr, u, b), Replaced(tr, u), n)
  {
    if n > 0 {
      RoleProvenance(tr, n - 1, u, b);
      StepAt(tr, n - 1);
      RoleChange(tr[n - 1], u, b);
    }
  }

  /** A user's role has an expiry exactly when the last assignment or renewal set it. */
  lemma {:induction false} ExpiryProvenance(tr: Trace, n: nat, u: string, expiry: int)
    requires n <= |tr| && ValidRun(tr) && Trimmed(u)
    ensures HasExpiry(StateAt(tr, n), u, expiry) <==> Since(Dated(tr, u, expiry), Redated(tr, u), n)
  {
    if n > 0 {
      ExpiryProvenance(tr, n - 1, u, expiry);
      StepAt(tr, n - 1);
      ExpiryChange(tr[n - 1], u, expiry);
    }
  }

  // ---- tokens --------------------------------------------------------------------------

  /** The step issues token `id` with the contents `k`. */
  predicate Issues(t: Transition, id: string, k: CrossZoneToken)
  {
    && Succeeds(t) && t.event.req.IssueCrossZoneToken? && t.event.req.hash == id
    && IssuedAs(t.event.env, t.event.req, k)
  }

  predicate IssuedAs(env: Env, req: Request, k: CrossZoneToken)
    requires req.IssueCrossZoneToken?
  {
    && MayIssueTokens(env.caller)
    && k.tokenId == req.hash && k.subjectId == req.user && k.nonce == req.nonce
    && NormalZones(req.targetsCSV, true) == Ok(k.targetZones)
    && FutureExpiry(env, req.expiry, true) == Ok(k.expiresAt)
    && k.issuedBy == env.caller.id && k.issuedAt == env.seconds
  }

  /** The step replaces or revokes token `id`. */
  predicate Voids(t: Transition, id: string)
  {
    && Succeeds(t)
    && ((t.event.req.IssueCrossZoneToken? && t.event.req.hash == id) ||
        (t.event.req.RevokeCrossZoneToken? && Trim(t.event.req.token) == id))
  }

  lemma IssueRow(s: State, env: Env, req: Request, id: string)
    requires Typed(s) && req.IssueCrossZoneToken?
    ensures var x := PlanIssueToken(s, env, req.user, req.targetsCSV, req.expiry, req.nonce, req.hash);
      var row := TokenRow(x.state, id);
      if x.outcome.Ok? && req.hash == id then row.Some? && IssuedAs(env, req, row.value) else row == TokenRow(s, id)
  {
  }

  lemma RevokeTokenRow(s: State, env: Env, token: string, id: string)
    requires Typed(s)
    ensures var x := PlanRevokeToken(s, env, token);
      TokenRow(x.state, id) == if x.outcome.Ok? && Trim(token) == id then None else TokenRow(s, id)
  {
  }

  lemma PlanTokenRow(s: State, env: Env, req: Request, id: string)
    requires Typed(s)
    ensures var x := Plan(s, env, req);
      var row := TokenRow(Settle(x), id);
      if req.IssueCrossZoneToken? && x.outcome.Ok? && req.hash == id then row.Some? && IssuedAs(env, req, row.value)
      else if req.RevokeCrossZoneToken? && x.outcome.Ok? && Trim(req.token) == id then row == None
      else row == TokenRow(s, id)
  {
    var x := Plan(s, env, req);
    SettleFrame(x, TokenKind);
    assert TokenRow(Settle(x), id) == TokenRow(x.state, id);
    match req
    case IssueCrossZoneToken(_, _, _, _, _) => IssueRow(s, env, req, id);
    case RevokeCrossZoneToken(token, _) => RevokeTokenRow(s, env, token, id);
    case _ => PlanFrame(s, env, req, TokenKind);
  }

  lemma TokenStep(t: Transition, id: string, k: CrossZoneToken)
    requires ValidStep(t)
    ensures TokenRow(t.after, id) == Some(k) <==>
            (Issues(t, id, k) || (TokenRow(t.before, id) == Some(k) && !Voids(t, id)))
  {
    match t.event
    case PublishRevocation(serial) => MarkFrame(t.before, serial, TokenKind);
    case Tx(env, req, rollback) =>
      if NonceOf(req) == None {
        PlanTokenRow(t.before, env, req, id);
      } else if NonceError(t.before, env.caller.id, NonceOf(req).value) == None {
        var s1 := RecordNonce(t.before, env, NonceOf(req).value);
        RecordNonceFrame(t.before, env, NonceOf(req).value);
        PlanTokenRow(s1, env, req, id);
        assert TokenRow(s1, id) == TokenRow(t.before, id);
      }
  }

  ghost function Issued(tr: Trace, id: string, k: CrossZoneToken): nat -> bool
  {
    (i: nat) => i < |tr| && Issues(tr[i], id, k)
  }

  ghost function Voided(tr: Trace, id: string): nat -> bool
  {
    (i: nat) => i < |tr| && Voids(tr[i], id)
  }

  /** A token is on the ledger exactly as the last issue under its id left it, unless revoked since. */
  lemma {:induction false} TokenProvenance(tr: Trace, n: nat, id: string, k: CrossZoneToken)
    requires n <= |tr| && ValidRun(tr)
    ensures TokenRow(StateAt(tr, n), id) == Some(k) <==> Since(Issued(tr, id, k), Voided(tr, id), n)
  {
    if n > 0 {
      TokenProvenance(tr, n - 1, id, k);
      StepAt(tr, n - 1);
      TokenStep(tr[n - 1], id, k);
    }
  }

  // ---- revoked certificates ------------------------------------------------------------

  ghost function Published(tr: Trace, serial: string): nat -> bool
  {
    (i: nat) => i < |tr| && tr[i].event == PublishRevocation(serial)
  }

  ghost function Never(): nat -> bool
  {
    (i: nat) => false
  }

  lemma CrlStep(t: Transition, serial: string)
    requires ValidStep(t)
    ensures CrlKey(serial) in t.after <==> t.event == PublishRevocation(serial) || CrlKey(serial) in t.before
  {
    match t.event
    case PublishRevocation(published) =>
      assert CrlKey(published)[4..] == published && CrlKey(serial)[4..] == serial;
    case Tx(env, req, rollback) =>
      if NonceOf(req) == None {
        PlanFrame(t.before, env, req, CrlKind);
        SettleFrame(Plan(t.before, env, req), CrlKind);
      } else if NonceError(t.before, env.caller.id, NonceOf(req).value) == None {
        var s1 := RecordNonce(t.before, env, NonceOf(req).value);
        RecordNonceFrame(t.before, env, NonceOf(req).value);
        PlanFrame(s1, env, req, CrlKind);
        SettleFrame(Plan(s1, env, req), CrlKind);
      }
  }

  /** A revocation mark is there exactly when it has been published; no transaction lifts it. */
  lemma {:induction false} RevocationProvenance(tr: Trace, n: nat, serial: string)
    requires n <= |tr| && ValidRun(tr)
    ensures CrlKey(serial) in StateAt(tr, n) <==> Since(Published(tr, serial), Never(), n)
  {
    if n > 0 {
      RevocationProvenance(tr, n - 1, serial);
      StepAt(tr, n - 1);
      CrlStep(tr[n - 1], serial);
    }
  }

  // ---- grants --------------------------------------------------------------------------

  /** After `n` steps `u` holds exactly the role `a`, as the history of acts and sweeps tells. */
  ghost predicate HeldBy(tr: Trace, n: nat, u: string, a: RoleAssignment)
  {
    && Since(Given(tr, u, a), Replaced(tr, u), n)
    && Since(Dated(tr, u, a.expiresAt), Redated(tr, u), n)
  }

  lemma HeldRow(tr: Trace, n: nat, u: string, a: RoleAssignment)
    requires n <= |tr| && ValidRun(tr) && Trimmed(u)
    ensures RoleRow(StateAt(tr, n), u) == Some(a) <==> HeldBy(tr, n, u, a)
  {
    RoleProvenance(tr, n, u, a);
    ExpiryProvenance(tr, n, u, a.expiresAt);
  }

  /** A token that history alone makes good for this user, zone and time. */
  ghost predicate TokenCovers(tr: Trace, n: nat, env: Env, u: string, zone: string, token: string)
  {
    && token != ""
    && exists k :: Since(Issued(tr, Trim(token), k), Voided(tr, Trim(token)), n)
         && k.subjectId == u && env.seconds < k.expiresAt && zone in k.targetZones
  }

  lemma TokenCoversRow(tr: Trace, n: nat, env: Env, u: string, zone: string, token: string)
    requires n <= |tr| && ValidRun(tr)
    ensures TokenReached(StateAt(tr, n), env, u, zone, token) <==> TokenCovers(tr, n, env, u, zone, token)
  {
    var s, id := StateAt(tr, n), Trim(token);
    if TokenReached(s, env, u, zone, token) {
      TokenProvenance(tr, n, id, TokenRow(s, id).value);
    }
    if TokenCovers(tr, n, env, u, zone, token) {
      var k :| Since(Issued(tr, id, k), Voided(tr, id), n)
         && k.subjectId == u && env.seconds < k.expiresAt && zone in k.targetZones;
      TokenProvenance(tr, n, id, k);
    }
  }

  /** The decision at step `n` told from the history of the run, sweeps of expired roles included: the
      certificate has not been revoked, and the role that the administrators' acts and the sweeps have left
      the user with is live, holds the permission and reaches the zone, by itself or by a token in force. */
  ghost predicate HistoryGrants(tr: Trace, n: nat, env: Env, u: string, p: Permission, zone: string, token: string)
  {
    && (env.caller.serialHex == "" || !Since(Published(tr, env.caller.serialHex), Never(), n))
    && u != ""
    && exists a :: HeldBy(tr, n, u, a) && !Expired(env, a) && HasPermission(Some(a.role), p)
         && (NeedsZoneCheck(p) ==> ZoneReached(a, zone) || TokenCovers(tr, n, env, u, zone, token))
  }

  /** In every reachable state an access check grants exactly when the history does. */
  lemma GrantHistory(tr: Trace, n: nat, env: Env, u: string, p: Permission, zone: string, token: string)
    requires n <= |tr| && ValidRun(tr) && Trimmed(u)
    ensures Grants(StateAt(tr, n), env, u, p, zone, token) <==> HistoryGrants(tr, n, env, u, p, zone, token)
  {
    var s := StateAt(tr, n);
    RevocationProvenance(tr, n, env.caller.serialHex);
    TokenCoversRow(tr, n, env, u, zone, token);
    if Grants(s, env, u, p, zone, token) {
      HeldRow(tr, n, u, RoleRow(s, u).value);
    }
    if HistoryGrants(tr, n, env, u, p, zone, token) {
      var a :| HeldBy(tr, n, u, a) && !Expired(env, a) && HasPermission(Some(a.role), p)
         && (NeedsZoneCheck(p) ==> ZoneReached(a, zone) || TokenCovers(tr, n, env, u, zone, token));
      HeldRow(tr, n, u, a);
    }
  }

  /** Step `i` is the administrator's assignment that gave `u` the role `a`, none has replaced it,
      revoked it or swept it away before step `n`, and step `r` is the last to have set its expiry. */
  ghost predicate AssignedBy(tr: Trace, n: nat, u: string, a: RoleAssignment, i: nat, r: nat)
    requires n <= |tr| && i < n && r < n
  {
    && Gives(tr[i], u, a) && tr[i].event.env.caller.role == Some(Admin)
    && (forall m :: i < m < n ==> !Assigns(tr[m], u) && !Takes(tr[m], u))
    && Dates(tr[r], u, a.expiresAt)
    && (forall m :: r < m < n ==> !Assigns(tr[m], u) && !Renews(tr[m], u))
  }

  /** Step `j` issued the token `k` under this id and nothing has replaced or revoked it before `n`. */
  ghost predicate IssuedBy(tr: Trace, n: nat, id: string, k: CrossZoneToken, j: nat)
    requires n <= |tr| && j < n
  {
    && Issues(tr[j], id, k)
    && (forall m :: j < m < n ==> !Voids(tr[m], id))
  }

  lemma HeldTraced(tr: Trace, n: nat, u: string, a: RoleAssignment) returns (i: nat, r: nat)
    requires n <= |tr| && HeldBy(tr, n, u, a)
    ensures i < n && r < n && AssignedBy(tr, n, u, a, i, r)
  {
    SinceMeaning(Given(tr, u, a), Replaced(tr, u), n);
    SinceMeaning(Dated(tr, u, a.expiresAt), Redated(tr, u), n);
    i :| i < n && Given(tr, u, a)(i) && forall m: nat :: i < m < n ==> !Replaced(tr, u)(m);
    r :| r < n && Dated(tr, u, a.expiresAt)(r) && forall m: nat :: r < m < n ==> !Redated(tr, u)(m);
    forall m | i < m < n ensures !Assigns(tr[m], u) && !Takes(tr[m], u) {
      assert !Replaced(tr, u)(m);
    }
    forall m | r < m < n ensures !Assigns(tr[m], u) && !Renews(tr[m], u) {
      assert !Redated(tr, u)(m);
    }
  }

  lemma IssueTraced(tr: Trace, n: nat, id: string, k: CrossZoneToken) returns (j: nat)
    requires n <= |tr| && Since(Issued(tr, id, k), Voided(tr, id), n)
    ensures j < n && IssuedBy(tr, n, id, k, j)
  {
    SinceMeaning(Issued(tr, id, k), Voided(tr, id), n);
    j :| j < n && Issued(tr, id, k)(j) && forall m: nat :: j < m < n ==> !Voided(tr, id)(m);
    forall m | j < m < n ensures !Voids(tr[m], id) {
      assert !Voided(tr, id)(m);
    }
  }

  /** The latest issue of the token is for this user and zone, unrevoked, and in force. */
  ghost predicate TokenRests(tr: Trace, n: nat, env: Env, u: string, zone: string, token: string)
    requires n <= |tr|
  {
    exists k, j :: 0 <= j < n && IssuedBy(tr, n, Trim(token), k, j)
      && k.subjectId == u && env.seconds < k.expiresAt && zone in k.targetZones
  }

  /** The assignment `a` made at step `i` and dated at step `r` supports the grant. */
  ghost predicate GrantRests(tr: Trace, n: nat, env: Env, u: string, p: Permission, zone: string, token: string,
                             a: RoleAssignment, i: nat, r: nat)
    requires n <= |tr|
  {
    && i < n && r < n && AssignedBy(tr, n, u, a, i, r)
    && (a.expiresAt == 0 || env.seconds <= a.expiresAt)
    && HasPermission(Some(a.role), p)
    && (NeedsZoneCheck(p) ==> ZoneReached(a, zone) || TokenRests(tr, n, env, u, zone, token))
  }

  lemma TokenTraced(tr: Trace, n: nat, env: Env, u: string, zone: string, token: string)
    requires n <= |tr| && TokenCovers(tr, n, env, u, zone, token)
    ensures TokenRests(tr, n, env, u, zone, token)
  {
    var k :| Since(Issued(tr, Trim(token), k), Voided(tr, Trim(token)), n)
         && k.subjectId == u && env.seconds < k.expiresAt && zone in k.targetZones;
    var j := IssueTraced(tr, n, Trim(token), k);
  }

  lemma HistoryTraced(tr: Trace, n: nat, env: Env, u: string, p: Permission, zone: string, token: string)
    returns (a: RoleAssignment, i: nat, r: nat)
    requires n <= |tr| && HistoryGrants(tr, n, env, u, p, zone, token)
    ensures GrantRests(tr, n, env, u, p, zone, token, a, i, r)
  {
    a :| HeldBy(tr, n, u, a) && !Expired(env, a) && HasPermission(Some(a.role), p)
         && (NeedsZoneCheck(p) ==> ZoneReached(a, zone) || TokenCovers(tr, n, env, u, zone, token));
    i, r := HeldTraced(tr, n, u, a);
    if NeedsZoneCheck(p) && !ZoneReached(a, zone) {
      TokenTraced(tr, n, env, u, zone, token);
    }
  }

  /** Every grant of every run traces back to an administrator's assignment that still stands and has
      not run out, of a role that holds the permission, and, where a zone is needed that the assignment
      does not reach, to the latest issue of a token for it that has been neither revoked nor outlived. */
  lemma GrantTraced(tr: Trace, n: nat) returns (a: RoleAssignment, i: nat, r: nat)
    requires ValidRun(tr) && n < |tr|
    requires tr[n].event.Tx? && tr[n].event.req.CheckAccess? && tr[n].outcome == Ok(Decision(true))
    ensures var req := tr[n].event.req;
      GrantRests(tr, n, tr[n].event.env, Trim(req.user), ParsePermission(Trim(req.permission)), req.zone, req.token,
                 a, i, r)
  {
    var env, req := tr[n].event.env, tr[n].event.req;
    var u, p := Trim(req.user), ParsePermission(Trim(req.permission));
    StepAt(tr, n);
    DecisionMeaning(tr[n].before, env, u, p, req.zone, req.token);
    GrantHistory(tr, n, env, u, p, req.zone, req.token);
    a, i, r := HistoryTraced(tr, n, env, u, p, req.zone, req.token);
  }

  /** So does every sensor reading of every run: whoever wrote it held, by an assignment that still
      stands, a role that may write in that zone. */
  lemma WriteTraced(tr: Trace, n: nat) returns (a: RoleAssignment, i: nat, r: nat)
    requires ValidRun(tr) && n < |tr|
    requires tr[n].event.Tx? && tr[n].event.req.WriteSensorData? && tr[n].outcome.Ok?
    ensures GrantRests(tr, n, tr[n].event.env, Trim(tr[n].event.env.caller.id), Permission.WriteSensor,
                       tr[n].event.req.zone, "", a, i, r)
  {
    var s, env, req := tr[n].before, tr[n].event.env, tr[n].event.req;
    var u, zone := Trim(env.caller.id), req.zone;
    StepAt(tr, n);
    var s1 := RecordNonce(s, env, req.nonce);
    RecordNonceFrame(s, env, req.nonce);
    SensorWriteAuthorised(s1, env, req.device, req.reading, req.validJson, zone);
    GrantsFrame(s, s1, env, u, Permission.WriteSensor, zone, "");
    GrantHistory(tr, n, env, u, Permission.WriteSensor, zone, "");
    a, i, r := HistoryTraced(tr, n, env, u, Permission.WriteSensor, zone, "");
  }

  // ---- sensor rows ---------------------------------------------------------------------

  /** The step stores a reading under this key. */
  predicate Stores(t: Transition, k: string)
  {
    Succeeds(t) && t.event.req.WriteSensorData? && ReadingKey(t.event.env, t.event.req.device) == k
  }

  function SensorRow(s: State, k: string): Option<string>
  {
    if k in s && s[k].BytesVal? then Some(s[k].bytes) else None
  }

  lemma PlanSensorRow(s: State, env: Env, req: Request, k: string)
    requires Typed(s) && KindOf(k) == SensorKind && !req.WriteSensorData?
    ensures SensorRow(Settle(Plan(s, env, req)), k) == SensorRow(s, k)
  {
    var x := Plan(s, env, req);
    PlanFrame(s, env, req, SensorKind);
    PlanAddsNoRow(s, env, req);
    if x.entry.Some? {
      RecordedSensorRow(x.state, x.entry.value, k);
    }
  }

  lemma PlanAddsNoRow(s: State, env: Env, req: Request)
    requires Typed(s) && !req.WriteSensorData?
    ensures Plan(s, env, req).row == None
  {
  }

  lemma RecordedSensorRow(s: State, e: AuditEntry, k: string)
    requires Typed(s) && KindOf(k) == SensorKind
    ensures SensorRow(RecordAudit(s, e), k) == SensorRow(s, k)
  {
  }

  lemma WriteSensorRow(s: State, env: Env, req: Request, k: string)
    requires Typed(s) && KindOf(k) == SensorKind && req.WriteSensorData?
    ensures var x := Plan(s, env, req);
      SensorRow(Settle(x), k) ==
      if x.outcome.Ok? && ReadingKey(env, req.device) == k then Some(req.reading) else SensorRow(s, k)
  {
    assert Plan(s, env, req) == PlanWriteSensor(s, env, req.device, req.reading, req.validJson, req.zone);
    SensorWriteAuthorised(s, env, req.device, req.reading, req.validJson, req.zone);
  }

  /** Only a successful WriteSensorData under this very key changes a sensor row. */
  lemma SensorStep(t: Transition, k: string)
    requires ValidStep(t) && KindOf(k) == SensorKind
    ensures SensorRow(t.after, k) == if Stores(t, k) then Some(t.event.req.reading) else SensorRow(t.before, k)
  {
    match t.event
    case PublishRevocation(serial) => MarkFrame(t.before, serial, SensorKind);
    case Tx(env, req, rollback) =>
      if NonceOf(req) == None {
        PlanSensorRow(t.before, env, req, k);
      } else if NonceError(t.before, env.caller.id, NonceOf(req).value) == None {
        var s1 := RecordNonce(t.before, env, NonceOf(req).value);
        RecordNonceFrame(t.before, env, NonceOf(req).value);
        assert SensorRow(s1, k) == SensorRow(t.before, k);
        if req.WriteSensorData? {
          WriteSensorRow(s1, env, req, k);
        } else {
          PlanSensorRow(s1, env, req, k);
        }
      }
  }

  lemma SensorChange(t: Transition, k: string, reading: string)
    requires ValidStep(t) && KindOf(k) == SensorKind
    ensures SensorRow(t.after, k) == Some(reading) <==>
            if Stores(t, k) then t.event.req.reading == reading else SensorRow(t.before, k) == Some(reading)
  {
    SensorStep(t, k);
  }

  ghost function StoredAt(tr: Trace, k: string, reading: string): nat -> bool
  {
    (i: nat) => i < |tr| && Stores(tr[i], k) && tr[i].event.req.reading == reading
  }

  ghost function OverwrittenAt(tr: Trace, k: string): nat -> bool
  {
    (i: nat) => i < |tr| && Stores(tr[i], k)
  }

  /** A sensor row is on the ledger exactly as the last successful write under its key left it. */
  lemma {:induction false} SensorProvenance(tr: Trace, n: nat, k: string, reading: string)
    requires n <= |tr| && ValidRun(tr) && KindOf(k) == SensorKind
    ensures SensorRow(StateAt(tr, n), k) == Some(reading) <==>
            Since(StoredAt(tr, k, reading), OverwrittenAt(tr, k), n)
  {
    if n > 0 {
      SensorProvenance(tr, n - 1, k, reading);
      StepAt(tr, n - 1);
      SensorChange(tr[n - 1], k, reading);
    }
  }

  /** Every sensor row of every reachable state is the reading of a named write, the last under its key,
      whose writer was entitled to it by an assignment that stood at the time. */
  lemma SensorTraced(tr: Trace, n: nat, k: string) returns (w: nat, a: RoleAssignment, i: nat, r: nat)
    requires n <= |tr| && ValidRun(tr) && KindOf(k) == SensorKind && k in StateAt(tr, n)
    ensures w < n && Stores(tr[w], k) && StateAt(tr, n)[k] == BytesVal(tr[w].event.req.reading)
    ensures forall m :: w < m < n ==> !Stores(tr[m], k)
    ensures GrantRests(tr, w, tr[w].event.env, Trim(tr[w].event.env.caller.id), Permission.WriteSensor,
                       tr[w].event.req.zone, "", a, i, r)
  {
    StepAt(tr, n - 1);
    assert TypedRow(k, StateAt(tr, n)[k]);
    var reading := StateAt(tr, n)[k].bytes;
    SensorProvenance(tr, n, k, reading);
    var h, over := StoredAt(tr, k, reading), OverwrittenAt(tr, k);
    SinceMeaning(h, over, n);
    w :| w < n && h(w) && forall m: nat :: w < m < n ==> !over(m);
    forall m | w < m < n ensures !Stores(tr[m], k) {
      assert !over(m);
    }
    a, i, r := WriteTraced(tr, w);
  }

  /** The step stores a reading of the same device at the same time. */
  predicate SameReading(t: Transition, env: Env, device: string)
  {
    && t.event.Tx? && t.event.req.WriteSensorData? && t.outcome.Ok?
    && Trim(t.event.req.device) == Trim(device)
    && t.event.env.seconds == env.seconds && t.event.env.nanos == env.nanos
  }

  predicate NanosInRange(t: Transition)
  {
    t.event.Tx? ==> 0 <= t.event.env.nanos < 1_000_000_000
  }

  lemma SameInstant(s1: int, n1: int, s2: int, n2: int)
    requires 0 <= n1 < 1_000_000_000 && 0 <= n2 < 1_000_000_000
    ensures s1 * 1_000_000_000 + n1 == s2 * 1_000_000_000 + n2 <==> s1 == s2 && n1 == n2
  {
  }

  lemma ReadingKeys(e1: Env, d1: string, e2: Env, d2: string)
    requires 0 <= e1.nanos < 1_000_000_000 && 0 <= e2.nanos < 1_000_000_000
    ensures ReadingKey(e1, d1) == ReadingKey(e2, d2) <==>
            Trim(d1) == Trim(d2) && e1.seconds == e2.seconds && e1.nanos == e2.nanos
  {
    SameInstant(e1.seconds, e1.nanos, e2.seconds, e2.nanos);
    SensorKeyInjective(Trim(d1), UnixNano(e1), Trim(d2), UnixNano(e2));
  }

  lemma OtherReading(t: Transition, env: Env, device: string)
    requires ValidStep(t) && NanosInRange(t) && 0 <= env.nanos < 1_000_000_000 && !SameReading(t, env, device)
    ensures SensorRow(t.after, ReadingKey(env, device)) == SensorRow(t.before, ReadingKey(env, device))
  {
    SensorStep(t, ReadingKey(env, device));
    if t.event.Tx? && t.event.req.WriteSensorData? {
      ReadingKeys(t.event.env, t.event.req.device, env, device);
    }
  }

  /** A stored reading stays through whatever follows, until the same device writes at the same time again. */
  lemma {:induction false} ReadingKept(tr: Trace, i: nat, n: nat)
    requires i < n <= |tr| && ValidRun(tr)
    requires Succeeds(tr[i]) && tr[i].event.req.WriteSensorData?
    requires forall m :: i <= m < n ==> NanosInRange(tr[m])
    requires forall m :: i < m < n ==> !SameReading(tr[m], tr[i].event.env, tr[i].event.req.device)
    ensures var k := ReadingKey(tr[i].event.env, tr[i].event.req.device);
      SensorRow(StateAt(tr, n), k) == Some(tr[i].event.req.reading)
    decreases n
  {
    StepAt(tr, n - 1);
    if i < n - 1 {
      ReadingKept(tr, i, n - 1);
      assert NanosInRange(tr[i]) && NanosInRange(tr[n - 1]);
      OtherReading(tr[n - 1], tr[i].event.env, tr[i].event.req.device);
    } else {
      SensorStep(tr[i], ReadingKey(tr[i].event.env, tr[i].event.req.device));
    }
  }
}
