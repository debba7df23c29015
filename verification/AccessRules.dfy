/** The rules of the contract in plain words: for every transaction who may send it, when it succeeds, what
    it leaves and what it writes to the trail, with names, roles, keys and zones spelled out. */
module AccessRules {
  import opened Wrappers
  import opened Text
  import opened Roles
  import opened Ledger
  import opened Transactions
  import opened LedgerFacts

  // ---- nonces --------------------------------------------------------------------------

  /** The caller has an id, and has not used this nonce, which is not empty. */
  predicate FreshNonce(s: State, env: Env, nonce: string)
  {
    env.caller.id != "" && nonce != "" && "nonce:" + env.caller.id + ":" + nonce !in s
  }

  /** Every transaction but the access check and the log takes a nonce. Without a fresh one it fails and
      changes nothing; with one it goes as its plan does. */
  lemma NonceGate(s: State, env: Env, req: Request)
    requires Typed(s)
    ensures req.CheckAccess? || req.GetAuditLog? <==> NonceOf(req) == None
    ensures NonceOf(req).Some? ==>
              && NonceOf(req).value == req.nonce
              && (FreshNonce(s, env, req.nonce) ==>
                    Exec(s, env, req) == Carry(Plan(RecordNonce(s, env, req.nonce), env, req)))
              && (!FreshNonce(s, env, req.nonce) ==>
                    Exec(s, env, req) == (s, Err(if env.caller.id == "" then SubjectRequired
                                                 else if req.nonce == "" then NonceRequired
                                                 else ReplayDetected)))
  {
  }

  // ---- conditions ----------------------------------------------------------------------

  /** An instant strictly after the transaction's, to the nanosecond. */
  predicate Later(env: Env, e: Expiry)
  {
    e.At? && (e.seconds > env.seconds || (e.seconds == env.seconds && e.nanos > env.nanos))
  }

  lemma LaterExpiry(env: Env, e: Expiry)
    ensures FutureExpiry(env, e, true).Ok? <==> Later(env, e)
    ensures FutureExpiry(env, e, true).Ok? ==> FutureExpiry(env, e, true).value == e.seconds
    ensures FutureExpiry(env, e, false).Ok? <==> e.Absent? || Later(env, e)
    ensures FutureExpiry(env, e, false).Ok? ==> FutureExpiry(env, e, false).value == if e.Absent? then 0 else e.seconds
  {
  }

  predicate CommaFree(parts: seq<string>)
  {
    parts != [] && forall i :: 0 <= i < |parts| ==> ',' !in parts[i]
  }

  ghost predicate ZonesFit(parts: seq<string>, required: bool)
  {
    (forall z :: Part(parts, z) ==> StorableZone(z)) && (required ==> exists z :: Part(parts, z))
  }

  /** The roles that may issue and revoke cross-zone tokens, and those that may read the audit log. */
  lemma Privileges(env: Env)
    ensures MayIssueTokens(env.caller) <==> env.caller.role in {Some(Admin), Some(Farmer), Some(Agronomist)}
    ensures IsAdmin(env) || HasPermission(env.caller.role, ReadAudit) <==>
            env.caller.role in {Some(Admin), Some(Farmer), Some(Agronomist), Some(Certifier)}
  {
    if env.caller.role.Some? {
      PermissionTable(env.caller.role.value, IssueCrossZone);
      PermissionTable(env.caller.role.value, ReadAudit);
    }
  }

  // ---- when a transaction succeeds -----------------------------------------------------

  ghost predicate MayAssign(env: Env, subject: string, roleName: string, parts: seq<string>, expiry: Expiry)
  {
    && env.caller.role == Some(Admin)
    && Trim(subject) != ""
    && (exists r :: RoleName(r) == Trim(roleName) && ZonesFit(parts, r == Gateway || r == Sensor))
    && (expiry.Absent? || Later(env, expiry))
  }

  lemma AssignPlan(s: State, env: Env, subject: string, roleName: string, parts: seq<string>, expiry: Expiry)
    requires Typed(s) && CommaFree(parts)
    ensures PlanAssignRole(s, env, subject, roleName, Join(parts, ','), expiry).outcome.Ok? <==>
            MayAssign(env, subject, roleName, parts, expiry)
  {
    LaterExpiry(env, expiry);
    var role := ParseRole(Trim(roleName));
    if role.Some? {
      RoleNames(Trim(roleName), role.value);
      ZoneList(parts, role.value == Gateway || role.value == Sensor);
    }
    forall r ensures RoleName(r) == Trim(roleName) <==> role == Some(r) {
      RoleNames(Trim(roleName), r);
    }
  }

  lemma AssignSucceeds(
    s: State, env: Env, subject: string, roleName: string, parts: seq<string>, expiry: Expiry, nonce: string)
    requires Typed(s) && CommaFree(parts)
    ensures Exec(s, env, Request.AssignRole(subject, roleName, Join(parts, ','), expiry, nonce)).1.Ok? <==>
            FreshNonce(s, env, nonce) && MayAssign(env, subject, roleName, parts, expiry)
  {
    var req := Request.AssignRole(subject, roleName, Join(parts, ','), expiry, nonce);
    NonceGate(s, env, req);
    AssignPlan(RecordNonce(s, env, nonce), env, subject, roleName, parts, expiry);
  }

  lemma RevokeSucceeds(s: State, env: Env, subject: string, nonce: string)
    requires Typed(s)
    ensures Exec(s, env, Request.RevokeRole(subject, nonce)).1.Ok? <==>
            FreshNonce(s, env, nonce) && env.caller.role == Some(Admin) && Trim(subject) != ""
  {
    NonceGate(s, env, Request.RevokeRole(subject, nonce));
  }

  lemma RenewSucceeds(s: State, env: Env, subject: string, expiry: Expiry, nonce: string)
    requires Typed(s)
    ensures Exec(s, env, Request.RenewRole(subject, expiry, nonce)).1.Ok? <==>
            (&& FreshNonce(s, env, nonce) && env.caller.role == Some(Admin)
             && Trim(subject) != "" && "role:" + Trim(subject) in s && Later(env, expiry))
  {
    NonceGate(s, env, Request.RenewRole(subject, expiry, nonce));
    LaterExpiry(env, expiry);
    RenewPlan(s, env, subject, expiry, nonce);
  }

  lemma RenewPlan(s: State, env: Env, subject: string, expiry: Expiry, nonce: string)
    requires Typed(s)
    ensures PlanRenewRole(RecordNonce(s, env, nonce), env, subject, expiry).outcome.Ok? <==>
            (&& env.caller.role == Some(Admin)
             && Trim(subject) != "" && "role:" + Trim(subject) in s && Later(env, expiry))
  {
    LaterExpiry(env, expiry);
    RecordNonceFrame(s, env, nonce);
    RowsTyped(RecordNonce(s, env, nonce), Trim(subject), "");
  }

  ghost predicate MayIssue(s: State, env: Env, user: string, parts: seq<string>, expiry: Expiry)
  {
    && env.caller.role in {Some(Admin), Some(Farmer), Some(Agronomist)}
    && Trim(user) != "" && "role:" + Trim(user) in s
    && ZonesFit(parts, true)
    && Later(env, expiry)
  }

  lemma IssuePlan(s: State, env: Env, user: string, parts: seq<string>, expiry: Expiry, nonce: string, hash: string)
    requires Typed(s) && CommaFree(parts)
    ensures PlanIssueToken(RecordNonce(s, env, nonce), env, user, Join(parts, ','), expiry, nonce, hash).outcome.Ok?
            <==> MayIssue(s, env, user, parts, expiry)
  {
    Privileges(env);
    LaterExpiry(env, expiry);
    ZoneList(parts, true);
    RecordNonceFrame(s, env, nonce);
    RowsTyped(RecordNonce(s, env, nonce), Trim(user), "");
  }

  lemma IssueSucceeds(
    s: State, env: Env, user: string, parts: seq<string>, expiry: Expiry, nonce: string, hash: string)
    requires Typed(s) && CommaFree(parts)
    ensures Exec(s, env, Request.IssueCrossZoneToken(user, Join(parts, ','), expiry, nonce, hash)).1.Ok? <==>
            FreshNonce(s, env, nonce) && MayIssue(s, env, user, parts, expiry)
  {
    NonceGate(s, env, Request.IssueCrossZoneToken(user, Join(parts, ','), expiry, nonce, hash));
    IssuePlan(s, env, user, parts, expiry, nonce, hash);
  }

  lemma RevokeTokenSucceeds(s: State, env: Env, token: string, nonce: string)
    requires Typed(s)
    ensures Exec(s, env, Request.RevokeCrossZoneToken(token, nonce)).1.Ok? <==>
            (&& FreshNonce(s, env, nonce) && env.caller.role in {Some(Admin), Some(Farmer), Some(Agronomist)}
             && Trim(token) != "")
  {
    NonceGate(s, env, Request.RevokeCrossZoneToken(token, nonce));
    Privileges(env);
  }

  lemma PruneSucceeds(s: State, env: Env, before: int, nonce: string)
    requires Typed(s)
    ensures Exec(s, env, Request.PruneNonces(before, nonce)).1.Ok? <==>
            FreshNonce(s, env, nonce) && env.caller.role == Some(Admin)
  {
    NonceGate(s, env, Request.PruneNonces(before, nonce));
  }

  lemma LogRefused(s: State, env: Env)
    requires Typed(s)
    ensures Exec(s, env, GetAuditLog).1 == Err(Unauthorized) <==>
            env.caller.role !in {Some(Admin), Some(Farmer), Some(Agronomist), Some(Certifier)}
    ensures Exec(s, env, GetAuditLog).0 == s
  {
    Privileges(env);
  }

  // ---- access checks -------------------------------------------------------------------

  /** A trimmed zone that the assignment names, or any one under the wildcard. */
  predicate ZoneOpen(a: RoleAssignment, zone: string)
  {
    Trim(zone) != "" && ("*" in a.zones || Trim(zone) in a.zones)
  }

  /** A token of this user, not yet at its expiry, for exactly this zone. */
  predicate TokenOpen(s: State, env: Env, user: string, zone: string, token: string)
  {
    && token != "" && "czt:" + Trim(token) in s && s["czt:" + Trim(token)].TokenVal?
    && var t := s["czt:" + Trim(token)].token;
      t.subjectId == user && env.seconds < t.expiresAt && zone in t.targetZones
  }

  predicate ZonePermission(name: string)
  {
    name in ["ReadZone", "WriteSensor", "ControlZone"]
  }

  /** When a user may do what a permission names: the caller's certificate is not revoked, the user has a
      role that has not run out and whose list has the permission, and for a zone permission the zone is
      open to the user. */
  predicate May(s: State, env: Env, user: string, name: string, zone: string, token: string)
  {
    && (env.caller.serialHex == "" || "crl:" + env.caller.serialHex !in s)
    && user != "" && "role:" + user in s && s["role:" + user].RoleVal?
    && var a := s["role:" + user].assignment;
      && (a.expiresAt == 0 || env.seconds <= a.expiresAt)
      && Holds(a.role, ParsePermission(name))
      && (ZonePermission(name) ==> ZoneOpen(a, zone) || TokenOpen(s, env, user, zone, token))
  }

  lemma ZonePermissions(name: string)
    ensures NeedsZoneCheck(ParsePermission(name)) <==> ZonePermission(name)
  {
    PermissionNames(name, ReadZone);
    PermissionNames(name, WriteSensor);
    PermissionNames(name, ControlZone);
  }

  lemma MayGrants(s: State, env: Env, user: string, name: string, zone: string, token: string)
    ensures Grants(s, env, user, ParsePermission(name), zone, token) <==> May(s, env, user, name, zone, token)
  {
    ZonePermissions(name);
    if RoleRow(s, user).Some? {
      PermissionTable(RoleRow(s, user).value.role, ParsePermission(name));
    }
  }

  lemma CheckAnswers(s: State, env: Env, user: string, name: string, zone: string, token: string)
    requires Typed(s)
    ensures Exec(s, env, Request.CheckAccess(user, name, zone, token)).1 ==
            Ok(Decision(May(s, env, Trim(user), Trim(name), zone, token)))
  {
    MayGrants(s, env, Trim(user), Trim(name), zone, token);
    DecisionMeaning(s, env, Trim(user), ParsePermission(Trim(name)), zone, token);
  }

  /** The three zone permissions are refused outside the user's zones unless a token is shown; for every other
      permission zones and tokens make no difference. */
  lemma ZonesMatter(s: State, env: Env, user: string, name: string, zone: string, zone': string, token': string)
    requires Typed(s)
    ensures var answer := Exec(s, env, Request.CheckAccess(user, name, zone, "")).1;
      var row := RoleRow(s, Trim(user));
      && (Trim(name) in ["ReadZone", "WriteSensor", "ControlZone"]
          && !(row.Some? && Trim(zone) != "" && ("*" in row.value.zones || Trim(zone) in row.value.zones))
          ==> answer == Ok(Decision(false)))
      && (Trim(name) !in ["ReadZone", "WriteSensor", "ControlZone"]
          ==> answer == Exec(s, env, Request.CheckAccess(user, name, zone', token')).1)
  {
    CheckAnswers(s, env, user, name, zone, "");
    CheckAnswers(s, env, user, name, zone', token');
  }

  lemma WritePlan(
    s: State, env: Env, device: string, reading: string, validJson: bool, zone: string, nonce: string)
    requires Typed(s)
    ensures PlanWriteSensor(RecordNonce(s, env, nonce), env, device, reading, validJson, zone).outcome.Ok? <==>
            Trim(device) != "" && validJson && May(s, env, Trim(env.caller.id), "WriteSensor", zone, "")
  {
    SensorWriteAuthorised(RecordNonce(s, env, nonce), env, device, reading, validJson, zone);
    WriterGrants(s, env, zone, nonce);
  }

  lemma WriterGrants(s: State, env: Env, zone: string, nonce: string)
    requires Typed(s)
    ensures Grants(RecordNonce(s, env, nonce), env, Trim(env.caller.id), WriteSensor, zone, "") <==>
            May(s, env, Trim(env.caller.id), "WriteSensor", zone, "")
  {
    RecordNonceFrame(s, env, nonce);
    GrantsFrame(s, RecordNonce(s, env, nonce), env, Trim(env.caller.id), WriteSensor, zone, "");
    MayGrants(s, env, Trim(env.caller.id), "WriteSensor", zone, "");
  }

  lemma WriteSucceeds(
    s: State, env: Env, device: string, reading: string, validJson: bool, zone: string, nonce: string)
    requires Typed(s)
    ensures Exec(s, env, Request.WriteSensorData(device, reading, validJson, zone, nonce)).1.Ok? <==>
            (&& FreshNonce(s, env, nonce) && Trim(device) != "" && validJson
             && May(s, env, Trim(env.caller.id), "WriteSensor", zone, ""))
  {
    var s1, req := RecordNonce(s, env, nonce), Request.WriteSensorData(device, reading, validJson, zone, nonce);
    NonceGate(s, env, req);
    WritePlan(s, env, device, reading, validJson, zone, nonce);
    assert Plan(s1, env, req) == PlanWriteSensor(s1, env, device, reading, validJson, zone);
  }

  // ---- what a transaction leaves -------------------------------------------------------

  /** The ledger with the caller's nonce used up, before anything else. */
  lemma NonceUsed(s: State, env: Env, nonce: string)
    requires Typed(s)
    ensures var t, key := RecordNonce(s, env, nonce), "nonce:" + env.caller.id + ":" + nonce;
      && key in t && t[key] == NonceVal(Nonce(env.caller.id, nonce, env.txId, env.seconds))
      && "nonce:index" in t && t["nonce:index"] == IndexVal(Index(s, "nonce:index") + [key])
      && forall k :: k != key && k != "nonce:index" ==> (k in t <==> k in s) && (k in s ==> t[k] == s[k])
  {
  }

  lemma ZonesTold(parts: seq<string>, required: bool, zones: set<string>)
    requires CommaFree(parts) && ZonesFit(parts, required) && forall z :: z in zones <==> Part(parts, z)
    ensures NormalZones(Join(parts, ','), required) == Ok(zones)
    ensures forall z :: z in zones ==> StorableZone(z)
  {
    ZoneList(parts, required);
    var r := NormalZones(Join(parts, ','), required);
    assert r.value == zones;
  }

  function NewAssignment(env: Env, u: string, r: Role, zones: set<string>, expiry: Expiry): RoleAssignment
  {
    RoleAssignment(u, r, zones, env.caller.id, env.seconds, if expiry.At? then expiry.seconds else 0)
  }

  lemma AssignEffect(s: State, env: Env, subject: string, roleName: string, parts: seq<string>, expiry: Expiry,
                     r: Role, zones: set<string>)
    requires Typed(s) && CommaFree(parts) && MayAssign(env, subject, roleName, parts, expiry)
    requires RoleName(r) == Trim(roleName) && forall z :: z in zones <==> Part(parts, z)
    ensures forall z :: z in zones ==> StorableZone(z)
    ensures var u := Trim(subject);
      var entry := AuditEntry(env.txId, env.caller.id, AssignRoleAction, u, GRANT, Assigned(r), env.seconds);
      PlanAssignRole(s, env, subject, roleName, Join(parts, ','), expiry) ==
      Effect(PutRole(s, u, NewAssignment(env, u, r, zones, expiry)), Some(entry), None, Ok(Done))
  {
    RoleNames(Trim(roleName), r);
    OneRole(Trim(roleName), r);
    LaterExpiry(env, expiry);
    ZonesTold(parts, r == Gateway || r == Sensor, zones);
  }

  lemma OneRole(name: string, r: Role)
    requires RoleName(r) == name
    ensures forall r' :: RoleName(r') == name ==> r' == r
  {
    RoleNames(name, r);
    forall r' | RoleName(r') == name ensures r' == r {
      RoleNames(name, r');
    }
  }

  /** A successful transaction uses up its nonce, makes the one change described here and adds one audit
      entry by the caller, stamped with the transaction's id and time. */
  lemma AssignLeaves(s: State, env: Env, subject: string, roleName: string, parts: seq<string>, expiry: Expiry,
                     nonce: string, r: Role, zones: set<string>)
    requires Typed(s) && CommaFree(parts)
    requires FreshNonce(s, env, nonce) && MayAssign(env, subject, roleName, parts, expiry)
    requires RoleName(r) == Trim(roleName) && forall z :: z in zones <==> Part(parts, z)
    ensures var (t, answer) := Exec(s, env, Request.AssignRole(subject, roleName, Join(parts, ','), expiry, nonce));
      var u, until := Trim(subject), if expiry.At? then expiry.seconds else 0;
      var row := RoleVal(RoleAssignment(u, r, zones, env.caller.id, env.seconds, until));
      var changed := RecordNonce(s, env, nonce)["role:" + u := row];
      && answer == Ok(Done) && Typed(changed)
      && t == RecordAudit(changed,
                AuditEntry(env.txId, env.caller.id, AssignRoleAction, u, GRANT, Assigned(r), env.seconds))
  {
    var req := Request.AssignRole(subject, roleName, Join(parts, ','), expiry, nonce);
    var s1, u := RecordNonce(s, env, nonce), Trim(subject);
    NonceGate(s, env, req);
    AssignEffect(s1, env, subject, roleName, parts, expiry, r, zones);
    assert PutRole(s1, u, NewAssignment(env, u, r, zones, expiry)) ==
           s1["role:" + u := RoleVal(NewAssignment(env, u, r, zones, expiry))];
    assert Plan(s1, env, req) == PlanAssignRole(s1, env, subject, roleName, Join(parts, ','), expiry);
  }

  lemma RevokeLeaves(s: State, env: Env, subject: string, nonce: string)
    requires Typed(s) && FreshNonce(s, env, nonce) && env.caller.role == Some(Admin) && Trim(subject) != ""
    ensures var (t, answer) := Exec(s, env, Request.RevokeRole(subject, nonce));
      && answer == Ok(Done)
      && t == RecordAudit(RecordNonce(s, env, nonce) - {"role:" + Trim(subject)},
                AuditEntry(env.txId, env.caller.id, RevokeRoleAction, Trim(subject), GRANT, RoleRevoked, env.seconds))
  {
    NonceGate(s, env, Request.RevokeRole(subject, nonce));
  }

  /** A renewal changes nothing but the expiry; it writes under the subject as given. */
  lemma RenewLeaves(s: State, env: Env, subject: string, expiry: Expiry, nonce: string, a: RoleAssignment)
    requires Typed(s) && FreshNonce(s, env, nonce) && env.caller.role == Some(Admin) && Later(env, expiry)
    requires Trim(subject) != "" && "role:" + Trim(subject) in s && s["role:" + Trim(subject)] == RoleVal(a)
    ensures var (t, answer) := Exec(s, env, Request.RenewRole(subject, expiry, nonce));
      var changed := RecordNonce(s, env, nonce)["role:" + subject := RoleVal(a.(expiresAt := expiry.seconds))];
      && answer == Ok(Done) && Typed(changed)
      && t == RecordAudit(changed,
                AuditEntry(env.txId, env.caller.id, RenewRoleAction, subject, GRANT, RoleRenewed, env.seconds))
  {
    var s1, req := RecordNonce(s, env, nonce), Request.RenewRole(subject, expiry, nonce);
    NonceGate(s, env, req);
    RecordNonceFrame(s, env, nonce);
    assert RoleRow(s1, Trim(subject)) == Some(a);
    RenewEffect(s1, env, subject, expiry, a);
    assert Plan(s1, env, req) == PlanRenewRole(s1, env, subject, expiry);
  }

  lemma RenewEffect(s: State, env: Env, subject: string, expiry: Expiry, a: RoleAssignment)
    requires Typed(s) && env.caller.role == Some(Admin) && Later(env, expiry)
    requires Trim(subject) != "" && RoleRow(s, Trim(subject)) == Some(a)
    ensures forall z :: z in a.zones ==> StorableZone(z)
    ensures PlanRenewRole(s, env, subject, expiry) ==
            Effect(PutRole(s, subject, a.(expiresAt := expiry.seconds)),
                   Some(AuditEntry(env.txId, env.caller.id, RenewRoleAction, subject, GRANT, RoleRenewed, env.seconds)),
                   None, Ok(Done))
  {
    LaterExpiry(env, expiry);
    LookupStorable(s, subject);
  }

  lemma IssueLeaves(s: State, env: Env, user: string, parts: seq<string>, expiry: Expiry, nonce: string, hash: string,
                    zones: set<string>)
    requires Typed(s) && CommaFree(parts) && FreshNonce(s, env, nonce) && MayIssue(s, env, user, parts, expiry)
    requires forall z :: z in zones <==> Part(parts, z)
    ensures var (t, answer) := Exec(s, env, Request.IssueCrossZoneToken(user, Join(parts, ','), expiry, nonce, hash));
      var row := CrossZoneToken(hash, user, zones, env.caller.id, env.seconds, expiry.seconds, nonce);
      var changed := RecordNonce(s, env, nonce)["czt:" + hash := TokenVal(row)];
      && answer == Ok(TokenId(hash)) && Typed(changed)
      && t == RecordAudit(changed,
                AuditEntry(env.txId, env.caller.id, IssueTokenAction, user, GRANT, TokenIssued(hash), env.seconds))
  {
    NonceGate(s, env, Request.IssueCrossZoneToken(user, Join(parts, ','), expiry, nonce, hash));
    var s1 := RecordNonce(s, env, nonce);
    IssueEffect(s, env, user, parts, expiry, nonce, hash, zones);
    ZonesTold(parts, true, zones);
    var req := Request.IssueCrossZoneToken(user, Join(parts, ','), expiry, nonce, hash);
    assert Plan(s1, env, req) == PlanIssueToken(s1, env, user, Join(parts, ','), expiry, nonce, hash);
  }

  lemma IssueEffect(s: State, env: Env, user: string, parts: seq<string>, expiry: Expiry, nonce: string, hash: string,
                    zones: set<string>)
    requires Typed(s) && CommaFree(parts) && MayIssue(s, env, user, parts, expiry)
    requires forall z :: z in zones <==> Part(parts, z)
    ensures forall z :: z in zones ==> StorableZone(z)
    ensures var s1 := RecordNonce(s, env, nonce);
      var row := CrossZoneToken(hash, user, zones, env.caller.id, env.seconds, expiry.seconds, nonce);
      var entry := AuditEntry(env.txId, env.caller.id, IssueTokenAction, user, GRANT, TokenIssued(hash), env.seconds);
      PlanIssueToken(s1, env, user, Join(parts, ','), expiry, nonce, hash) ==
      Effect(PutToken(s1, row), Some(entry), None, Ok(TokenId(hash)))
  {
    IssuePlan(s, env, user, parts, expiry, nonce, hash);
    LaterExpiry(env, expiry);
    ZonesTold(parts, true, zones);
  }

  lemma RevokeTokenLeaves(s: State, env: Env, token: string, nonce: string)
    requires Typed(s) && FreshNonce(s, env, nonce) && Trim(token) != ""
    requires env.caller.role in {Some(Admin), Some(Farmer), Some(Agronomist)}
    ensures var (t, answer) := Exec(s, env, Request.RevokeCrossZoneToken(token, nonce));
      && answer == Ok(Done)
      && t == RecordAudit(RecordNonce(s, env, nonce) - {"czt:" + Trim(token)},
                AuditEntry(env.txId, env.caller.id, RevokeTokenAction, Trim(token), GRANT, TokenRevoked, env.seconds))
  {
    var s1, req := RecordNonce(s, env, nonce), Request.RevokeCrossZoneToken(token, nonce);
    NonceGate(s, env, req);
    RevokeTokenEffect(s1, env, token);
    assert Plan(s1, env, req) == PlanRevokeToken(s1, env, token);
  }

  lemma RevokeTokenEffect(s: State, env: Env, token: string)
    requires Typed(s) && Trim(token) != "" && env.caller.role in {Some(Admin), Some(Farmer), Some(Agronomist)}
    ensures var id := Trim(token);
      var entry := AuditEntry(env.txId, env.caller.id, RevokeTokenAction, id, GRANT, TokenRevoked, env.seconds);
      PlanRevokeToken(s, env, token) == Effect(s - {"czt:" + id}, Some(entry), None, Ok(Done))
  {
    Privileges(env);
  }

  lemma NoAssignment(s: State, env: Env, subject: string, roleName: string, zonesCSV: string, expiry: Expiry)
    requires Typed(s)
    ensures var x := PlanAssignRole(s, env, subject, roleName, zonesCSV, expiry);
      && (x.outcome.Err? ==> x == Refuse(s, x.outcome.error))
      && (env.caller.role != Some(Admin) ==> x.outcome == Err(Unauthorized))
  {
  }

  lemma RefusedAssign(s: State, env: Env, req: Request)
    requires Typed(s) && req.AssignRole? && Plan(s, env, req).outcome.Err?
    ensures Carry(Plan(s, env, req)).0 == s
    ensures env.caller.role != Some(Admin) ==> Plan(s, env, req).outcome == Err(Unauthorized)
  {
    NoAssignment(s, env, req.subject, req.roleName, req.zonesCSV, req.expiry);
    assert Plan(s, env, req) == PlanAssignRole(s, env, req.subject, req.roleName, req.zonesCSV, req.expiry);
  }

  lemma RefusedRole(s: State, env: Env, req: Request)
    requires Typed(s) && (req.RevokeRole? || req.RenewRole?) && Plan(s, env, req).outcome.Err?
    ensures Carry(Plan(s, env, req)).0 == s
    ensures env.caller.role != Some(Admin) ==> Plan(s, env, req).outcome == Err(Unauthorized)
  {
  }

  lemma RefusedIssue(s: State, env: Env, req: Request)
    requires Typed(s) && req.IssueCrossZoneToken? && Plan(s, env, req).outcome.Err?
    ensures Carry(Plan(s, env, req)).0 == s
  {
  }

  lemma RefusedOther(s: State, env: Env, req: Request)
    requires Typed(s) && (req.RevokeCrossZoneToken? || req.PruneNonces?) && Plan(s, env, req).outcome.Err?
    ensures Carry(Plan(s, env, req)).0 == s
    ensures env.caller.role != Some(Admin) && req.PruneNonces? ==> Plan(s, env, req).outcome == Err(Unauthorized)
  {
  }

  /** A sensor write with a fresh nonce is the caller's own access check, and then, if everything else is in
      order, the row. */
  lemma WriteLeaves(
    s: State, env: Env, device: string, reading: string, validJson: bool, zone: string, nonce: string)
    requires Typed(s) && FreshNonce(s, env, nonce)
    ensures var (t, answer) := Exec(s, env, Request.WriteSensorData(device, reading, validJson, zone, nonce));
      var s1 := RecordNonce(s, env, nonce);
      var checked := Exec(s1, env, Request.CheckAccess(env.caller.id, "WriteSensor", zone, "")).0;
      var key := "sensor:" + Trim(device) + ":" + SignedDecimal(env.seconds * 1_000_000_000 + env.nanos);
      t == if answer.Ok? then checked[key := BytesVal(reading)] else checked
  {
    var s1, req := RecordNonce(s, env, nonce), Request.WriteSensorData(device, reading, validJson, zone, nonce);
    var check := PlanCheckAccess(s1, env, Trim(env.caller.id), WriteSensor, zone, "");
    NonceGate(s, env, req);
    WriterPlan(s1, env, device, reading, validJson, zone, nonce);
    AddedReading(check, env, device, reading, validJson);
    WriterCheck(s1, env, zone);
  }

  lemma WriterPlan(s: State, env: Env, device: string, reading: string, validJson: bool, zone: string, nonce: string)
    requires Typed(s)
    ensures Plan(s, env, Request.WriteSensorData(device, reading, validJson, zone, nonce)) ==
            AddReading(PlanCheckAccess(s, env, Trim(env.caller.id), WriteSensor, zone, ""), env, device, reading,
                       validJson)
  {
  }

  lemma WriterCheck(s: State, env: Env, zone: string)
    requires Typed(s)
    ensures Exec(s, env, Request.CheckAccess(env.caller.id, "WriteSensor", zone, "")).0 ==
            Settle(PlanCheckAccess(s, env, Trim(env.caller.id), WriteSensor, zone, ""))
  {
    WriterPermission();
    var x := PlanCheckAccess(s, env, Trim(env.caller.id), WriteSensor, zone, "");
    assert Exec(s, env, Request.CheckAccess(env.caller.id, "WriteSensor", zone, "")) == Carry(x);
  }

  lemma WriterPermission()
    ensures ParsePermission(Trim("WriteSensor")) == WriteSensor
  {
  }

  /** A pruning removes the nonce rows stamped before the bound, all but its own, and says how many. */
  lemma PruneLeaves(s: State, env: Env, before: int, nonce: string)
    requires Typed(s) && Indexed(s, NONCE_INDEX, NonceKind)
    requires FreshNonce(s, env, nonce) && env.caller.role == Some(Admin)
    ensures var (t, answer) := Exec(s, env, Request.PruneNonces(before, nonce));
      var own, s1 := "nonce:" + env.caller.id + ":" + nonce, RecordNonce(s, env, nonce);
      var x := PlanPruneNonces(s1, env, before, nonce);
      && (forall k :: KindOf(k) == NonceKind && k != "nonce:index" ==>
            && (k in x.state <==>
                  k in s1 && !(s1[k].NonceVal? && s1[k].nonce.timestamp < before && k != own))
            && (k in x.state ==> x.state[k] == s1[k]))
      && answer.Ok? && answer.value.Count?
      && answer.value.pruned == |Index(s1, "nonce:index")| - |Index(x.state, "nonce:index")|
      && t == RecordAudit(x.state, AuditEntry(env.txId, env.caller.id, PruneNoncesAction, "nonce:index", GRANT,
                                              Pruned(answer.value.pruned), env.seconds))
  {
    var s1, req := RecordNonce(s, env, nonce), Request.PruneNonces(before, nonce);
    NonceGate(s, env, req);
    RecordNonceIndexed(s, env, nonce);
    PruneMeaning(s1, env, before, nonce);
    assert Plan(s1, env, req) == PlanPruneNonces(s1, env, before, nonce);
  }

  /** A refused administrative transaction leaves at most its nonce behind, and no entry. */
  lemma RefusalLeaves(s: State, env: Env, req: Request)
    requires Typed(s) && !req.CheckAccess? && !req.GetAuditLog? && !req.WriteSensorData?
    requires Exec(s, env, req).1.Err?
    ensures Exec(s, env, req).0 == if FreshNonce(s, env, req.nonce) then RecordNonce(s, env, req.nonce) else s
    ensures FreshNonce(s, env, req.nonce) && env.caller.role != Some(Admin)
            && (req.AssignRole? || req.RevokeRole? || req.RenewRole? || req.PruneNonces?) ==>
              Exec(s, env, req).1 == Err(Unauthorized)
  {
    NonceGate(s, env, req);
    if FreshNonce(s, env, req.nonce) {
      var s1 := RecordNonce(s, env, req.nonce);
      match req
      case AssignRole(_, _, _, _, _) => RefusedAssign(s1, env, req);
      case RevokeRole(_, _) => RefusedRole(s1, env, req);
      case RenewRole(_, _, _) => RefusedRole(s1, env, req);
      case IssueCrossZoneToken(_, _, _, _, _) => RefusedIssue(s1, env, req);
      case RevokeCrossZoneToken(_, _) => RefusedOther(s1, env, req);
      case PruneNonces(_, _) => RefusedOther(s1, env, req);
    }
  }

  // ---- why an access check refuses -----------------------------------------------------

  /** The reason recorded is the first of the source's checks that fails, or the permission granted. */
  lemma ReasonGiven(s: State, env: Env, user: string, name: string, zone: string, token: string)
    requires Typed(s)
    ensures var reason := AccessReason(s, env, user, ParsePermission(name), zone, token);
      var revoked := env.caller.serialHex != "" && "crl:" + env.caller.serialHex in s;
      var row := RoleRow(s, user);
      && (revoked ==> reason == CertificateRevoked)
      && (!revoked && user == "" ==> reason == SubjectMissing)
      && (!revoked && user != "" && row == None ==> reason == RoleNotFound(user))
      && (!revoked && user != "" && row.Some? ==>
            var expired := row.value.expiresAt != 0 && env.seconds > row.value.expiresAt;
            var held := Holds(row.value.role, ParsePermission(name));
            var shut := ZonePermission(name) && !ZoneOpen(row.value, zone);
            && (expired ==> reason == RoleExpired)
            && (!expired && !held ==> reason == PermissionDenied(ParsePermission(name)))
            && (!expired && held && !shut ==> reason == Permitted(ParsePermission(name)))
            && (!expired && held && shut && token == "" ==>
                  reason == if Trim(zone) == "" then ZoneMissing else ZoneDenied(Trim(zone)))
            && (!expired && held && shut && token != "" ==>
                  reason == TokenAnswer(s, env, user, name, zone, token)))
  {
    ZonePermissions(name);
    if RoleRow(s, user).Some? {
      PermissionTable(RoleRow(s, user).value.role, ParsePermission(name));
    }
    TokenReason(s, env, user, name, zone, token);
  }

  lemma TokenReason(s: State, env: Env, user: string, name: string, zone: string, token: string)
    ensures token != "" ==>
              TokenAnswer(s, env, user, name, zone, token) ==
              if TokenReached(s, env, user, zone, token) then Permitted(ParsePermission(name))
              else TokenRefusal(s, env, user, token)
  {
  }

  /** What is recorded when it is a token that decides. */
  function TokenAnswer(s: State, env: Env, user: string, name: string, zone: string, token: string): Reason
  {
    var row := TokenRow(s, Trim(token));
    if row == None then TokenNotFound
    else if row.value.subjectId != user then TokenSubjectMismatch
    else if env.seconds >= row.value.expiresAt then TokenExpired
    else if zone !in row.value.targetZones then TokenZoneMismatch
    else Permitted(ParsePermission(name))
  }

  /** An access check leaves the ledger as it was, less the role it finds expired, and one audit entry. */
  lemma CheckLeaves(s: State, env: Env, user: string, name: string, zone: string, token: string)
    requires Typed(s)
    ensures var u, t := Trim(user), Exec(s, env, Request.CheckAccess(user, name, zone, token)).0;
      var reason := AccessReason(s, env, u, ParsePermission(Trim(name)), zone, token);
      var changed := if reason == RoleExpired then s - {"role:" + u} else s;
      var verdict := if May(s, env, u, Trim(name), zone, token) then GRANT else DENY;
      t == RecordAudit(changed,
             AuditEntry(env.txId, env.caller.id, CheckAccessAction, Trim(zone), verdict, reason, env.seconds))
  {
    MayGrants(s, env, Trim(user), Trim(name), zone, token);
    DecisionMeaning(s, env, Trim(user), ParsePermission(Trim(name)), zone, token);
  }
}
