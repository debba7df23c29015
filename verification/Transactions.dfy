/** chaincode/hrbac/contract.go: what each transaction does to the ledger and answers. */
module Transactions {
  import opened Wrappers
  import opened Text
  import opened Roles
  import opened Ledger

  /** The expiry argument after RFC 3339 parsing: left out, unreadable, or an instant. */
  datatype Expiry = Absent | Malformed | At(seconds: int, nanos: int)

  datatype Request =
    | AssignRole(subject: string, roleName: string, zonesCSV: string, expiry: Expiry, nonce: string)
    | RevokeRole(subject: string, nonce: string)
    | RenewRole(subject: string, expiry: Expiry, nonce: string)
    | CheckAccess(user: string, permission: string, zone: string, token: string)
      // the token id is the hash the source computes from the user, the time and the nonce
    | IssueCrossZoneToken(user: string, targetsCSV: string, expiry: Expiry, nonce: string, hash: string)
    | RevokeCrossZoneToken(token: string, nonce: string)
    | GetAuditLog
    | PruneNonces(before: int, nonce: string)
    | WriteSensorData(device: string, reading: string, validJson: bool, zone: string, nonce: string)

  datatype Reply =
    | Done | Decision(granted: bool) | TokenId(id: string) | Count(pruned: nat) | Log(entries: seq<AuditEntry>)

  type Outcome = Result<Reply, ErrorKind>

  // ---- shared checks -------------------------------------------------------------------

  /** Strictly in the future, to the nanosecond; stored in whole seconds, 0 meaning never. */
  function FutureExpiry(env: Env, e: Expiry, required: bool): Result<int, ErrorKind>
  {
    match e
    case Absent => if required then Err(ExpiryRequired) else Ok(0)
    case Malformed => Err(ExpiryMalformed)
    case At(s, n) => if s > env.seconds || (s == env.seconds && n > env.nanos) then Ok(s) else Err(ExpiryPast)
  }

  function Lookup(s: State, subject: string): Result<RoleAssignment, ErrorKind>
  {
    var id := Trim(subject);
    if id == "" then Err(SubjectRequired)
    else if RoleRow(s, id).Some? then Ok(RoleRow(s, id).value)
    else Err(AssignmentNotFound)
  }

  predicate Expired(env: Env, a: RoleAssignment)
  {
    a.expiresAt != 0 && env.seconds > a.expiresAt
  }

  predicate NeedsZoneCheck(p: Permission)
  {
    p == ReadZone || p == WriteSensor || p == ControlZone
  }

  predicate MayIssueTokens(c: Caller)
  {
    c.role == Some(Admin) || HasPermission(c.role, IssueCrossZone)
  }

  // ---- access decisions ----------------------------------------------------------------

  /** The assignment's zones reach the requested one. */
  predicate ZoneReached(a: RoleAssignment, zone: string)
  {
    Trim(zone) != "" && ("*" in a.zones || Trim(zone) in a.zones)
  }

  /** A live token of this user names the requested zone. */
  predicate TokenReached(s: State, env: Env, user: string, zone: string, token: string)
  {
    && token != ""
    && TokenRow(s, Trim(token)).Some?
    && var t := TokenRow(s, Trim(token)).value;
      t.subjectId == user && env.seconds < t.expiresAt && zone in t.targetZones
  }

  function TokenRefusal(s: State, env: Env, user: string, token: string): Reason
  {
    if TokenRow(s, Trim(token)) == None then TokenNotFound else
      var t := TokenRow(s, Trim(token)).value;
      if t.subjectId != user then TokenSubjectMismatch
      else if t.expiresAt <= env.seconds then TokenExpired
      else TokenZoneMismatch
  }

  function ZoneReason(zone: string): Reason
  {
    if Trim(zone) == "" then ZoneMissing else ZoneDenied(Trim(zone))
  }

  /** The reason recorded: the permission for a grant, the first failing check otherwise. */
  function AccessReason(s: State, env: Env, user: string, p: Permission, zone: string, token: string): Reason
  {
    if env.caller.serialHex != "" && CrlKey(env.caller.serialHex) in s then CertificateRevoked
    else if user == "" then SubjectMissing
    else if RoleRow(s, user) == None then RoleNotFound(user)
    else
      var a := RoleRow(s, user).value;
      if Expired(env, a) then RoleExpired
      else if !HasPermission(Some(a.role), p) then PermissionDenied(p)
      else if NeedsZoneCheck(p) && !ZoneReached(a, zone) && !TokenReached(s, env, user, zone, token) then
        if token != "" then TokenRefusal(s, env, user, token) else ZoneReason(zone)
      else Permitted(p)
  }

  /** An expired role that reaches the expiry check is deleted on the way. */
  function SweepRole(s: State, user: string, reason: Reason): (t: State)
    requires Typed(s)
    ensures Typed(t)
  {
    if reason == RoleExpired then s - {RoleKey(user)} else s
  }

  // ---- pruning -------------------------------------------------------------------------

  datatype Pruning = Pruning(state: State, kept: seq<string>, pruned: nat)

  predicate Prunable(s: State, key: string, before: int, own: string)
  {
    key in s && s[key].NonceVal? && s[key].nonce.timestamp < before && key != own
  }

  /** The pruning loop after the first `n` index entries. */
  function PruneFirst(s: State, keys: seq<string>, n: nat, before: int, own: string): (r: Pruning)
    requires Typed(s) && n <= |keys|
    ensures Typed(r.state)
  {
    if n == 0 then Pruning(s, [], 0) else
      var r := PruneFirst(s, keys, n - 1, before, own);
      var key := keys[n - 1];
      if key !in r.state then r
      else if Prunable(r.state, key, before, own) then Pruning(r.state - {key}, r.kept, r.pruned + 1)
      else Pruning(r.state, r.kept + [key], r.pruned)
  }

  // ---- the audit log -------------------------------------------------------------------

  function LastThousand(keys: seq<string>): seq<string>
  {
    if |keys| > 1000 then keys[|keys| - 1000..] else keys
  }

  predicate AllReadable(s: State, keys: seq<string>)
  {
    forall k :: k in keys && k in s ==> s[k].AuditVal?
  }

  function Entries(s: State, keys: seq<string>): (r: seq<AuditEntry>)
    requires AllReadable(s, keys)
    ensures |r| <= |keys|
  {
    if keys == [] then [] else
      var n := |keys| - 1;
      Entries(s, keys[..n]) + if keys[n] in s then [s[keys[n]].entry] else []
  }

  // ---- the transactions ----------------------------------------------------------------

  function NonceOf(req: Request): Option<string>
  {
    match req
    case CheckAccess(_, _, _, _) => None
    case GetAuditLog => None
    case _ => Some(req.nonce)
  }

  function PutRole(s: State, subject: string, a: RoleAssignment): (t: State)
    requires Typed(s) && forall z :: z in a.zones ==> StorableZone(z)
    ensures Typed(t)
  {
    s[RoleKey(subject) := RoleVal(a)]
  }

  function PutToken(s: State, t: CrossZoneToken): (s': State)
    requires Typed(s) && forall z :: z in t.targetZones ==> StorableZone(z)
    ensures Typed(s')
  {
    s[TokenKey(t.tokenId) := TokenVal(t)]
  }

  predicate IsAdmin(env: Env)
  {
    env.caller.role == Some(Admin)
  }

  /** The plan of a transaction: the rows it changes, the audit entry and the sensor row it then adds, and
      its answer. */
  datatype Effect = Effect(state: State, entry: Option<AuditEntry>, row: Option<SensorRow>, outcome: Outcome)

  datatype SensorRow = SensorRow(key: string, reading: string)

  predicate Sound(x: Effect)
  {
    Typed(x.state) && (x.row.Some? ==> KindOf(x.row.value.key) == SensorKind)
  }

  function Refuse(s: State, e: ErrorKind): Effect
  {
    Effect(s, None, None, Err(e))
  }

  function PlanAssignRole(
    s: State, env: Env, subject: string, roleName: string, zonesCSV: string, expiry: Expiry): (x: Effect)
    requires Typed(s)
    ensures Sound(x)
  {
    if !IsAdmin(env) then Refuse(s, Unauthorized) else
      var id := Trim(subject);
      if id == "" then Refuse(s, SubjectRequired) else
        var role := ParseRole(Trim(roleName));
        if role == None then Refuse(s, InvalidRole) else
          var zones := NormalZones(zonesCSV, role.value == Gateway || role.value == Sensor);
          if zones.Err? then Refuse(s, BadZone(zones.error)) else
            var expiresAt := FutureExpiry(env, expiry, false);
            if expiresAt.Err? then Refuse(s, expiresAt.error) else
              var a := RoleAssignment(id, role.value, zones.value, env.caller.id, env.seconds, expiresAt.value);
              var entry := Entry(env, AssignRoleAction, id, GRANT, Assigned(role.value));
              Effect(PutRole(s, id, a), Some(entry), None, Ok(Done))
  }

  function PlanRevokeRole(s: State, env: Env, subject: string): (x: Effect)
    requires Typed(s)
    ensures Sound(x)
  {
    if !IsAdmin(env) then Refuse(s, Unauthorized) else
      var id := Trim(subject);
      if id == "" then Refuse(s, SubjectRequired)
      else Effect(s - {RoleKey(id)}, Some(Entry(env, RevokeRoleAction, id, GRANT, RoleRevoked)), None, Ok(Done))
  }

  /** The lookup trims the subject; the write and the audit record do not. */
  function PlanRenewRole(s: State, env: Env, subject: string, expiry: Expiry): (x: Effect)
    requires Typed(s)
    ensures Sound(x)
  {
    if !IsAdmin(env) then Refuse(s, Unauthorized) else
      var a := Lookup(s, subject);
      if a.Err? then Refuse(s, a.error) else
        var expiresAt := FutureExpiry(env, expiry, true);
        if expiresAt.Err? then Refuse(s, expiresAt.error) else
          LookupStorable(s, subject);
          Effect(PutRole(s, subject, a.value.(expiresAt := expiresAt.value)),
                 Some(Entry(env, RenewRoleAction, subject, GRANT, RoleRenewed)), None, Ok(Done))
  }

  lemma LookupStorable(s: State, subject: string)
    requires Typed(s) && Lookup(s, subject).Ok?
    ensures forall z :: z in Lookup(s, subject).value.zones ==> StorableZone(z)
  {
    RowsTyped(s, Trim(subject), "");
  }

  /** The verdict, the sweep that may go with it, and exactly one audit entry saying so. */
  function PlanCheckAccess(s: State, env: Env, user: string, p: Permission, zone: string, token: string): (x: Effect)
    requires Typed(s)
    ensures Sound(x)
  {
    var reason := AccessReason(s, env, user, p, zone, token);
    var entry := Entry(env, CheckAccessAction, Trim(zone), if reason.Permitted? then GRANT else DENY, reason);
    Effect(SweepRole(s, user, reason), Some(entry), None, Ok(Decision(reason.Permitted?)))
  }

  /** The lookup trims the user; the token stores the user as given. */
  function PlanIssueToken(
    s: State, env: Env, user: string, targetsCSV: string, expiry: Expiry, nonce: string, hash: string): (x: Effect)
    requires Typed(s)
    ensures Sound(x)
  {
    if !MayIssueTokens(env.caller) then Refuse(s, Unauthorized) else
      var a := Lookup(s, user);
      if a.Err? then Refuse(s, a.error) else
        var targets := NormalZones(targetsCSV, true);
        if targets.Err? then Refuse(s, BadZone(targets.error)) else
          var expiresAt := FutureExpiry(env, expiry, true);
          if expiresAt.Err? then Refuse(s, expiresAt.error) else
            var t := CrossZoneToken(hash, user, targets.value, env.caller.id, env.seconds, expiresAt.value, nonce);
            var entry := Entry(env, IssueTokenAction, user, GRANT, TokenIssued(hash));
            Effect(PutToken(s, t), Some(entry), None, Ok(TokenId(hash)))
  }

  function PlanRevokeToken(s: State, env: Env, token: string): (x: Effect)
    requires Typed(s)
    ensures Sound(x)
  {
    if !MayIssueTokens(env.caller) then Refuse(s, Unauthorized) else
      var id := Trim(token);
      if id == "" then Refuse(s, TokenIdRequired)
      else Effect(s - {TokenKey(id)}, Some(Entry(env, RevokeTokenAction, id, GRANT, TokenRevoked)), None, Ok(Done))
  }

  function ReadLog(s: State, env: Env): Outcome
    requires Typed(s)
  {
    if !(IsAdmin(env) || HasPermission(env.caller.role, ReadAudit)) then Err(Unauthorized) else
      var keys := LastThousand(Index(s, AUDIT_INDEX));
      if AllReadable(s, keys) then Ok(Log(Entries(s, keys))) else Err(MalformedEntry)
  }

  function PlanPruneNonces(s: State, env: Env, before: int, nonce: string): (x: Effect)
    requires Typed(s)
    ensures Sound(x)
  {
    if !IsAdmin(env) then Refuse(s, Unauthorized) else
      var keys := Index(s, NONCE_INDEX);
      var r := PruneFirst(s, keys, |keys|, before, NonceKey(env.caller.id, nonce));
      Effect(r.state[NONCE_INDEX := IndexVal(r.kept)],
             Some(Entry(env, PruneNoncesAction, NONCE_INDEX, GRANT, Pruned(r.pruned))), None, Ok(Count(r.pruned)))
  }

  /** The transaction's time in nanoseconds. */
  function UnixNano(env: Env): (t: int)
    ensures t == env.seconds * 1_000_000_000 + env.nanos
  {
    env.seconds * 1_000_000_000 + env.nanos
  }

  function ReadingKey(env: Env, device: string): string
  {
    SensorKey(Trim(device), UnixNano(env))
  }

  /** What is left of WriteSensorData after the nested access check. */
  function AddReading(check: Effect, env: Env, device: string, reading: string, validJson: bool): (x: Effect)
    requires Sound(check)
    ensures Sound(x)
  {
    if check.outcome != Ok(Decision(true)) then check.(outcome := Err(AccessDenied))
    else if Trim(device) == "" then check.(outcome := Err(DeviceRequired))
    else if !validJson then check.(outcome := Err(InvalidJson))
    else check.(row := Some(SensorRow(ReadingKey(env, device), reading)), outcome := Ok(Done))
  }

  function PlanWriteSensor(
    s: State, env: Env, device: string, reading: string, validJson: bool, zone: string): (x: Effect)
    requires Typed(s)
    ensures Sound(x)
  {
    AddReading(PlanCheckAccess(s, env, Trim(env.caller.id), WriteSensor, zone, ""), env, device, reading, validJson)
  }

  /** Everything a transaction does once its nonce, if it takes one, has been recorded. */
  function Plan(s: State, env: Env, req: Request): (x: Effect)
    requires Typed(s)
    ensures Sound(x)
  {
    match req
    case AssignRole(subject, roleName, zonesCSV, expiry, _) =>
      PlanAssignRole(s, env, subject, roleName, zonesCSV, expiry)
    case RevokeRole(subject, _) => PlanRevokeRole(s, env, subject)
    case RenewRole(subject, expiry, _) => PlanRenewRole(s, env, subject, expiry)
    case CheckAccess(user, permission, zone, token) =>
      PlanCheckAccess(s, env, Trim(user), ParsePermission(Trim(permission)), zone, token)
    case IssueCrossZoneToken(user, targetsCSV, expiry, nonce, hash) =>
      PlanIssueToken(s, env, user, targetsCSV, expiry, nonce, hash)
    case RevokeCrossZoneToken(token, _) => PlanRevokeToken(s, env, token)
    case GetAuditLog => Effect(s, None, None, ReadLog(s, env))
    case PruneNonces(before, nonce) => PlanPruneNonces(s, env, before, nonce)
    case WriteSensorData(device, reading, validJson, zone, _) =>
      PlanWriteSensor(s, env, device, reading, validJson, zone)
  }

  /** Carrying a plan out: the audit entry after the changed rows, the sensor row last. */
  function Settle(x: Effect): (t: State)
    requires Sound(x)
    ensures Typed(t)
  {
    var audited := if x.entry == None then x.state else RecordAudit(x.state, x.entry.value);
    if x.row == None then audited else audited[x.row.value.key := BytesVal(x.row.value.reading)]
  }

  /** A transaction without a nonce carries its plan out. */
  function Carry(x: Effect): (r: (State, Outcome))
    requires Sound(x)
    ensures Typed(r.0)
  {
    (Settle(x), x.outcome)
  }

  /** A transaction with a nonce is refused untouched if the nonce is, and otherwise carries out a
      plan made on the ledger that already holds the nonce. */
  function WithNonce(s: State, env: Env, nonce: string, x: Effect): (r: (State, Outcome))
    requires Typed(s) && Sound(x)
    ensures Typed(r.0)
  {
    match NonceError(s, env.caller.id, nonce)
    case Some(e) => (s, Err(e))
    case None => Carry(x)
  }

  /** One transaction. The state holds every write made before the outcome, as a store that does not
      roll back keeps them. */
  function Exec(s: State, env: Env, req: Request): (r: (State, Outcome))
    requires Typed(s)
    ensures Typed(r.0)
  {
    match NonceOf(req)
    case None => Carry(Plan(s, env, req))
    case Some(nonce) => WithNonce(s, env, nonce, Plan(RecordNonce(s, env, nonce), env, req))
  }
}
