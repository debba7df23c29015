/** The contract object: chaincode/hrbac/contract.go, nonces.go and audit.go as methods that write
    the store step by step, each proved against the transaction it is meant to be. */
module Contract {
  import opened Wrappers
  import opened Text
  import opened Roles
  import opened Ledger
  import opened Transactions
  import opened LedgerFacts

  class SmartContract {
    var state: State

    /** Every row decodes as what its key says, and the nonce index lists exactly the nonce rows, each once. */
    ghost predicate Valid()
      reads this
    {
      Typed(state) && Indexed(state, NONCE_INDEX, NonceKind)
    }

    constructor ()
      ensures Valid() && state == map[]
    {
      state := map[];
    }

    method ValidateNonce(env: Env, nonce: string) returns (err: Option<ErrorKind>)
      requires Valid()
      modifies this
      ensures Valid()
      ensures err == NonceError(old(state), env.caller.id, nonce)
      ensures state == if err == None then RecordNonce(old(state), env, nonce) else old(state)
    {
      if env.caller.id == "" {
        return Some(SubjectRequired);
      }
      if nonce == "" {
        return Some(NonceRequired);
      }
      var key := NonceKey(env.caller.id, nonce);
      if key in state {
        return Some(ReplayDetected);
      }
      RecordNonceIndexed(state, env, nonce);
      state := state[key := NonceVal(Nonce(env.caller.id, nonce, env.txId, env.seconds))];
      var keys := Index(state, NONCE_INDEX);
      state := state[NONCE_INDEX := IndexVal(keys + [key])];
      return None;
    }

    /** The slot search: it ends because every slot passed is a row of the finite store. */
    method FindSlot(txId: string) returns (key: string)
      ensures key == AuditSlot(state, txId)
    {
      ghost var slot := SlotsOf(txId);
      var sequence := 0;
      key := AuditKey(txId, sequence);
      while key in state
        invariant key == slot(sequence)
        invariant forall i :: 0 <= i < sequence ==> slot(i) in state
        decreases |state| - sequence
      {
        SlotsTaken(state, slot, sequence + 1);
        sequence := sequence + 1;
        key := AuditKey(txId, sequence);
      }
      SlotFirst(state, txId, sequence);
    }

    method WriteAuditEntry(e: AuditEntry) returns (key: string)
      requires Typed(state)
      modifies this
      ensures Typed(state)
      ensures key == AuditSlot(old(state), e.txId)
      ensures state == RecordAudit(old(state), e)
    {
      var keys := Index(state, AUDIT_INDEX);
      key := FindSlot(e.txId);
      state := state[key := AuditVal(e)];
      state := state[AUDIT_INDEX := IndexVal(keys + [key])];
    }

    method AssignRole(env: Env, subject: string, roleName: string, zonesCSV: string, expiry: Expiry, nonce: string)
      returns (r: Outcome)
      requires Valid()
      modifies this
      ensures Valid()
      ensures (state, r) == Exec(old(state), env, Request.AssignRole(subject, roleName, zonesCSV, expiry, nonce))
    {
      AssignExec(state, env, subject, roleName, zonesCSV, expiry, nonce);
      var bad := ValidateNonce(env, nonce);
      if bad.Some? { return Err(bad.value); }
      if env.caller.role != Some(Admin) { return Err(Unauthorized); }
      var id := Trim(subject);
      if id == "" { return Err(SubjectRequired); }
      var role := ParseRole(Trim(roleName));
      if role == None { return Err(InvalidRole); }
      var zones := NormalizeZones(zonesCSV, role.value == Gateway || role.value == Sensor);
      if zones.Err? { return Err(BadZone(zones.error)); }
      var expiresAt := FutureExpiry(env, expiry, false);
      if expiresAt.Err? { return Err(expiresAt.error); }
      var a := RoleAssignment(id, role.value, zones.value, env.caller.id, env.seconds, expiresAt.value);
      state := PutRole(state, id, a);
      var _ := WriteAuditEntry(Entry(env, AssignRoleAction, id, GRANT, Assigned(role.value)));
      return Ok(Done);
    }

    method RevokeRole(env: Env, subject: string, nonce: string) returns (r: Outcome)
      requires Valid()
      modifies this
      ensures Valid()
      ensures (state, r) == Exec(old(state), env, Request.RevokeRole(subject, nonce))
    {
      RevokeExec(state, env, subject, nonce);
      var bad := ValidateNonce(env, nonce);
      if bad.Some? { return Err(bad.value); }
      if env.caller.role != Some(Admin) { return Err(Unauthorized); }
      var id := Trim(subject);
      if id == "" { return Err(SubjectRequired); }
      state := state - {RoleKey(id)};
      var _ := WriteAuditEntry(Entry(env, RevokeRoleAction, id, GRANT, RoleRevoked));
      return Ok(Done);
    }

    method RenewRole(env: Env, subject: string, expiry: Expiry, nonce: string) returns (r: Outcome)
      requires Valid()
      modifies this
      ensures Valid()
      ensures (state, r) == Exec(old(state), env, Request.RenewRole(subject, expiry, nonce))
    {
      RenewExec(state, env, subject, expiry, nonce);
      var bad := ValidateNonce(env, nonce);
      if bad.Some? { return Err(bad.value); }
      if env.caller.role != Some(Admin) { return Err(Unauthorized); }
      var a := Lookup(state, subject);
      if a.Err? { return Err(a.error); }
      var expiresAt := FutureExpiry(env, expiry, true);
      if expiresAt.Err? { return Err(expiresAt.error); }
      LookupStorable(state, subject);
      state := PutRole(state, subject, a.value.(expiresAt := expiresAt.value));
      var _ := WriteAuditEntry(Entry(env, RenewRoleAction, subject, GRANT, RoleRenewed));
      return Ok(Done);
    }

    /** The `deny` closure of CheckAccess. */
    method Deny(env: Env, resource: string, reason: Reason) returns (r: Outcome)
      requires Typed(state)
      modifies this
      ensures Typed(state) && r == Ok(Decision(false))
      ensures state == RecordAudit(old(state), Entry(env, CheckAccessAction, resource, DENY, reason))
    {
      var _ := WriteAuditEntry(Entry(env, CheckAccessAction, resource, DENY, reason));
      return Ok(Decision(false));
    }

    /** The token clause, reading only: the refusal, or None when the token covers the zone. */
    method ValidCrossZoneToken(env: Env, token: string, user: string, zone: string) returns (refusal: Option<Reason>)
      requires Typed(state) && token != ""
      ensures refusal == None <==> TokenReached(state, env, user, zone, token)
      ensures refusal.Some? ==> refusal.value == TokenRefusal(state, env, user, token)
    {
      var row := TokenRow(state, Trim(token));
      if row == None { return Some(TokenNotFound); }
      RowsTyped(state, "", Trim(token));
      var t := row.value;
      if t.subjectId != user { return Some(TokenSubjectMismatch); }
      if t.expiresAt <= env.seconds { return Some(TokenExpired); }
      StoredZonesParse(t.targetZones);
      var zones := ParseZones(t.targetZones);
      if zone !in zones { return Some(TokenZoneMismatch); }
      return None;
    }

    /** `validateZoneAccess`: None, or the refusal. */
    method ValidateZoneAccess(a: RoleAssignment, requestedZone: string) returns (refusal: Option<Reason>)
      requires forall z :: z in a.zones ==> StorableZone(z)
      ensures refusal == None <==> ZoneReached(a, requestedZone)
      ensures refusal.Some? ==> refusal.value == ZoneReason(requestedZone)
    {
      var zone := Trim(requestedZone);
      if zone == "" { return Some(ZoneMissing); }
      StoredZonesParse(a.zones);
      var zones := ParseZones(a.zones);
      if "*" in zones || zone in zones { return None; }
      return Some(ZoneDenied(zone));
    }

    /** The zone clause: None when the permission needs no zone, a zone reaches or a token covers. */
    method ZoneRefusal(env: Env, user: string, a: RoleAssignment, p: Permission, zone: string, token: string)
      returns (refusal: Option<Reason>)
      requires Typed(state) && forall z :: z in a.zones ==> StorableZone(z)
      ensures refusal == None <==>
              (NeedsZoneCheck(p) ==> ZoneReached(a, zone) || TokenReached(state, env, user, zone, token))
      ensures refusal.Some? && token != "" ==> refusal.value == TokenRefusal(state, env, user, token)
      ensures refusal.Some? && token == "" ==> refusal.value == ZoneReason(zone)
      ensures refusal.Some? ==> !refusal.value.Permitted?
    {
      if !NeedsZoneCheck(p) { return None; }
      refusal := ValidateZoneAccess(a, zone);
      if refusal == None || token == "" { return; }
      refusal := ValidCrossZoneToken(env, token, user, zone);
    }

    /** The checks in the source's order: None, or the first refusal. An expired role is deleted. */
    method AccessRefusal(env: Env, user: string, p: Permission, zone: string, token: string)
      returns (refusal: Option<Reason>)
      requires Typed(state)
      modifies this
      ensures Typed(state)
      ensures var reason := AccessReason(old(state), env, user, p, zone, token);
        && (refusal == if reason.Permitted? then None else Some(reason))
        && state == SweepRole(old(state), user, reason)
    {
      if env.caller.serialHex != "" && CrlKey(env.caller.serialHex) in state {
        return Some(CertificateRevoked);
      }
      if user == "" {
        return Some(SubjectMissing);
      }
      var row := RoleRow(state, user);
      if row == None {
        return Some(RoleNotFound(user));
      }
      RowsTyped(state, user, "");
      var a := row.value;
      if Expired(env, a) {
        state := state - {RoleKey(user)};
        return Some(RoleExpired);
      }
      var held := CheckPermission(Some(a.role), p);
      if !held {
        return Some(PermissionDenied(p));
      }
      refusal := ZoneRefusal(env, user, a, p, zone, token);
    }

    /** CheckAccess on trimmed and parsed arguments. */
    method CheckParsed(env: Env, user: string, p: Permission, zone: string, token: string) returns (r: Outcome)
      requires Typed(state)
      modifies this
      ensures Typed(state)
      ensures (state, r) == Carry(PlanCheckAccess(old(state), env, user, p, zone, token))
    {
      var refusal := AccessRefusal(env, user, p, zone, token);
      if refusal.Some? {
        r := Deny(env, Trim(zone), refusal.value);
        return;
      }
      PermittedReason(old(state), env, user, p, zone, token);
      var _ := WriteAuditEntry(Entry(env, CheckAccessAction, Trim(zone), GRANT, Permitted(p)));
      return Ok(Decision(true));
    }

    method CheckAccess(env: Env, user: string, permission: string, zone: string, token: string) returns (r: Outcome)
      requires Valid()
      modifies this
      ensures Valid()
      ensures (state, r) == Exec(old(state), env, Request.CheckAccess(user, permission, zone, token))
    {
      CheckExec(state, env, user, permission, zone, token);
      r := CheckParsed(env, Trim(user), ParsePermission(Trim(permission)), zone, token);
    }

    method IssueCrossZoneToken(env: Env, user: string, targetsCSV: string, expiry: Expiry, nonce: string, hash: string)
      returns (r: Outcome)
      requires Valid()
      modifies this
      ensures Valid()
      ensures (state, r) == Exec(old(state), env, Request.IssueCrossZoneToken(user, targetsCSV, expiry, nonce, hash))
    {
      IssueExec(state, env, user, targetsCSV, expiry, nonce, hash);
      var bad := ValidateNonce(env, nonce);
      if bad.Some? { return Err(bad.value); }
      var held := CheckPermission(env.caller.role, IssueCrossZone);
      if env.caller.role != Some(Admin) && !held { return Err(Unauthorized); }
      var a := Lookup(state, user);
      if a.Err? { return Err(a.error); }
      var targets := NormalizeZones(targetsCSV, true);
      if targets.Err? { return Err(BadZone(targets.error)); }
      var expiresAt := FutureExpiry(env, expiry, true);
      if expiresAt.Err? { return Err(expiresAt.error); }
      var t := CrossZoneToken(hash, user, targets.value, env.caller.id, env.seconds, expiresAt.value, nonce);
      state := PutToken(state, t);
      var _ := WriteAuditEntry(Entry(env, IssueTokenAction, user, GRANT, TokenIssued(hash)));
      return Ok(TokenId(hash));
    }

    method RevokeCrossZoneToken(env: Env, token: string, nonce: string) returns (r: Outcome)
      requires Valid()
      modifies this
      ensures Valid()
      ensures (state, r) == Exec(old(state), env, Request.RevokeCrossZoneToken(token, nonce))
    {
      RevokeTokenExec(state, env, token, nonce);
      var bad := ValidateNonce(env, nonce);
      if bad.Some? { return Err(bad.value); }
      var held := CheckPermission(env.caller.role, IssueCrossZone);
      if env.caller.role != Some(Admin) && !held { return Err(Unauthorized); }
      var id := Trim(token);
      if id == "" { return Err(TokenIdRequired); }
      state := state - {TokenKey(id)};
      var _ := WriteAuditEntry(Entry(env, RevokeTokenAction, id, GRANT, TokenRevoked));
      return Ok(Done);
    }

    /** Reads the rows the index names, skipping missing ones; None when a row is no audit entry. */
    method ReadEntries(keys: seq<string>) returns (r: Option<seq<AuditEntry>>)
      ensures r == if AllReadable(state, keys) then Some(Entries(state, keys)) else None
    {
      var entries: seq<AuditEntry> := [];
      for i := 0 to |keys|
        invariant AllReadable(state, keys[..i]) && entries == Entries(state, keys[..i])
      {
        assert keys[..i + 1][..i] == keys[..i];
        assert keys[i] in keys;
        if keys[i] in state {
          if !state[keys[i]].AuditVal? { return None; }
          entries := entries + [state[keys[i]].entry];
        }
      }
      assert keys[..|keys|] == keys;
      return Some(entries);
    }

    method GetAuditLog(env: Env) returns (r: Outcome)
      requires Valid()
      ensures (state, r) == Exec(state, env, Request.GetAuditLog)
    {
      var held := CheckPermission(env.caller.role, ReadAudit);
      if env.caller.role != Some(Admin) && !held { return Err(Unauthorized); }
      var keys := Index(state, AUDIT_INDEX);
      if |keys| > 1000 {
        keys := keys[|keys| - 1000..];
      }
      var entries := ReadEntries(keys);
      if entries == None { return Err(MalformedEntry); }
      return Ok(Log(entries.value));
    }

    /** The deletion loop: keeps what is younger than the bound or the caller's own, drops the rest. */
    method PruneKeys(keys: seq<string>, before: int, own: string) returns (kept: seq<string>, pruned: nat)
      requires Typed(state)
      modifies this
      ensures Typed(state)
      ensures Pruning(state, kept, pruned) == PruneFirst(old(state), keys, |keys|, before, own)
    {
      kept, pruned := [], 0;
      for i := 0 to |keys|
        invariant Typed(state)
        invariant Pruning(state, kept, pruned) == PruneFirst(old(state), keys, i, before, own)
      {
        var key := keys[i];
        if key in state {
          if Prunable(state, key, before, own) {
            state := state - {key};
            pruned := pruned + 1;
          } else {
            kept := kept + [key];
          }
        }
      }
    }

    method PruneNonces(env: Env, before: int, nonce: string) returns (r: Outcome)
      requires Valid()
      modifies this
      ensures Valid()
      ensures (state, r) == Exec(old(state), env, Request.PruneNonces(before, nonce))
    {
      PruneExec(state, env, before, nonce);
      var bad := ValidateNonce(env, nonce);
      if bad.Some? { return Err(bad.value); }
      if env.caller.role != Some(Admin) { return Err(Unauthorized); }
      var kept, pruned := PruneKeys(Index(state, NONCE_INDEX), before, NonceKey(env.caller.id, nonce));
      state := state[NONCE_INDEX := IndexVal(kept)];
      var _ := WriteAuditEntry(Entry(env, PruneNoncesAction, NONCE_INDEX, GRANT, Pruned(pruned)));
      return Ok(Count(pruned));
    }

    /** The nested access check of WriteSensorData: the caller itself, without a token. */
    method CheckWriteAccess(env: Env, zone: string) returns (ok: bool)
      requires Valid()
      modifies this
      ensures Valid()
      ensures var x := PlanCheckAccess(old(state), env, Trim(env.caller.id), WriteSensor, zone, "");
        state == Settle(x) && (ok <==> x.outcome == Ok(Decision(true)))
    {
      SensorPermission();
      var r := CheckAccess(env, env.caller.id, "WriteSensor", zone, "");
      return r == Ok(Decision(true));
    }

    /** The rest of WriteSensorData, `check` being the nested access check just carried out. */
    method StoreReading(ghost check: Effect, ok: bool, env: Env, device: string, reading: string, validJson: bool)
      returns (r: Outcome)
      requires Typed(state) && Sound(check) && check.row == None
      requires state == Settle(check) && (ok <==> check.outcome == Ok(Decision(true)))
      modifies this
      ensures Typed(state)
      ensures (state, r) == Carry(AddReading(check, env, device, reading, validJson))
    {
      AddedReading(check, env, device, reading, validJson);
      if !ok { return Err(AccessDenied); }
      var id := Trim(device);
      if id == "" { return Err(DeviceRequired); }
      if !validJson { return Err(InvalidJson); }
      state := state[ReadingKey(env, device) := BytesVal(reading)];
      return Ok(Done);
    }

    method WriteSensorData(env: Env, device: string, reading: string, validJson: bool, zone: string, nonce: string)
      returns (r: Outcome)
      requires Valid()
      modifies this
      ensures Valid()
      ensures (state, r) == Exec(old(state), env, Request.WriteSensorData(device, reading, validJson, zone, nonce))
    {
      WriteExec(state, env, device, reading, validJson, zone, nonce);
      var bad := ValidateNonce(env, nonce);
      if bad.Some? { return Err(bad.value); }
      ghost var check := PlanCheckAccess(state, env, Trim(env.caller.id), WriteSensor, zone, "");
      var ok := CheckWriteAccess(env, zone);
      r := StoreReading(check, ok, env, device, reading, validJson);
    }
  }

  // ---- the nonce index stays exact -----------------------------------------------------

  lemma WithNonceIndexed(s: State, env: Env, nonce: string, x: Effect)
    requires Typed(s) && Indexed(s, NONCE_INDEX, NonceKind)
    requires Sound(x) && Same(RecordNonce(s, env, nonce), x.state, NonceKind)
    ensures Indexed(WithNonce(s, env, nonce, x).0, NONCE_INDEX, NonceKind)
  {
    if NonceError(s, env.caller.id, nonce) == None {
      RecordNonceIndexed(s, env, nonce);
      IndexedFrame(RecordNonce(s, env, nonce), x.state);
      SettleFrame(x, NonceKind);
      IndexedFrame(x.state, Settle(x));
    }
  }

  lemma AssignExec(
    s: State, env: Env, subject: string, roleName: string, zonesCSV: string, expiry: Expiry, nonce: string)
    requires Typed(s) && Indexed(s, NONCE_INDEX, NonceKind)
    ensures var x := PlanAssignRole(RecordNonce(s, env, nonce), env, subject, roleName, zonesCSV, expiry);
      && Exec(s, env, Request.AssignRole(subject, roleName, zonesCSV, expiry, nonce)) == WithNonce(s, env, nonce, x)
      && Indexed(WithNonce(s, env, nonce, x).0, NONCE_INDEX, NonceKind)
  {
    var s1 := RecordNonce(s, env, nonce);
    AssignFrame(s1, env, subject, roleName, zonesCSV, expiry, NonceKind);
    WithNonceIndexed(s, env, nonce, PlanAssignRole(s1, env, subject, roleName, zonesCSV, expiry));
  }

  lemma RevokeExec(s: State, env: Env, subject: string, nonce: string)
    requires Typed(s) && Indexed(s, NONCE_INDEX, NonceKind)
    ensures var x := PlanRevokeRole(RecordNonce(s, env, nonce), env, subject);
      && Exec(s, env, Request.RevokeRole(subject, nonce)) == WithNonce(s, env, nonce, x)
      && Indexed(WithNonce(s, env, nonce, x).0, NONCE_INDEX, NonceKind)
  {
    var s1 := RecordNonce(s, env, nonce);
    RevokeFrame(s1, env, subject, NonceKind);
    WithNonceIndexed(s, env, nonce, PlanRevokeRole(s1, env, subject));
  }

  lemma RenewExec(s: State, env: Env, subject: string, expiry: Expiry, nonce: string)
    requires Typed(s) && Indexed(s, NONCE_INDEX, NonceKind)
    ensures var x := PlanRenewRole(RecordNonce(s, env, nonce), env, subject, expiry);
      && Exec(s, env, Request.RenewRole(subject, expiry, nonce)) == WithNonce(s, env, nonce, x)
      && Indexed(WithNonce(s, env, nonce, x).0, NONCE_INDEX, NonceKind)
  {
    var s1 := RecordNonce(s, env, nonce);
    RenewFrame(s1, env, subject, expiry, NonceKind);
    WithNonceIndexed(s, env, nonce, PlanRenewRole(s1, env, subject, expiry));
  }

  lemma IssueIndexed(s: State, env: Env, user: string, targetsCSV: string, expiry: Expiry, nonce: string, hash: string)
    requires Typed(s) && Indexed(s, NONCE_INDEX, NonceKind)
    ensures var x := PlanIssueToken(RecordNonce(s, env, nonce), env, user, targetsCSV, expiry, nonce, hash);
      Indexed(WithNonce(s, env, nonce, x).0, NONCE_INDEX, NonceKind)
  {
    var s1 := RecordNonce(s, env, nonce);
    IssueFrame(s1, env, user, targetsCSV, expiry, nonce, hash, NonceKind);
    WithNonceIndexed(s, env, nonce, PlanIssueToken(s1, env, user, targetsCSV, expiry, nonce, hash));
  }

  lemma IssueArm(s: State, env: Env, user: string, targetsCSV: string, expiry: Expiry, nonce: string, hash: string)
    requires Typed(s)
    ensures var x := PlanIssueToken(RecordNonce(s, env, nonce), env, user, targetsCSV, expiry, nonce, hash);
      Exec(s, env, Request.IssueCrossZoneToken(user, targetsCSV, expiry, nonce, hash)) == WithNonce(s, env, nonce, x)
  {
    var req := Request.IssueCrossZoneToken(user, targetsCSV, expiry, nonce, hash);
    var s1 := RecordNonce(s, env, nonce);
    assert Plan(s1, env, req) == PlanIssueToken(s1, env, user, targetsCSV, expiry, nonce, hash);
  }

  lemma IssueExec(s: State, env: Env, user: string, targetsCSV: string, expiry: Expiry, nonce: string, hash: string)
    requires Typed(s) && Indexed(s, NONCE_INDEX, NonceKind)
    ensures var x := PlanIssueToken(RecordNonce(s, env, nonce), env, user, targetsCSV, expiry, nonce, hash);
      && Exec(s, env, Request.IssueCrossZoneToken(user, targetsCSV, expiry, nonce, hash)) == WithNonce(s, env, nonce, x)
      && Indexed(WithNonce(s, env, nonce, x).0, NONCE_INDEX, NonceKind)
  {
    IssueIndexed(s, env, user, targetsCSV, expiry, nonce, hash);
    IssueArm(s, env, user, targetsCSV, expiry, nonce, hash);
  }

  lemma RevokeTokenExec(s: State, env: Env, token: string, nonce: string)
    requires Typed(s) && Indexed(s, NONCE_INDEX, NonceKind)
    ensures var x := PlanRevokeToken(RecordNonce(s, env, nonce), env, token);
      && Exec(s, env, Request.RevokeCrossZoneToken(token, nonce)) == WithNonce(s, env, nonce, x)
      && Indexed(WithNonce(s, env, nonce, x).0, NONCE_INDEX, NonceKind)
  {
    var s1 := RecordNonce(s, env, nonce);
    RevokeTokenFrame(s1, env, token, NonceKind);
    WithNonceIndexed(s, env, nonce, PlanRevokeToken(s1, env, token));
  }

  lemma WriteIndexed(s: State, env: Env, device: string, reading: string, validJson: bool, zone: string, nonce: string)
    requires Typed(s) && Indexed(s, NONCE_INDEX, NonceKind)
    ensures var x := PlanWriteSensor(RecordNonce(s, env, nonce), env, device, reading, validJson, zone);
      Indexed(WithNonce(s, env, nonce, x).0, NONCE_INDEX, NonceKind)
  {
    var s1 := RecordNonce(s, env, nonce);
    WriteFrame(s1, env, device, reading, validJson, zone, NonceKind);
    WithNonceIndexed(s, env, nonce, PlanWriteSensor(s1, env, device, reading, validJson, zone));
  }

  lemma WriteArm(s: State, env: Env, device: string, reading: string, validJson: bool, zone: string, nonce: string)
    requires Typed(s)
    ensures var x := PlanWriteSensor(RecordNonce(s, env, nonce), env, device, reading, validJson, zone);
      Exec(s, env, Request.WriteSensorData(device, reading, validJson, zone, nonce)) == WithNonce(s, env, nonce, x)
  {
    var req := Request.WriteSensorData(device, reading, validJson, zone, nonce);
    var s1 := RecordNonce(s, env, nonce);
    assert Plan(s1, env, req) == PlanWriteSensor(s1, env, device, reading, validJson, zone);
  }

  lemma WriteExec(s: State, env: Env, device: string, reading: string, validJson: bool, zone: string, nonce: string)
    requires Typed(s) && Indexed(s, NONCE_INDEX, NonceKind)
    ensures var x := PlanWriteSensor(RecordNonce(s, env, nonce), env, device, reading, validJson, zone);
      && Exec(s, env, Request.WriteSensorData(device, reading, validJson, zone, nonce)) == WithNonce(s, env, nonce, x)
      && Indexed(WithNonce(s, env, nonce, x).0, NONCE_INDEX, NonceKind)
  {
    WriteIndexed(s, env, device, reading, validJson, zone, nonce);
    WriteArm(s, env, device, reading, validJson, zone, nonce);
  }

  lemma PruneExec(s: State, env: Env, before: int, nonce: string)
    requires Typed(s) && Indexed(s, NONCE_INDEX, NonceKind)
    ensures var x := PlanPruneNonces(RecordNonce(s, env, nonce), env, before, nonce);
      && Exec(s, env, Request.PruneNonces(before, nonce)) == WithNonce(s, env, nonce, x)
      && Indexed(WithNonce(s, env, nonce, x).0, NONCE_INDEX, NonceKind)
  {
    if NonceError(s, env.caller.id, nonce) == None {
      var s1 := RecordNonce(s, env, nonce);
      RecordNonceIndexed(s, env, nonce);
      var x := PlanPruneNonces(s1, env, before, nonce);
      if IsAdmin(env) {
        PruneMeaning(s1, env, before, nonce);
      }
      SettleFrame(x, NonceKind);
      IndexedFrame(x.state, Settle(x));
    }
  }

  lemma CheckExec(s: State, env: Env, user: string, permission: string, zone: string, token: string)
    requires Typed(s) && Indexed(s, NONCE_INDEX, NonceKind)
    ensures var x := PlanCheckAccess(s, env, Trim(user), ParsePermission(Trim(permission)), zone, token);
      && Exec(s, env, Request.CheckAccess(user, permission, zone, token)) == Carry(x)
      && Indexed(Carry(x).0, NONCE_INDEX, NonceKind)
  {
    var p := ParsePermission(Trim(permission));
    var x := PlanCheckAccess(s, env, Trim(user), p, zone, token);
    CheckFrame(s, env, Trim(user), p, zone, token, NonceKind);
    SettleFrame(x, NonceKind);
    IndexedFrame(s, x.state);
    IndexedFrame(x.state, Settle(x));
  }

  lemma PermittedReason(s: State, env: Env, user: string, p: Permission, zone: string, token: string)
    ensures var reason := AccessReason(s, env, user, p, zone, token); reason.Permitted? ==> reason == Permitted(p)
  {
  }

  lemma SensorPermission()
    ensures ParsePermission(Trim("WriteSensor")) == WriteSensor
  {
  }
}
