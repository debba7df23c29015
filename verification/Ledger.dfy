/** The ledger the contract works on: the string-keyed store, the values under each key prefix, and
    the two record-keeping primitives every transaction uses (nonces.go and audit.go). */
module Ledger {
  import opened Wrappers
  import opened Text
  import opened Roles

  // ---- values --------------------------------------------------------------------------

  datatype RoleAssignment = RoleAssignment(
    subjectId: string, role: Role, zones: set<string>, issuedBy: string, issuedAt: int, expiresAt: int)

  datatype CrossZoneToken = CrossZoneToken(
    tokenId: string, subjectId: string, targetZones: set<string>, issuedBy: string,
    issuedAt: int, expiresAt: int, nonce: string)

  datatype Nonce = Nonce(subjectId: string, value: string, txId: string, timestamp: int)

  datatype Action =
    | AssignRoleAction | RevokeRoleAction | RenewRoleAction | CheckAccessAction
    | IssueTokenAction | RevokeTokenAction | PruneNoncesAction

  datatype Verdict = GRANT | DENY

  datatype Reason =
    | Assigned(role: Role) | RoleRevoked | RoleRenewed | TokenIssued(id: string) | TokenRevoked | Pruned(count: nat)
    | Permitted(permission: Permission)
    | CertificateRevoked | SubjectMissing | RoleNotFound(subject: string) | RoleExpired
    | PermissionDenied(permission: Permission) | ZoneMissing | ZoneDenied(zone: string)
    | TokenNotFound | TokenSubjectMismatch | TokenExpired | TokenZoneMismatch

  datatype AuditEntry = AuditEntry(
    txId: string, actorId: string, action: Action, resource: string, decision: Verdict, reason: Reason, timestamp: int)

  datatype Value =
    | RoleVal(assignment: RoleAssignment)
    | TokenVal(token: CrossZoneToken)
    | NonceVal(nonce: Nonce)
    | AuditVal(entry: AuditEntry)
    | IndexVal(keys: seq<string>)
    | BytesVal(bytes: string)

  type State = map<string, Value>

  /** The authenticated caller: a non-empty id, a valid role or none, a certificate serial or "". */
  datatype Caller = Caller(id: string, role: Option<Role>, serialHex: string)

  /** What the stub tells a transaction about itself. */
  datatype Env = Env(caller: Caller, txId: string, seconds: int, nanos: int)

  // ---- keys ----------------------------------------------------------------------------

  datatype Kind = RoleKind | TokenKind | NonceKind | AuditKind | SensorKind | CrlKind | NoKind

  /** The row family a key belongs to; the prefixes in use are told apart by their first two letters. */
  function KindOf(key: string): Kind
  {
    if |key| < 2 then NoKind
    else if key[0] == 'r' then RoleKind
    else if key[0] == 'n' then NonceKind
    else if key[0] == 'a' then AuditKind
    else if key[0] == 's' then SensorKind
    else if key[0] == 'c' && key[1] == 'z' then TokenKind
    else if key[0] == 'c' && key[1] == 'r' then CrlKind
    else NoKind
  }

  const AUDIT_INDEX := "audit:index"
  const NONCE_INDEX := "nonce:index"

  function RoleKey(subject: string): (k: string)
    ensures KindOf(k) == RoleKind && |k| >= 5 && k[5..] == subject
  {
    "role:" + subject
  }

  function TokenKey(id: string): (k: string)
    ensures KindOf(k) == TokenKind && |k| >= 4 && k[4..] == id
  {
    "czt:" + id
  }

  function CrlKey(serial: string): (k: string)
    ensures KindOf(k) == CrlKind && |k| >= 4 && k[4..] == serial
  {
    "crl:" + serial
  }

  function SensorKey(device: string, unixNano: int): (k: string)
    ensures KindOf(k) == SensorKind
  {
    "sensor:" + device + ":" + SignedDecimal(unixNano)
  }

  /** A sensor row belongs to one device and one time: the time holds no colon, so the last colon of the key
      stands before it. */
  lemma SensorKeyInjective(d1: string, t1: int, d2: string, t2: int)
    ensures SensorKey(d1, t1) == SensorKey(d2, t2) <==> d1 == d2 && t1 == t2
  {
    SignedDecimalInjective(t1, t2);
    SignedDecimalInjective(t2, t1);
    if SensorKey(d1, t1) == SensorKey(d2, t2) {
      var n1, n2 := SignedDecimal(t1), SignedDecimal(t2);
      var a, b := d1 + ":" + n1, d2 + ":" + n2;
      assert "sensor:" + a == SensorKey(d1, t1) && "sensor:" + b == SensorKey(d2, t2);
      assert a == ("sensor:" + a)[7..] && b == ("sensor:" + b)[7..];
      LastColon(d1, n1, d2, n2);
    }
  }

  lemma LastColon(d1: string, n1: string, d2: string, n2: string)
    requires ':' !in n1 && ':' !in n2 && d1 + ":" + n1 == d2 + ":" + n2
    ensures d1 == d2 && n1 == n2
  {
    var a := d1 + ":" + n1;
    assert a[|d1|] == ':' && a[|d2|] == ':';
    assert forall i :: |d1| < i < |a| ==> a[i] in n1;
    assert forall i :: |d2| < i < |a| ==> a[i] in n2;
    assert |d1| == |d2| && d1 == a[..|d1|] && n1 == a[|d1| + 1..];
  }

  /** A nonce row never lands on the nonce index: its key has a second colon. */
  function NonceKey(subject: string, nonce: string): (k: string)
    ensures KindOf(k) == NonceKind && k != NONCE_INDEX && |k| >= 6 && k[6..] == subject + ":" + nonce
  {
    var k := "nonce:" + subject + ":" + nonce;
    assert k[6..] == subject + ":" + nonce;
    assert k[6 + |subject|] == ':';
    assert forall i :: 6 <= i < |NONCE_INDEX| ==> NONCE_INDEX[i] != ':';
    k
  }

  /** An audit slot lands on the audit index only as the first slot of a transaction called "index". */
  function AuditKey(txId: string, sequence: nat): (k: string)
    ensures KindOf(k) == AuditKind
    ensures |k| >= 6 && k[6..] == if sequence == 0 then txId else txId + ":" + Decimal(sequence)
    ensures k == AUDIT_INDEX <==> txId == "index" && sequence == 0
  {
    var tail := if sequence == 0 then txId else txId + ":" + Decimal(sequence);
    var k := "audit:" + tail;
    assert k[6..] == tail;
    assert AUDIT_INDEX[6..] == "index";
    assert "audit:" + "index" == AUDIT_INDEX;
    assert sequence > 0 ==> tail[|txId|] == ':';
    assert sequence > 0 ==> tail != "index";
    k
  }

  lemma AuditKeyInjective(txId: string, a: nat, b: nat)
    requires AuditKey(txId, a) == AuditKey(txId, b)
    ensures a == b
  {
    if a > 0 && b > 0 {
      assert (txId + ":" + Decimal(a))[|txId| + 1..] == Decimal(a);
      assert (txId + ":" + Decimal(b))[|txId| + 1..] == Decimal(b);
      DecimalInjective(a, b);
    }
  }

  /** One caller id, with the colon that follows it in a key, starts another. */
  predicate Overlap(s1: string, s2: string)
  {
    s1 + ":" <= s2 || s2 + ":" <= s1
  }

  /** A longer id takes part in the same key only if it starts with the shorter one and a colon. */
  lemma SharedPrefix(s1: string, n1: string, s2: string, n2: string)
    requires NonceKey(s1, n1) == NonceKey(s2, n2) && |s1| <= |s2| && s1 != s2
    ensures s1 + ":" <= s2
  {
    var a, b := s1 + ":" + n1, s2 + ":" + n2;
    assert a == b;
    assert s1 == a[..|s1|] && s2 == b[..|s2|];
    assert |s1| < |s2| && a[|s1|] == ':';
    assert s2[..|s1| + 1] == a[..|s1| + 1] == s1 + ":";
  }

  /** Two callers can share a nonce row exactly when one id, followed by a colon, starts the other: the
      condition on the ids alone under which a nonce row does not belong to one caller. */
  lemma NonceRowShared(s1: string, s2: string)
    requires s1 != s2
    ensures (exists n1, n2 :: n1 != "" && n2 != "" && NonceKey(s1, n1) == NonceKey(s2, n2)) <==> Overlap(s1, s2)
  {
    if n1, n2 :| n1 != "" && n2 != "" && NonceKey(s1, n1) == NonceKey(s2, n2) {
      if |s1| <= |s2| {
        SharedPrefix(s1, n1, s2, n2);
      } else {
        SharedPrefix(s2, n2, s1, n1);
      }
    }
    if s1 + ":" <= s2 {
      SharingNonces(s1, s2);
    } else if s2 + ":" <= s1 {
      SharingNonces(s2, s1);
    }
  }

  lemma SharingNonces(s1: string, s2: string)
    requires s1 + ":" <= s2
    ensures exists n1, n2 :: n1 != "" && n2 != "" && NonceKey(s1, n1) == NonceKey(s2, n2)
  {
    var rest := s2[|s1| + 1..];
    assert s2 == s1 + ":" + rest;
    var n1 := rest + ":x";
    assert "nonce:" + s1 + ":" + n1 == "nonce:" + s2 + ":" + "x";
    assert NonceKey(s1, n1) == NonceKey(s2, "x");
  }

  /** Otherwise keys are injective: a row belongs to one caller and one nonce. */
  lemma NonceKeyInjective(s1: string, n1: string, s2: string, n2: string)
    requires !Overlap(s1, s2)
    ensures NonceKey(s1, n1) == NonceKey(s2, n2) <==> s1 == s2 && n1 == n2
  {
    if NonceKey(s1, n1) == NonceKey(s2, n2) {
      if s1 != s2 && |s1| <= |s2| {
        SharedPrefix(s1, n1, s2, n2);
      } else if s1 != s2 {
        SharedPrefix(s2, n2, s1, n1);
      }
      var a, b := s1 + ":" + n1, s2 + ":" + n2;
      assert a == b && n1 == a[|s1| + 1..] && n2 == b[|s2| + 1..];
    }
  }

  // ---- typing --------------------------------------------------------------------------

  /** Every row decodes as what its key says, and stored zone lists hold storable zones. */
  predicate TypedRow(key: string, v: Value)
  {
    match KindOf(key)
    case RoleKind => v.RoleVal? && forall z :: z in v.assignment.zones ==> StorableZone(z)
    case TokenKind => v.TokenVal? && forall z :: z in v.token.targetZones ==> StorableZone(z)
    case NonceKind => if key == NONCE_INDEX then v.IndexVal? else v.NonceVal?
    case AuditKind => if key == AUDIT_INDEX then v.IndexVal? else v.AuditVal?
    case _ => v.BytesVal?
  }

  predicate Typed(s: State)
  {
    forall k {:trigger TypedRow(k, s[k])} :: k in s ==> TypedRow(k, s[k])
  }

  /** The rows, as the readers see them. */
  function Index(s: State, key: string): seq<string>
  {
    if key in s && s[key].IndexVal? then s[key].keys else []
  }

  function RoleRow(s: State, subject: string): Option<RoleAssignment>
  {
    if RoleKey(subject) in s && s[RoleKey(subject)].RoleVal? then Some(s[RoleKey(subject)].assignment) else None
  }

  function TokenRow(s: State, id: string): Option<CrossZoneToken>
  {
    if TokenKey(id) in s && s[TokenKey(id)].TokenVal? then Some(s[TokenKey(id)].token) else None
  }

  lemma RowsTyped(s: State, subject: string, id: string)
    requires Typed(s)
    ensures RoleKey(subject) in s <==> RoleRow(s, subject).Some?
    ensures RoleRow(s, subject).Some? ==> forall z :: z in RoleRow(s, subject).value.zones ==> StorableZone(z)
    ensures TokenKey(id) in s <==> TokenRow(s, id).Some?
    ensures TokenRow(s, id).Some? ==> forall z :: z in TokenRow(s, id).value.targetZones ==> StorableZone(z)
  {
    assert RoleKey(subject) in s ==> TypedRow(RoleKey(subject), s[RoleKey(subject)]);
    assert TokenKey(id) in s ==> TypedRow(TokenKey(id), s[TokenKey(id)]);
  }

  /** Rows of this kind are the same in both states. */
  ghost predicate Same(s: State, t: State, kind: Kind)
  {
    forall k :: KindOf(k) == kind ==> (k in s <==> k in t) && (k in s ==> t[k] == s[k])
  }

  // ---- nonces --------------------------------------------------------------------------

  datatype ErrorKind =
    | SubjectRequired | NonceRequired | ReplayDetected | Unauthorized | InvalidRole | BadZone(zone: ZoneError)
    | ExpiryRequired | ExpiryMalformed | ExpiryPast | AssignmentNotFound | TokenIdRequired
    | AccessDenied | DeviceRequired | InvalidJson | MalformedEntry

  function NonceError(s: State, subject: string, nonce: string): Option<ErrorKind>
  {
    if subject == "" then Some(SubjectRequired)
    else if nonce == "" then Some(NonceRequired)
    else if NonceKey(subject, nonce) in s then Some(ReplayDetected)
    else None
  }

  /** The nonce row and its entry in the index. */
  function RecordNonce(s: State, env: Env, nonce: string): (t: State)
    requires Typed(s)
    ensures Typed(t)
  {
    var key := NonceKey(env.caller.id, nonce);
    s[key := NonceVal(Nonce(env.caller.id, nonce, env.txId, env.seconds))]
     [NONCE_INDEX := IndexVal(Index(s, NONCE_INDEX) + [key])]
  }

  lemma RecordNonceFrame(s: State, env: Env, nonce: string)
    requires Typed(s)
    ensures var t := RecordNonce(s, env, nonce);
      forall kind :: kind != NonceKind ==> Same(s, t, kind)
  {
  }

  // ---- audit ---------------------------------------------------------------------------

  ghost predicate Injective(slot: nat -> string)
  {
    forall i: nat, j: nat :: slot(i) == slot(j) ==> i == j
  }

  /** An injective function takes `n` values on the first `n` numbers. */
  lemma {:induction false} ImageCount(f: nat -> string, n: nat)
    requires Injective(f)
    ensures |set i | 0 <= i < n :: f(i)| == n
  {
    if n > 0 {
      ImageCount(f, n - 1);
      assert (set i | 0 <= i < n :: f(i)) == (set i | 0 <= i < n - 1 :: f(i)) + {f(n - 1)};
    }
  }

  lemma SubsetCount(a: set<string>, b: set<string>)
    requires a <= b
    ensures |a| <= |b|
  {
    assert a + (b - a) == b;
  }

  /** Fewer slots are taken than the store has rows, so a search that has passed `n` slots is near its end. */
  lemma SlotsTaken(s: State, slot: nat -> string, n: nat)
    requires Injective(slot) && forall i :: 0 <= i < n ==> slot(i) in s
    ensures n <= |s|
  {
    ImageCount(slot, n);
    SubsetCount(set i | 0 <= i < n :: slot(i), s.Keys);
  }

  /** The first free slot at or after position `n`. */
  function FirstFree(s: State, slot: nat -> string, n: nat): (k: nat)
    requires Injective(slot) && forall i :: 0 <= i < n ==> slot(i) in s
    ensures slot(k) !in s
    ensures forall i :: 0 <= i < k ==> slot(i) in s
    decreases |s| - n
  {
    SlotsTaken(s, slot, n);
    if slot(n) !in s then n else
      SlotsTaken(s, slot, n + 1);
      FirstFree(s, slot, n + 1)
  }

  function SlotsOf(txId: string): (slot: nat -> string)
    ensures Injective(slot)
    ensures forall i: nat :: slot(i) == AuditKey(txId, i)
  {
    var slot := (i: nat) => AuditKey(txId, i);
    assert Injective(slot) by {
      forall i: nat, j: nat | slot(i) == slot(j) ensures i == j {
        AuditKeyInjective(txId, i, j);
      }
    }
    slot
  }

  function AuditSlot(s: State, txId: string): (k: string)
    ensures k !in s && KindOf(k) == AuditKind
    ensures k == AUDIT_INDEX <==> txId == "index" && AUDIT_INDEX !in s
  {
    var slot := SlotsOf(txId);
    var k := FirstFree(s, slot, 0);
    assert txId == "index" ==> slot(0) == AUDIT_INDEX;
    slot(k)
  }

  /** The slot is the first one of the transaction that the store does not hold. */
  lemma SlotFirst(s: State, txId: string, n: nat)
    requires AuditKey(txId, n) !in s && forall i :: 0 <= i < n ==> AuditKey(txId, i) in s
    ensures AuditSlot(s, txId) == AuditKey(txId, n)
  {
  }

  function Entry(env: Env, action: Action, resource: string, decision: Verdict, reason: Reason): AuditEntry
  {
    AuditEntry(env.txId, env.caller.id, action, resource, decision, reason, env.seconds)
  }

  /** The entry in its slot, then the index extended by the slot's key. */
  function RecordAudit(s: State, e: AuditEntry): (t: State)
    requires Typed(s)
    ensures Typed(t)
  {
    var key := AuditSlot(s, e.txId);
    s[key := AuditVal(e)][AUDIT_INDEX := IndexVal(Index(s, AUDIT_INDEX) + [key])]
  }

  /** No row but the index is ever overwritten by an audit write. The new entry itself survives except in
      one case: the transaction is called "index" and nothing has been audited yet. */
  lemma AuditWrite(s: State, e: AuditEntry)
    requires Typed(s)
    ensures var t := RecordAudit(s, e);
      && (forall k :: k in s && k != AUDIT_INDEX ==> k in t && t[k] == s[k])
      && Index(t, AUDIT_INDEX) == Index(s, AUDIT_INDEX) + [AuditSlot(s, e.txId)]
      && (t[AuditSlot(s, e.txId)] == AuditVal(e) <==> !(e.txId == "index" && AUDIT_INDEX !in s))
  {
  }
}
