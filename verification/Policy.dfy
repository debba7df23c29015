/** tla/AccessControl.tla: the access-control policy as a step system, for arbitrary finite users,
    roles, permissions, zones, requests and tokens, and any clock horizon. */
module Policy {

  // The constants of the specification; the names stand for themselves.
  type Name = string

  datatype Request = Request(user: Name, perm: Name, resource: Name, zone: Name)
  datatype Assignment = Assignment(user: Name, role: Name, zone: Name)
  datatype Token = Token(user: Name, fromZone: Name, toZone: Name, expires: int)
  datatype Decision = PENDING | GRANT | DENY | REVOKE
  datatype LogEntry = LogEntry(req: Request, decision: Decision, at: int)

  /** The parameters: what each role permits, the initial and candidate sets, and the last clock value. */
  datatype Model = Model(
    rolePerms: map<Name, set<Name>>,
    initialRequests: set<Request>,
    initialAssignments: set<Assignment>,
    candidateAssignments: set<Assignment>,
    candidateTokens: set<Token>,
    horizon: nat)

  datatype State = State(
    granted: set<Request>,
    pending: set<Request>,
    log: set<LogEntry>,
    assignments: set<Assignment>,
    expiry: map<Assignment, int>,
    tokens: set<Token>,
    clock: int)

  predicate Permits(c: Model, role: Name, perm: Name)
  {
    role in c.rolePerms && perm in c.rolePerms[role]
  }

  /** `roleExpiry` is total in the specification, with 0 for assignments never dated. */
  function ExpiryOf(expiry: map<Assignment, int>, a: Assignment): int
  {
    if a in expiry then expiry[a] else 0
  }

  predicate ActiveRoleAt(
    c: Model, t: int, assignments: set<Assignment>, expiry: map<Assignment, int>, user: Name, perm: Name, zone: Name)
  {
    exists a :: a in assignments && a.user == user && a.zone == zone
      && Permits(c, a.role, perm) && ExpiryOf(expiry, a) >= t
  }

  predicate ActiveTokenAt(t: int, tokens: set<Token>, user: Name, fromZone: Name, toZone: Name)
  {
    exists k :: k in tokens && k.user == user && k.fromZone == fromZone && k.toZone == toZone && k.expires >= t
  }

  predicate AuthorizedAt(
    c: Model, t: int, assignments: set<Assignment>, expiry: map<Assignment, int>, tokens: set<Token>, req: Request)
  {
    || ActiveRoleAt(c, t, assignments, expiry, req.user, req.perm, req.zone)
    || (exists a :: a in assignments && a.user == req.user && a.zone != req.zone && Permits(c, a.role, req.perm)
          && ExpiryOf(expiry, a) >= t && ActiveTokenAt(t, tokens, req.user, a.zone, req.zone))
  }

  function SafeGrantsAt(
    c: Model, t: int, assignments: set<Assignment>, expiry: map<Assignment, int>, tokens: set<Token>,
    grants: set<Request>): set<Request>
  {
    set req | req in grants && AuthorizedAt(c, t, assignments, expiry, tokens, req)
  }

  // ---- the actions ---------------------------------------------------------------------

  ghost predicate Init(c: Model, s: State)
  {
    && s.clock == 0 && s.granted == {} && s.tokens == {}
    && s.pending == c.initialRequests
    && s.log == (set req | req in c.initialRequests :: LogEntry(req, PENDING, 0))
    && s.assignments == c.initialAssignments
    && s.expiry == map a | a in c.initialAssignments :: c.horizon
  }

  predicate Authorized(c: Model, s: State, req: Request)
  {
    AuthorizedAt(c, s.clock, s.assignments, s.expiry, s.tokens, req)
  }

  function Revocations(s: State, kept: set<Request>, at: int): set<LogEntry>
  {
    set req | req in s.granted && req !in kept :: LogEntry(req, REVOKE, at)
  }

  /** The state after the authorised grants have been recomputed for new assignments, tokens and clock. */
  function Resettled(c: Model, s: State, assignments: set<Assignment>, tokens: set<Token>, clock: int): State
  {
    var kept := SafeGrantsAt(c, clock, assignments, s.expiry, tokens, s.granted);
    var log := s.log + Revocations(s, kept, clock);
    s.(assignments := assignments, tokens := tokens, clock := clock, granted := kept, log := log)
  }

  ghost predicate GrantRequest(c: Model, s: State, t: State)
  {
    exists req :: req in s.pending && Authorized(c, s, req) && t == Granted(s, req)
  }

  function Granted(s: State, req: Request): State
  {
    s.(granted := s.granted + {req}, pending := s.pending - {req}, log := s.log + {LogEntry(req, GRANT, s.clock)})
  }

  ghost predicate DenyRequest(s: State, t: State)
  {
    exists req :: req in s.pending && t == Denied(s, req)
  }

  function Denied(s: State, req: Request): State
  {
    s.(pending := s.pending - {req}, log := s.log + {LogEntry(req, DENY, s.clock)})
  }

  ghost predicate AssignRole(c: Model, s: State, t: State)
  {
    exists a, e :: AssignedWith(c, s, t, a, e)
  }

  ghost predicate AssignedWith(c: Model, s: State, t: State, a: Assignment, e: int)
  {
    && a in c.candidateAssignments - s.assignments
    && s.clock + 1 <= e <= c.horizon
    && t == s.(assignments := s.assignments + {a}, expiry := s.expiry[a := e])
  }

  ghost predicate RevokeRole(c: Model, s: State, t: State)
  {
    exists a :: a in s.assignments && t == Resettled(c, s, s.assignments - {a}, s.tokens, s.clock)
  }

  ghost predicate IssueCrossZoneToken(c: Model, s: State, t: State)
  {
    exists k :: k in c.candidateTokens - s.tokens && k.fromZone != k.toZone && k.expires > s.clock
      && t == s.(tokens := s.tokens + {k})
  }

  ghost predicate RevokeCrossZoneToken(c: Model, s: State, t: State)
  {
    exists k :: k in s.tokens && t == Resettled(c, s, s.assignments, s.tokens - {k}, s.clock)
  }

  ghost predicate Tick(c: Model, s: State, t: State)
  {
    && s.clock < c.horizon
    && var newAssignments := (set a | a in s.assignments && ExpiryOf(s.expiry, a) >= s.clock + 1);
      var newTokens := (set k | k in s.tokens && k.expires >= s.clock + 1);
      t == Resettled(c, s, newAssignments, newTokens, s.clock + 1)
  }

  ghost predicate ExpireRole(c: Model, s: State, t: State)
  {
    exists a :: a in s.assignments && ExpiryOf(s.expiry, a) < s.clock
      && t == Resettled(c, s, s.assignments - {a}, s.tokens, s.clock)
  }

  ghost predicate ProcessRequest(c: Model, s: State, t: State)
  {
    GrantRequest(c, s, t) || DenyRequest(s, t)
  }

  ghost predicate Quiesce(c: Model, s: State, t: State)
  {
    s.clock == c.horizon && s.pending == {} && t == s
  }

  ghost predicate Next(c: Model, s: State, t: State)
  {
    || ProcessRequest(c, s, t)
    || AssignRole(c, s, t) || RevokeRole(c, s, t)
    || IssueCrossZoneToken(c, s, t) || RevokeCrossZoneToken(c, s, t)
    || Tick(c, s, t) || ExpireRole(c, s, t) || Quiesce(c, s, t)
  }

  // ---- safety --------------------------------------------------------------------------

  predicate Logged(s: State, req: Request, d: Decision)
  {
    exists e :: e in s.log && e.req == req && e.decision == d
  }

  /** Everything granted is authorised now. */
  ghost predicate NoUnauthorizedAccess(c: Model, s: State)
  {
    forall req :: req in s.granted ==> Authorized(c, s, req)
  }

  /** No role or token outlives its expiry, so there is nothing for ExpireRole to do. */
  ghost predicate Unexpired(c: Model, s: State)
  {
    && 0 <= s.clock <= c.horizon
    && (forall a :: a in s.assignments ==> ExpiryOf(s.expiry, a) >= s.clock)
    && (forall k :: k in s.tokens ==> k.expires >= s.clock)
  }

  datatype Status = IsPending | IsGranted | IsDenied | IsRevoked

  /** Where a request stands, read from the state. */
  function StatusOf(s: State, req: Request): Status
  {
    if req in s.pending then IsPending
    else if req in s.granted then IsGranted
    else if Logged(s, req, DENY) then IsDenied
    else IsRevoked
  }

  /** The log tells the same story: a request is granted, denied or revoked exactly when the log says
      so, and never two of these at once. */
  ghost predicate Consistent(c: Model, s: State)
  {
    && (forall e :: e in s.log ==> e.req in c.initialRequests)
    && s.pending <= c.initialRequests && s.granted <= c.initialRequests
    && (forall req :: req in c.initialRequests ==>
          && Logged(s, req, PENDING)
          && (req in s.pending <==> !Logged(s, req, GRANT) && !Logged(s, req, DENY))
          && !(Logged(s, req, GRANT) && Logged(s, req, DENY))
          && (Logged(s, req, REVOKE) ==> Logged(s, req, GRANT))
          && (req in s.granted <==> Logged(s, req, GRANT) && !Logged(s, req, REVOKE)))
  }

  ghost predicate Safe(c: Model, s: State)
  {
    NoUnauthorizedAccess(c, s) && Unexpired(c, s) && Consistent(c, s)
  }

  lemma InitSafe(c: Model, s: State)
    requires Init(c, s)
    ensures Safe(c, s)
  {
    forall req | req in c.initialRequests ensures Logged(s, req, PENDING) {
      assert LogEntry(req, PENDING, 0) in s.log;
    }
  }

  lemma LogAppends(s: State, t: State, e: LogEntry)
    requires t.log == s.log + {e}
    ensures forall req, d :: Logged(t, req, d) <==> Logged(s, req, d) || (e.req == req && e.decision == d)
  {
  }

  /** Recomputing the grants keeps the policy safe whatever the new assignments, tokens and clock are. */
  lemma ResettledSafe(c: Model, s: State, assignments: set<Assignment>, tokens: set<Token>, clock: int)
    requires Safe(c, s) && 0 <= clock <= c.horizon
    requires forall a :: a in assignments ==> ExpiryOf(s.expiry, a) >= clock
    requires forall k :: k in tokens ==> k.expires >= clock
    ensures Safe(c, Resettled(c, s, assignments, tokens, clock))
  {
  }

  lemma GrantedSafe(c: Model, s: State, req: Request)
    requires Safe(c, s) && req in s.pending && Authorized(c, s, req)
    ensures Safe(c, Granted(s, req))
  {
    LogAppends(s, Granted(s, req), LogEntry(req, GRANT, s.clock));
  }

  lemma DeniedSafe(c: Model, s: State, req: Request)
    requires Safe(c, s) && req in s.pending
    ensures Safe(c, Denied(s, req))
  {
  }

  lemma ExtendedSafe(c: Model, s: State, t: State)
    requires Safe(c, s) && Unexpired(c, t)
    requires t.granted == s.granted && t.pending == s.pending && t.log == s.log && t.clock == s.clock
    requires s.assignments <= t.assignments && s.tokens <= t.tokens
    requires forall a :: a in s.assignments ==> ExpiryOf(t.expiry, a) == ExpiryOf(s.expiry, a)
    ensures Safe(c, t)
  {
  }

  /** Every step keeps the policy safe. */
  lemma StepSafe(c: Model, s: State, t: State)
    requires Safe(c, s) && Next(c, s, t)
    ensures Safe(c, t)
  {
    if GrantRequest(c, s, t) {
      var req :| req in s.pending && Authorized(c, s, req) && t == Granted(s, req);
      GrantedSafe(c, s, req);
    } else if DenyRequest(s, t) {
      var req :| req in s.pending && t == Denied(s, req);
      DeniedSafe(c, s, req);
    } else if AssignRole(c, s, t) || IssueCrossZoneToken(c, s, t) {
      ExtendedSafe(c, s, t);
    } else if RevokeRole(c, s, t) {
      var a :| a in s.assignments && t == Resettled(c, s, s.assignments - {a}, s.tokens, s.clock);
      ResettledSafe(c, s, s.assignments - {a}, s.tokens, s.clock);
    } else if RevokeCrossZoneToken(c, s, t) {
      var k :| k in s.tokens && t == Resettled(c, s, s.assignments, s.tokens - {k}, s.clock);
      ResettledSafe(c, s, s.assignments, s.tokens - {k}, s.clock);
    } else if Tick(c, s, t) {
      ResettledSafe(c, s, t.assignments, t.tokens, t.clock);
    }
  }

  /** In every safe state ExpireRole is disabled: Tick has already removed what has run out. */
  lemma ExpireRoleDisabled(c: Model, s: State, t: State)
    requires Unexpired(c, s)
    ensures !ExpireRole(c, s, t)
  {
  }

  /** Every request stands in exactly one place, and the log confirms it. */
  lemma StatusLogged(c: Model, s: State, req: Request)
    requires Safe(c, s) && req in c.initialRequests
    ensures StatusOf(s, req).IsPending? <==> req in s.pending
    ensures StatusOf(s, req).IsGranted? <==> req in s.granted
    ensures StatusOf(s, req).IsDenied? <==> Logged(s, req, DENY)
    ensures StatusOf(s, req).IsRevoked? <==> Logged(s, req, REVOKE)
  {
  }

  function Rank(x: Status): nat
  {
    match x case IsPending => 0 case IsGranted => 1 case IsDenied => 2 case IsRevoked => 2
  }

  /** The entry is one that a step may add in this state. */
  predicate Rightful(s: State, e: LogEntry)
  {
    if e.decision == REVOKE then e.req in s.granted else e.req in s.pending
  }

  /** A step only adds to the log: decisions on pending requests, revocations of granted ones. */
  lemma StepLog(c: Model, s: State, t: State)
    requires Next(c, s, t)
    ensures s.log <= t.log && forall e :: e in t.log ==> e in s.log || Rightful(s, e)
  {
  }

  /** A request only ever moves forward: from pending to granted or denied, from granted to revoked;
      denial and revocation are final. */
  lemma StatusForward(c: Model, s: State, t: State, req: Request)
    requires Safe(c, s) && Next(c, s, t) && req in c.initialRequests
    ensures StatusOf(t, req) == StatusOf(s, req) || Rank(StatusOf(s, req)) < Rank(StatusOf(t, req))
    ensures StatusOf(s, req).IsPending? ==> !StatusOf(t, req).IsRevoked?
    ensures StatusOf(s, req).IsGranted? ==> !StatusOf(t, req).IsDenied?
  {
    StepSafe(c, s, t);
    StepLog(c, s, t);
    StatusLogged(c, s, req);
    StatusLogged(c, t, req);
    forall d | Logged(s, req, d) ensures Logged(t, req, d) {
      var e :| e in s.log && e.req == req && e.decision == d;
      assert e in t.log;
    }
    forall d | Logged(t, req, d) && !Logged(s, req, d) ensures Rightful(s, LogEntry(req, d, 0)) {
      var e :| e in t.log && e.req == req && e.decision == d;
      assert e !in s.log;
    }
  }

  // ---- behaviours ----------------------------------------------------------------------

  type Behavior = nat -> State

  /** Steps of the specification, stuttering included. */
  ghost predicate Steps(c: Model, b: Behavior)
  {
    Init(c, b(0)) && forall n: nat :: StepsAt(c, b, n)
  }

  ghost predicate StepsAt(c: Model, b: Behavior, n: nat)
  {
    StepOrStutter(c, b(n), b(n + 1))
  }

  ghost predicate StepOrStutter(c: Model, s: State, t: State)
  {
    Next(c, s, t) || t == s
  }

  /** A processing step that changes something can be taken. */
  ghost predicate ProcessEnabled(c: Model, s: State)
  {
    exists t :: ProcessRequest(c, s, t) && t != s
  }

  /** Weak fairness: from every point on, processing is at some time disabled or taken. */
  ghost predicate WeaklyFair(c: Model, b: Behavior)
  {
    forall n: nat :: FairAfter(c, b, n)
  }

  ghost predicate FairAfter(c: Model, b: Behavior, n: nat)
  {
    exists k: nat :: k >= n && FairAt(c, b, k)
  }

  ghost predicate FairAt(c: Model, b: Behavior, k: nat)
  {
    !ProcessEnabled(c, b(k)) || (ProcessRequest(c, b(k), b(k + 1)) && b(k + 1) != b(k))
  }

  /** Every state of every behaviour is safe: nothing unauthorised is granted, nothing outlives its
      expiry, every request has one status and the log agrees with it. */
  lemma {:induction false} AlwaysSafe(c: Model, b: Behavior, n: nat)
    requires Steps(c, b)
    ensures Safe(c, b(n))
  {
    if n == 0 {
      InitSafe(c, b(0));
    } else {
      AlwaysSafe(c, b, n - 1);
      assert StepsAt(c, b, n - 1);
      if Next(c, b(n - 1), b(n)) {
        StepSafe(c, b(n - 1), b(n));
      }
    }
  }

  /** Processing can happen exactly while something is pending. */
  lemma EnabledWhilePending(c: Model, s: State)
    ensures ProcessEnabled(c, s) <==> s.pending != {}
  {
    if req :| req in s.pending {
      assert ProcessRequest(c, s, Denied(s, req));
      assert req !in Denied(s, req).pending;
    }
  }

  /** No step adds a pending request, and every processing step removes one. */
  lemma PendingShrinks(c: Model, s: State, t: State)
    requires StepOrStutter(c, s, t)
    ensures t.pending <= s.pending
    ensures ProcessRequest(c, s, t) ==> t.pending < s.pending
  {
  }

  lemma {:induction false} PendingOnlyShrinks(c: Model, b: Behavior, n: nat, k: nat)
    requires Steps(c, b) && n <= k
    ensures b(k).pending <= b(n).pending
    decreases k - n
  {
    if n < k {
      PendingOnlyShrinks(c, b, n, k - 1);
      assert StepsAt(c, b, k - 1);
      PendingShrinks(c, b(k - 1), b(k));
    }
  }

  lemma SmallerSet(a: set<Request>, b: set<Request>)
    requires a < b
    ensures |a| < |b|
  {
    assert b == a + (b - a);
  }

  /** From every point on, at some time either nothing is pending or a step takes something off. */
  lemma FairStep(c: Model, b: Behavior, n: nat) returns (k: nat)
    requires Steps(c, b) && WeaklyFair(c, b)
    ensures k >= n && (b(k).pending == {} || b(k + 1).pending < b(k).pending)
  {
    assert FairAfter(c, b, n);
    k :| k >= n && FairAt(c, b, k);
    EnabledWhilePending(c, b(k));
    assert StepsAt(c, b, k);
    PendingShrinks(c, b(k), b(k + 1));
  }

  /** Liveness: under weak fairness every pending request eventually stops being pending. */
  lemma {:induction false} EventuallyDecided(c: Model, b: Behavior, n: nat, req: Request) returns (m: nat)
    requires Steps(c, b) && WeaklyFair(c, b) && req in b(n).pending
    ensures m >= n && req !in b(m).pending
    decreases |b(n).pending|
  {
    var k := FairStep(c, b, n);
    PendingOnlyShrinks(c, b, n, k);
    if req !in b(k).pending {
      return k;
    }
    if req !in b(k + 1).pending {
      return k + 1;
    }
    SmallerSet(b(k + 1).pending, b(n).pending);
    m := EventuallyDecided(c, b, k + 1, req);
  }

  /** Once decided, decided for good. */
  lemma StaysDecided(c: Model, b: Behavior, n: nat, m: nat, req: Request)
    requires Steps(c, b) && n <= m && req !in b(n).pending
    ensures req !in b(m).pending
  {
    PendingOnlyShrinks(c, b, n, m);
  }

  // ---- what behaviours mean ------------------------------------------------------------

  /** A role that permits the request, assigned to its user and not past its expiry, for the requested zone
      or for one from which a token of the user, not past its own, leads there. */
  predicate Entitles(c: Model, s: State, req: Request, a: Assignment)
  {
    && a in s.assignments && a in s.expiry && s.expiry[a] >= s.clock
    && a.user == req.user && a.role in c.rolePerms && req.perm in c.rolePerms[a.role]
    && (a.zone == req.zone ||
        (exists k :: k in s.tokens && k.user == req.user && k.expires >= s.clock
                  && k.fromZone == a.zone && k.toZone == req.zone))
  }

  lemma AuthorizedMeans(c: Model, s: State, req: Request)
    requires s.assignments <= s.expiry.Keys
    ensures Authorized(c, s, req) <==> exists a :: Entitles(c, s, req, a)
  {
    if ActiveRoleAt(c, s.clock, s.assignments, s.expiry, req.user, req.perm, req.zone) {
      var a :| a in s.assignments && a.user == req.user && a.zone == req.zone && Permits(c, a.role, req.perm)
        && ExpiryOf(s.expiry, a) >= s.clock;
      assert Entitles(c, s, req, a);
    } else if Authorized(c, s, req) {
      var a :| a in s.assignments && a.user == req.user && a.zone != req.zone && Permits(c, a.role, req.perm)
        && ExpiryOf(s.expiry, a) >= s.clock && ActiveTokenAt(s.clock, s.tokens, req.user, a.zone, req.zone);
      assert Entitles(c, s, req, a);
    }
    if a :| Entitles(c, s, req, a) {
      if a.zone != req.zone {
        assert ActiveTokenAt(s.clock, s.tokens, req.user, a.zone, req.zone);
      }
    }
  }

  /** Assignments and tokens come from the sets given; assignments are dated within the horizon; no token
      leads from a zone to itself. */
  predicate Drawn(c: Model, s: State)
  {
    && s.assignments <= c.initialAssignments + c.candidateAssignments
    && s.assignments <= s.expiry.Keys
    && (forall a :: a in s.expiry ==> s.expiry[a] <= c.horizon)
    && s.tokens <= c.candidateTokens
    && (forall k :: k in s.tokens ==> k.fromZone != k.toZone)
  }

  lemma {:induction false} AlwaysDrawn(c: Model, b: Behavior, n: nat)
    requires Steps(c, b)
    ensures Drawn(c, b(n))
  {
    if n > 0 {
      AlwaysDrawn(c, b, n - 1);
      assert StepsAt(c, b, n - 1);
      if Next(c, b(n - 1), b(n)) {
        DrawnStep(c, b(n - 1), b(n));
      }
    }
  }

  lemma DrawnStep(c: Model, s: State, t: State)
    requires Drawn(c, s) && Next(c, s, t)
    ensures Drawn(c, t)
  {
  }

  /** In every state of every behaviour whoever is granted a request is entitled to it there and then. */
  lemma GrantsEntitled(c: Model, b: Behavior, n: nat, req: Request) returns (a: Assignment)
    requires Steps(c, b) && req in b(n).granted
    ensures Entitles(c, b(n), req, a)
  {
    AlwaysSafe(c, b, n);
    AlwaysDrawn(c, b, n);
    AuthorizedMeans(c, b(n), req);
    a :| Entitles(c, b(n), req, a);
  }

  /** A step grants only what it may, and takes a grant away only when nothing entitles to it any more. */
  lemma GrantsMove(c: Model, s: State, t: State, req: Request)
    requires Safe(c, s) && Drawn(c, s) && Next(c, s, t)
    ensures req in t.granted && req !in s.granted ==> req in s.pending && exists a :: Entitles(c, s, req, a)
    ensures req in s.granted && req !in t.granted ==> forall a :: !Entitles(c, t, req, a)
  {
    DrawnStep(c, s, t);
    AuthorizedMeans(c, s, req);
    AuthorizedMeans(c, t, req);
  }

  /** The clock stands still or ticks once, up to the horizon, and what a step logs carries its time. */
  lemma ClockAndLog(c: Model, s: State, t: State)
    requires Next(c, s, t)
    ensures t.clock == s.clock || (t.clock == s.clock + 1 && t.clock <= c.horizon)
    ensures forall e :: e in t.log && e !in s.log ==> e.at == t.clock
  {
  }
}
