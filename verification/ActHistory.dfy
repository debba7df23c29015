/** Access told from what administrators did, and nothing else: the sweeps that access checks make on the
    way are left out of the history, and shown not to matter while clocks do not run backwards. */
module ActHistory {
  import opened Wrappers
  import opened Text
  import opened Roles
  import opened Ledger
  import opened Transactions
  import opened LedgerFacts
  import opened LedgerRuns
  import opened Provenance
  import opened AccessRules

  // ---- the role that the acts leave ----------------------------------------------------

  ghost function ActReplaced(tr: Trace, u: string): nat -> bool
  {
    (i: nat) => i < |tr| && (Assigns(tr[i], u) || Revokes(tr[i], u))
  }

  ghost function ActRedated(tr: Trace, u: string): nat -> bool
  {
    (i: nat) => i < |tr| && (Assigns(tr[i], u) || Renews(tr[i], u) || Revokes(tr[i], u))
  }

  ghost function SweptAt(tr: Trace, u: string): nat -> bool
  {
    (i: nat) => i < |tr| && Sweeps(tr[i], u)
  }

  ghost function AssignedAt(tr: Trace, u: string): nat -> bool
  {
    (i: nat) => i < |tr| && Assigns(tr[i], u)
  }

  /** A sweep has deleted `u`'s role and nobody has assigned one since. */
  ghost predicate Swept(tr: Trace, n: nat, u: string)
  {
    Since(SweptAt(tr, u), AssignedAt(tr, u), n)
  }

  /** The role of `u` as the last assignment, renewal or revocation left it. */
  ghost function ActRow(tr: Trace, n: nat, u: string): Option<RoleAssignment>
    requires n <= |tr|
  {
    if n == 0 then None else
      var t := tr[n - 1];
      if Assigns(t, u) || Renews(t, u) then RoleRow(t.after, u)
      else if Revokes(t, u) then None
      else ActRow(tr, n - 1, u)
  }

  /** The ledger agrees with the acts, except that a sweep hides the role until the next assignment. */
  lemma {:induction false} RowByActs(tr: Trace, n: nat, u: string)
    requires n <= |tr| && ValidRun(tr) && Trimmed(u)
    ensures RoleRow(StateAt(tr, n), u) == if Swept(tr, n, u) then None else ActRow(tr, n, u)
  {
    if n > 0 {
      RowByActs(tr, n - 1, u);
      StepAt(tr, n - 1);
      RoleStep(tr[n - 1], u);
    }
  }

  ghost predicate HasActRole(tr: Trace, n: nat, u: string, b: RoleAssignment)
    requires n <= |tr|
  {
    ActRow(tr, n, u).Some? && Base(ActRow(tr, n, u).value) == Base(b)
  }

  ghost predicate HasActExpiry(tr: Trace, n: nat, u: string, expiry: int)
    requires n <= |tr|
  {
    ActRow(tr, n, u).Some? && ActRow(tr, n, u).value.expiresAt == expiry
  }

  /** What one step does to the role that the acts leave: a renewal finds it on the ledger. */
  lemma ActStep(tr: Trace, n: nat, u: string)
    requires n < |tr| && ValidRun(tr) && Trimmed(u)
    ensures var t, row, next := tr[n], ActRow(tr, n, u), ActRow(tr, n + 1, u);
      && (Assigns(t, u) ==> next.Some? && Gives(t, u, next.value) && Dates(t, u, next.value.expiresAt))
      && (Renews(t, u) ==>
            row.Some? && next.Some? && Base(next.value) == Base(row.value) && Dates(t, u, next.value.expiresAt))
      && (Revokes(t, u) ==> next == None)
      && (!Assigns(t, u) && !Renews(t, u) && !Revokes(t, u) ==> next == row)
  {
    StepAt(tr, n);
    RowByActs(tr, n, u);
    RoleStep(tr[n], u);
  }

  lemma GivenOnce(t: Transition, u: string, a: RoleAssignment, b: RoleAssignment)
    requires Gives(t, u, a)
    ensures Gives(t, u, b) <==> Base(a) == Base(b)
  {
  }

  lemma ActRoleStep(tr: Trace, n: nat, u: string, b: RoleAssignment)
    requires n < |tr| && ValidRun(tr) && Trimmed(u)
    ensures HasActRole(tr, n + 1, u, b) <==>
            (Gives(tr[n], u, b) || (HasActRole(tr, n, u, b) && !Assigns(tr[n], u) && !Revokes(tr[n], u)))
  {
    ActStep(tr, n, u);
    if Assigns(tr[n], u) {
      GivenOnce(tr[n], u, ActRow(tr, n + 1, u).value, b);
    }
  }

  lemma ActExpiryStep(tr: Trace, n: nat, u: string, expiry: int)
    requires n < |tr| && ValidRun(tr) && Trimmed(u)
    ensures HasActExpiry(tr, n + 1, u, expiry) <==>
            (Dates(tr[n], u, expiry) ||
             (HasActExpiry(tr, n, u, expiry) && !Assigns(tr[n], u) && !Renews(tr[n], u) && !Revokes(tr[n], u)))
  {
    ActStep(tr, n, u);
  }

  lemma {:induction false} ActRole(tr: Trace, n: nat, u: string, b: RoleAssignment)
    requires n <= |tr| && ValidRun(tr) && Trimmed(u)
    ensures HasActRole(tr, n, u, b) <==> Since(Given(tr, u, b), ActReplaced(tr, u), n)
  {
    if n > 0 {
      ActRole(tr, n - 1, u, b);
      ActRoleStep(tr, n - 1, u, b);
    }
  }

  lemma {:induction false} ActExpiry(tr: Trace, n: nat, u: string, expiry: int)
    requires n <= |tr| && ValidRun(tr) && Trimmed(u)
    ensures HasActExpiry(tr, n, u, expiry) <==> Since(Dated(tr, u, expiry), ActRedated(tr, u), n)
  {
    if n > 0 {
      ActExpiry(tr, n - 1, u, expiry);
      ActExpiryStep(tr, n - 1, u, expiry);
    }
  }

  /** After `n` steps the acts have left `u` with exactly the role `a`. */
  ghost predicate HeldByActs(tr: Trace, n: nat, u: string, a: RoleAssignment)
  {
    && Since(Given(tr, u, a), ActReplaced(tr, u), n)
    && Since(Dated(tr, u, a.expiresAt), ActRedated(tr, u), n)
  }

  lemma HeldByActsRow(tr: Trace, n: nat, u: string, a: RoleAssignment)
    requires n <= |tr| && ValidRun(tr) && Trimmed(u)
    ensures ActRow(tr, n, u) == Some(a) <==> HeldByActs(tr, n, u, a)
  {
    ActRole(tr, n, u, a);
    ActExpiry(tr, n, u, a.expiresAt);
  }

  // ---- the decision that the acts imply ------------------------------------------------

  /** The decision at step `n` told from acts alone: revocations published, roles assigned, renewed and
      revoked, tokens issued and revoked. */
  ghost predicate ActsGrant(tr: Trace, n: nat, env: Env, u: string, p: Permission, zone: string, token: string)
  {
    && (env.caller.serialHex == "" || !Since(Published(tr, env.caller.serialHex), Never(), n))
    && u != ""
    && exists a :: HeldByActs(tr, n, u, a) && !Expired(env, a) && HasPermission(Some(a.role), p)
         && (NeedsZoneCheck(p) ==> ZoneReached(a, zone) || TokenCovers(tr, n, env, u, zone, token))
  }

  /** The acts' decision reads off the role they leave. */
  lemma ActsGrantRow(tr: Trace, n: nat, env: Env, u: string, p: Permission, zone: string, token: string)
    requires n <= |tr| && ValidRun(tr) && Trimmed(u)
    ensures ActsGrant(tr, n, env, u, p, zone, token) <==>
            (&& (env.caller.serialHex == "" || !Since(Published(tr, env.caller.serialHex), Never(), n))
             && u != "" && ActRow(tr, n, u).Some?
             && var a := ActRow(tr, n, u).value;
               && !Expired(env, a) && HasPermission(Some(a.role), p)
               && (NeedsZoneCheck(p) ==> ZoneReached(a, zone) || TokenCovers(tr, n, env, u, zone, token)))
  {
    if ActRow(tr, n, u).Some? {
      HeldByActsRow(tr, n, u, ActRow(tr, n, u).value);
    }
    if ActsGrant(tr, n, env, u, p, zone, token) {
      var a :| HeldByActs(tr, n, u, a) && !Expired(env, a) && HasPermission(Some(a.role), p)
         && (NeedsZoneCheck(p) ==> ZoneReached(a, zone) || TokenCovers(tr, n, env, u, zone, token));
      HeldByActsRow(tr, n, u, a);
    }
  }

  /** In every reachable state an access check grants exactly when the acts do and no sweep hides the role. */
  lemma GrantsUnlessSwept(tr: Trace, n: nat, env: Env, u: string, p: Permission, zone: string, token: string)
    requires n <= |tr| && ValidRun(tr) && Trimmed(u)
    ensures Grants(StateAt(tr, n), env, u, p, zone, token) <==>
            (ActsGrant(tr, n, env, u, p, zone, token) && !Swept(tr, n, u))
  {
    RowByActs(tr, n, u);
    RevocationProvenance(tr, n, env.caller.serialHex);
    TokenCoversRow(tr, n, env, u, zone, token);
    ActsGrantRow(tr, n, env, u, p, zone, token);
  }

  predicate NotAfter(e: Event, seconds: int)
  {
    e.Tx? ==> e.env.seconds <= seconds
  }

  /** No transaction so far is stamped later than this. */
  predicate AllBy(tr: Trace, n: nat, seconds: int)
    requires n <= |tr|
  {
    forall i :: 0 <= i < n ==> NotAfter(tr[i].event, seconds)
  }

  lemma SweepFinds(t: Transition, u: string)
    requires Sweeps(t, u)
    ensures RoleRow(t.before, u).Some? && Expired(t.event.env, RoleRow(t.before, u).value)
  {
  }

  lemma SweptStep(tr: Trace, n: nat, u: string)
    requires n < |tr| && ValidRun(tr) && Trimmed(u)
    requires Swept(tr, n + 1, u) && ActRow(tr, n + 1, u).Some? && !Sweeps(tr[n], u)
    ensures Swept(tr, n, u) && ActRow(tr, n, u) == ActRow(tr, n + 1, u)
  {
    StepAt(tr, n);
    RowByActs(tr, n, u);
    RoleStep(tr[n], u);
  }

  lemma SweepKeepsActs(tr: Trace, n: nat, u: string)
    requires n < |tr| && ValidRun(tr) && Trimmed(u) && Sweeps(tr[n], u)
    ensures ActRow(tr, n + 1, u) == RoleRow(tr[n].before, u)
  {
    StepAt(tr, n);
    SweepFinds(tr[n], u);
    RowByActs(tr, n, u);
  }

  lemma JustSwept(tr: Trace, n: nat, u: string, env: Env)
    requires n < |tr| && ValidRun(tr) && Trimmed(u) && Sweeps(tr[n], u) && NotAfter(tr[n].event, env.seconds)
    ensures ActRow(tr, n + 1, u).Some? && Expired(env, ActRow(tr, n + 1, u).value)
  {
    SweepFinds(tr[n], u);
    SweepKeepsActs(tr, n, u);
  }

  /** What a sweep hides has expired. */
  ghost predicate HiddenExpired(tr: Trace, n: nat, u: string, env: Env)
    requires n <= |tr|
  {
    Swept(tr, n, u) && ActRow(tr, n, u).Some? ==> Expired(env, ActRow(tr, n, u).value)
  }

  lemma HiddenStep(tr: Trace, n: nat, u: string, env: Env)
    requires n < |tr| && ValidRun(tr) && Trimmed(u) && NotAfter(tr[n].event, env.seconds)
    requires HiddenExpired(tr, n, u, env)
    ensures HiddenExpired(tr, n + 1, u, env)
  {
    if Sweeps(tr[n], u) {
      JustSwept(tr, n, u, env);
    } else if Swept(tr, n + 1, u) && ActRow(tr, n + 1, u).Some? {
      SweptStep(tr, n, u);
    }
  }

  /** What a sweep found expired is expired for good. */
  lemma {:induction false} SweptExpired(tr: Trace, n: nat, u: string, env: Env)
    requires n <= |tr| && ValidRun(tr) && Trimmed(u) && AllBy(tr, n, env.seconds)
    ensures HiddenExpired(tr, n, u, env)
  {
    if n > 0 {
      SweptExpired(tr, n - 1, u, env);
      assert NotAfter(tr[n - 1].event, env.seconds);
      HiddenStep(tr, n - 1, u, env);
    }
  }

  /** In every reachable state, a check that no earlier transaction is stamped after grants if and only if
      the administrators' acts say so. */
  lemma GrantActs(tr: Trace, n: nat, env: Env, u: string, p: Permission, zone: string, token: string)
    requires n <= |tr| && ValidRun(tr) && Trimmed(u) && AllBy(tr, n, env.seconds)
    ensures Grants(StateAt(tr, n), env, u, p, zone, token) <==> ActsGrant(tr, n, env, u, p, zone, token)
  {
    GrantsUnlessSwept(tr, n, env, u, p, zone, token);
    ActsGrantRow(tr, n, env, u, p, zone, token);
    SweptExpired(tr, n, u, env);
  }

  // ---- who changes roles ---------------------------------------------------------------

  /** An assignment, revocation or renewal sent by anyone but an administrator leaves every role row, its
      expiry included, as it was. */
  lemma OnlyAdmins(t: Transition)
    requires ValidStep(t) && t.event.Tx? && t.event.env.caller.role != Some(Admin)
    requires t.event.req.AssignRole? || t.event.req.RevokeRole? || t.event.req.RenewRole?
    ensures t.outcome.Err? && Same(t.before, t.after, RoleKind)
  {
    var env, req := t.event.env, t.event.req;
    NonceGate(t.before, env, req);
    if FreshNonce(t.before, env, req.nonce) {
      RecordNonceFrame(t.before, env, req.nonce);
      StrangersPlan(RecordNonce(t.before, env, req.nonce), env, req);
    }
  }

  lemma StrangersPlan(s: State, env: Env, req: Request)
    requires Typed(s) && env.caller.role != Some(Admin)
    requires req.AssignRole? || req.RevokeRole? || req.RenewRole?
    ensures Plan(s, env, req).outcome.Err? && Carry(Plan(s, env, req)).0 == s
  {
  }

  /** The role of a user changes only by an administrator's act, or goes when an access check finds that it
      has run out. */
  lemma RoleChangedBy(t: Transition, u: string)
    requires ValidStep(t) && Trimmed(u) && RoleRow(t.after, u) != RoleRow(t.before, u)
    ensures t.event.Tx?
    ensures var env, req := t.event.env, t.event.req;
      || (env.caller.role == Some(Admin) && t.outcome.Ok? && (req.AssignRole? || req.RevokeRole? || req.RenewRole?))
      || (RoleRow(t.after, u) == None && RoleRow(t.before, u).Some?
          && RoleRow(t.before, u).value.expiresAt != 0 && env.seconds > RoleRow(t.before, u).value.expiresAt)
  {
    RoleStep(t, u);
    if Sweeps(t, u) {
      SweepFinds(t, u);
    } else if t.event.env.caller.role != Some(Admin) {
      OnlyAdmins(t);
    }
  }

  // ---- a clock that runs backwards -----------------------------------------------------

  /** An access check changes nothing that the acts say. */
  lemma CheckKeepsActs(tr: Trace, n: nat, env: Env, u: string, p: Permission, zone: string, token: string)
    requires n < |tr| && ValidRun(tr) && Trimmed(u) && tr[n].event.Tx? && tr[n].event.req.CheckAccess?
    requires ActsGrant(tr, n, env, u, p, zone, token)
    ensures ActsGrant(tr, n + 1, env, u, p, zone, token)
  {
    var a :| HeldByActs(tr, n, u, a) && !Expired(env, a) && HasPermission(Some(a.role), p)
         && (NeedsZoneCheck(p) ==> ZoneReached(a, zone) || TokenCovers(tr, n, env, u, zone, token));
    assert HeldByActs(tr, n + 1, u, a);
    if TokenCovers(tr, n, env, u, zone, token) {
      CheckKeepsToken(tr, n, env, u, zone, token);
    }
  }

  lemma CheckKeepsToken(tr: Trace, n: nat, env: Env, u: string, zone: string, token: string)
    requires n < |tr| && tr[n].event.Tx? && tr[n].event.req.CheckAccess?
    requires TokenCovers(tr, n, env, u, zone, token)
    ensures TokenCovers(tr, n + 1, env, u, zone, token)
  {
    var id := Trim(token);
    var k :| Since(Issued(tr, id, k), Voided(tr, id), n)
         && k.subjectId == u && env.seconds < k.expiresAt && zone in k.targetZones;
    assert Since(Issued(tr, id, k), Voided(tr, id), n + 1);
  }

  /** A sweep takes away what a check with an earlier stamp would have been granted, while every act that
      supports the grant stands: with stamps that run backwards the acts alone do not decide. */
  lemma SweptTooSoon(tr: Trace, n: nat, env: Env, u: string, p: Permission, zone: string, token: string)
    requires n < |tr| && ValidRun(tr) && Trimmed(u)
    requires Sweeps(tr[n], u) && tr[n].event.req.CheckAccess?
    requires Grants(StateAt(tr, n), env, u, p, zone, token)
    ensures ActsGrant(tr, n + 1, env, u, p, zone, token)
    ensures !Grants(StateAt(tr, n + 1), env, u, p, zone, token)
  {
    GrantsUnlessSwept(tr, n, env, u, p, zone, token);
    CheckKeepsActs(tr, n, env, u, p, zone, token);
    GrantsUnlessSwept(tr, n + 1, env, u, p, zone, token);
  }

  ghost function Perform(s: State, env: Env, req: Request): (t: Transition)
    requires Typed(s)
    ensures ValidStep(t) && ValidEntry(t) && t.before == s && t.event == Tx(env, req, false)
  {
    var (after, outcome) := Exec(s, env, req);
    Transition(s, Tx(env, req, false), outcome, Written(s, env, req, false), after)
  }

  lemma PerformedSweep(s: State, later: Env, u: string, permission: string, zone: string, token: string)
    requires Typed(s) && Trimmed(u) && u != "" && later.caller.serialHex == ""
    requires RoleRow(s, u).Some? && Expired(later, RoleRow(s, u).value)
    ensures Sweeps(Perform(s, later, Request.CheckAccess(u, permission, zone, token)), u)
  {
    assert Trim(u) == u;
  }

  lemma LongerRun(tr: Trace, t: Transition)
    requires ValidRun(tr) && ValidStep(t) && ValidEntry(t) && t.before == StateAt(tr, |tr|)
    ensures ValidRun(tr + [t])
  {
    var tr' := tr + [t];
    forall i | 0 <= i < |tr'| ensures ValidStep(tr'[i]) && ValidEntry(tr'[i]) && tr'[i].before == StateAt(tr', i) {
      if i < |tr| {
        assert ValidStep(tr[i]);
      }
    }
  }

  /** And any role that expires can be swept so: whatever the run, a check stamped after the expiry, by
      anyone without a revoked certificate, makes it happen. */
  lemma SweepAhead(tr: Trace, later: Env, u: string, permission: string, zone: string, token: string)
    returns (tr': Trace)
    requires ValidRun(tr) && Trimmed(u) && u != "" && later.caller.serialHex == ""
    requires RoleRow(StateAt(tr, |tr|), u).Some? && Expired(later, RoleRow(StateAt(tr, |tr|), u).value)
    ensures ValidRun(tr') && |tr'| == |tr| + 1 && StateAt(tr', |tr|) == StateAt(tr, |tr|)
    ensures Sweeps(tr'[|tr|], u) && tr'[|tr|].event.req.CheckAccess? && tr'[|tr|].event.env == later
  {
    if |tr| > 0 {
      StepAt(tr, |tr| - 1);
    }
    var s := StateAt(tr, |tr|);
    var t := Perform(s, later, Request.CheckAccess(u, permission, zone, token));
    PerformedSweep(s, later, u, permission, zone, token);
    LongerRun(tr, t);
    tr' := tr + [t];
  }
}
