/** Whole runs of the ledger: what every run from the empty store keeps, and where every grant comes
    from. Each event says whether a failed transaction is rolled back, so the theorems hold both for a
    network that discards failed transactions and for a store that keeps their writes. */
module LedgerRuns {
  import opened Wrappers
  import opened Roles
  import opened Ledger
  import opened Transactions
  import opened LedgerFacts

  /** A transaction, or a certificate revocation mark published by the outside. */
  datatype Event = Tx(env: Env, req: Request, rollback: bool) | PublishRevocation(serial: string)

  /** One step of a run, with the state it met, its outcome, the audit entry it wrote and the state it left. */
  datatype Transition = Transition(
    before: State, event: Event, outcome: Outcome, entry: Option<AuditEntry>, after: State)

  function Mark(s: State, serial: string): (t: State)
    requires Typed(s)
    ensures Typed(t)
  {
    s[CrlKey(serial) := BytesVal("revoked")]
  }

  ghost predicate ValidStep(t: Transition)
  {
    && Typed(t.before)
    && match t.event
       case Tx(env, req, rollback) =>
         var (s, outcome) := Exec(t.before, env, req);
         t.outcome == outcome && t.after == if rollback && outcome.Err? then t.before else s
       case PublishRevocation(serial) => t.outcome == Ok(Done) && t.after == Mark(t.before, serial)
  }

  /** The entry of a step is the one its plan tells from the state it meets. */
  ghost predicate ValidEntry(t: Transition)
    requires Typed(t.before)
  {
    t.entry == match t.event
               case Tx(env, req, rollback) => Written(t.before, env, req, rollback)
               case PublishRevocation(_) => None
  }

  type Trace = seq<Transition>

  function StateAt(tr: Trace, n: nat): State
    requires n <= |tr|
  {
    if n == 0 then map[] else tr[n - 1].after
  }

  /** A run from the empty ledger. */
  ghost predicate ValidRun(tr: Trace)
  {
    forall i {:trigger ValidStep(tr[i])} :: 0 <= i < |tr| ==>
      ValidStep(tr[i]) && ValidEntry(tr[i]) && tr[i].before == StateAt(tr, i)
  }

  lemma StepAt(tr: Trace, i: nat)
    requires ValidRun(tr) && i < |tr|
    ensures ValidStep(tr[i]) && tr[i].before == StateAt(tr, i) && tr[i].after == StateAt(tr, i + 1)
    ensures Typed(tr[i].before) && Typed(tr[i].after)
  {
  }

  lemma MarkFrame(s: State, serial: string, kind: Kind)
    requires Typed(s) && kind != CrlKind
    ensures Same(s, Mark(s, serial), kind)
  {
  }

  // ---- histories -----------------------------------------------------------------------

  /** It happened at some step before `n` and has not been undone since. */
  ghost predicate Since(happens: nat -> bool, undoes: nat -> bool, n: nat)
  {
    n > 0 && (happens(n - 1) || (Since(happens, undoes, n - 1) && !undoes(n - 1)))
  }

  lemma {:induction false} SinceMeaning(happens: nat -> bool, undoes: nat -> bool, n: nat)
    ensures Since(happens, undoes, n) <==>
            exists i: nat :: i < n && happens(i) && forall m: nat :: i < m < n ==> !undoes(m)
  {
    if n > 0 {
      SinceMeaning(happens, undoes, n - 1);
      if Since(happens, undoes, n - 1) && !undoes(n - 1) {
        var i: nat :| i < n - 1 && happens(i) && forall m: nat :: i < m < n - 1 ==> !undoes(m);
        assert forall m: nat :: i < m < n ==> !undoes(m);
      }
    }
  }

  // ---- indexes -------------------------------------------------------------------------

  lemma NonceIndexStep(t: Transition)
    requires ValidStep(t) && Indexed(t.before, NONCE_INDEX, NonceKind)
    ensures Indexed(t.after, NONCE_INDEX, NonceKind)
  {
    match t.event
    case Tx(env, req, _) => ExecNonceIndexed(t.before, env, req);
    case PublishRevocation(serial) =>
      MarkFrame(t.before, serial, NonceKind);
      IndexedFrame(t.before, t.after);
  }

  /** In every reachable state the nonce index lists exactly the live nonce rows, each once. */
  lemma {:induction false} NonceIndexExact(tr: Trace, n: nat)
    requires n <= |tr| && ValidRun(tr)
    ensures Indexed(StateAt(tr, n), NONCE_INDEX, NonceKind)
  {
    if n > 0 {
      NonceIndexExact(tr, n - 1);
      StepAt(tr, n - 1);
      NonceIndexStep(tr[n - 1]);
    }
  }

  /** The step writes the first entry of all, under a transaction called "index". */
  predicate LosesAt(tr: Trace, i: nat)
    requires i < |tr|
  {
    Loses(tr[i].before, tr[i].entry)
  }

  predicate NoLoss(tr: Trace, n: nat)
    requires n <= |tr|
  {
    forall i :: 0 <= i < n ==> !LosesAt(tr, i)
  }

  lemma AuditStep(tr: Trace, i: nat)
    requires ValidRun(tr) && i < |tr|
    ensures Typed(tr[i].before) && Typed(tr[i].after)
    ensures tr[i].before == StateAt(tr, i) && tr[i].after == StateAt(tr, i + 1)
    ensures Trails(tr[i].before, tr[i].after, tr[i].entry)
  {
    StepAt(tr, i);
    match tr[i].event
    case Tx(env, req, rollback) => ExecTrail(tr[i].before, env, req, rollback);
    case PublishRevocation(serial) => MarkFrame(tr[i].before, serial, AuditKind);
  }

  lemma TrailAt(tr: Trace, i: nat)
    requires ValidRun(tr) && i < |tr|
    ensures var s, t := StateAt(tr, i), StateAt(tr, i + 1);
      && Index(s, AUDIT_INDEX) <= Index(t, AUDIT_INDEX)
      && (LosesAt(tr, i) ==> AUDIT_INDEX in Index(t, AUDIT_INDEX))
      && (!LosesAt(tr, i) && Indexed(s, AUDIT_INDEX, AuditKind) ==>
            Indexed(t, AUDIT_INDEX, AuditKind) && AuditExtends(s, t))
  {
    AuditStep(tr, i);
    TrailStep(tr[i].before, tr[i].after, tr[i].entry);
  }

  /** A lost entry spoils the index for good: from then on it lists itself. */
  lemma {:induction false} Spoiled(tr: Trace, i: nat, n: nat)
    requires i < n <= |tr| && ValidRun(tr) && LosesAt(tr, i)
    ensures AUDIT_INDEX in Index(StateAt(tr, n), AUDIT_INDEX)
    decreases n
  {
    TrailAt(tr, n - 1);
    if i < n - 1 {
      Spoiled(tr, i, n - 1);
    }
  }

  /** In every reachable state the audit index lists exactly the stored entries, each once, if and only if
      no step so far has lost its entry. */
  lemma {:induction false} AuditIndexExact(tr: Trace, n: nat)
    requires n <= |tr| && ValidRun(tr)
    ensures Indexed(StateAt(tr, n), AUDIT_INDEX, AuditKind) <==> NoLoss(tr, n)
  {
    if i :| 0 <= i < n && LosesAt(tr, i) {
      Spoiled(tr, i, n);
    } else if n > 0 {
      AuditIndexExact(tr, n - 1);
      TrailAt(tr, n - 1);
      assert !LosesAt(tr, n - 1);
    }
  }

  /** The entries of all steps so far, in order. */
  function Acts(tr: Trace, n: nat): seq<AuditEntry>
    requires n <= |tr|
  {
    if n == 0 then [] else Acts(tr, n - 1) + Added(tr[n - 1].entry)
  }

  lemma {:induction false} ActsListed(tr: Trace, n: nat)
    requires n <= |tr| && ValidRun(tr) && NoLoss(tr, n)
    ensures Lists(StateAt(tr, n), Acts(tr, n))
  {
    if n > 0 {
      ActsListed(tr, n - 1);
      AuditIndexExact(tr, n - 1);
      ActAt(tr, n - 1, Acts(tr, n - 1));
    }
  }

  /** The trail is the history: in every reachable state the rows the index lists are the entries of all
      steps so far, in order, if and only if none of them has been lost. */
  lemma TrailIsActs(tr: Trace, n: nat)
    requires n <= |tr| && ValidRun(tr)
    ensures Lists(StateAt(tr, n), Acts(tr, n)) <==> NoLoss(tr, n)
  {
    if i :| 0 <= i < n && LosesAt(tr, i) {
      Spoiled(tr, i, n);
      StepAt(tr, n - 1);
      SelfListed(StateAt(tr, n), Acts(tr, n));
    } else {
      ActsListed(tr, n);
    }
  }

  lemma SelfListed(s: State, entries: seq<AuditEntry>)
    requires Typed(s) && AUDIT_INDEX in Index(s, AUDIT_INDEX)
    ensures !Lists(s, entries)
  {
    assert AUDIT_INDEX in s ==> TypedRow(AUDIT_INDEX, s[AUDIT_INDEX]);
  }

  lemma ActAt(tr: Trace, i: nat, entries: seq<AuditEntry>)
    requires ValidRun(tr) && i < |tr| && !LosesAt(tr, i)
    requires Indexed(StateAt(tr, i), AUDIT_INDEX, AuditKind) && Lists(StateAt(tr, i), entries)
    ensures Lists(StateAt(tr, i + 1), entries + Added(tr[i].entry))
  {
    AuditStep(tr, i);
    TrailLists(tr[i].before, tr[i].after, tr[i].entry, entries);
  }

  /** Until an entry is lost the trail is append-only: between any two points of a run the index has only
      grown at its end, and no entry has been changed or removed. */
  lemma {:induction false} AuditAppendOnly(tr: Trace, i: nat, n: nat)
    requires i <= n <= |tr| && ValidRun(tr) && NoLoss(tr, n)
    ensures AuditExtends(StateAt(tr, i), StateAt(tr, n))
    decreases n - i
  {
    if i < n {
      AuditAppendOnly(tr, i, n - 1);
      AuditIndexExact(tr, n - 1);
      TrailAt(tr, n - 1);
      assert !LosesAt(tr, n - 1);
      ExtendsTransitive(StateAt(tr, i), StateAt(tr, n - 1), StateAt(tr, n));
    }
  }

  lemma ExtendsTransitive(s: State, t: State, u: State)
    requires AuditExtends(s, t) && AuditExtends(t, u)
    ensures AuditExtends(s, u)
  {
  }

  /** Until an entry is lost, reading the log succeeds exactly for the callers who may, and answers with
      the last thousand entries ever written, or all of them, in the order they were written. */
  lemma LogReads(tr: Trace, n: nat)
    requires ValidRun(tr) && n < |tr| && NoLoss(tr, n) && tr[n].event.Tx? && tr[n].event.req.GetAuditLog?
    ensures tr[n].after == tr[n].before
    ensures var env := tr[n].event.env;
      tr[n].outcome == if IsAdmin(env) || HasPermission(env.caller.role, ReadAudit)
                       then Ok(Log(LastEntries(Acts(tr, n)))) else Err(Unauthorized)
  {
    StepAt(tr, n);
    TrailIsActs(tr, n);
    var env := tr[n].event.env;
    if IsAdmin(env) || HasPermission(env.caller.role, ReadAudit) {
      LogMeaning(tr[n].before, env, Acts(tr, n));
    }
  }

  // ---- replay --------------------------------------------------------------------------

  predicate Kept(t: Transition)
  {
    t.event.Tx? && !(t.event.rollback && t.outcome.Err?)
  }

  /** The step used up the nonce row `key`: its nonce was accepted and its writes were kept. */
  predicate Consumes(t: Transition, key: string)
  {
    && Kept(t)
    && NonceOf(t.event.req).Some?
    && key == NonceKey(t.event.env.caller.id, NonceOf(t.event.req).value)
    && NonceError(t.before, t.event.env.caller.id, NonceOf(t.event.req).value) == None
  }

  /** The step was a successful PruneNonces with a bound above `stamp`. */
  predicate Prunes(t: Transition, stamp: int)
  {
    t.event.Tx? && t.event.req.PruneNonces? && t.outcome.Ok? && stamp < t.event.req.before
  }

  function NonceRow(s: State, key: string): Option<int>
  {
    if key in s && s[key].NonceVal? then Some(s[key].nonce.timestamp) else None
  }

  /** Carrying out a plan touches a nonce row only by pruning it. */
  lemma PlanNonceRow(s: State, env: Env, req: Request, key: string)
    requires Typed(s) && Indexed(s, NONCE_INDEX, NonceKind)
    requires KindOf(key) == NonceKind && key != NONCE_INDEX
    ensures var x := Plan(s, env, req);
      NonceRow(Settle(x), key) ==
      if req.PruneNonces? && x.outcome.Ok? && Prunable(s, key, req.before, NonceKey(env.caller.id, req.nonce))
      then None else NonceRow(s, key)
    ensures req.PruneNonces? ==> (Plan(s, env, req).outcome.Ok? <==> IsAdmin(env))
  {
    var x := Plan(s, env, req);
    SettleFrame(x, NonceKind);
    if req.PruneNonces? {
      if IsAdmin(env) {
        PruneMeaning(s, env, req.before, req.nonce);
        assert key in s ==> TypedRow(key, s[key]);
      }
    } else {
      PlanFrame(s, env, req, NonceKind);
    }
  }

  /** What one step does to one nonce row: a consumption stamps it, a prune above its stamp removes it,
      nothing else touches it. */
  lemma NonceStep(t: Transition, key: string)
    requires ValidStep(t) && Indexed(t.before, NONCE_INDEX, NonceKind)
    requires KindOf(key) == NonceKind && key != NONCE_INDEX
    ensures Consumes(t, key) ==> key !in t.before && NonceRow(t.after, key) == Some(t.event.env.seconds)
    ensures !Consumes(t, key) ==>
              (NonceRow(t.after, key) ==
               var row := NonceRow(t.before, key);
               if row.Some? && Prunes(t, row.value) then None else row)
  {
    match t.event
    case PublishRevocation(serial) => MarkFrame(t.before, serial, NonceKind);
    case Tx(env, req, _) =>
      if NonceOf(req).None? {
        PlanNonceRow(t.before, env, req, key);
      } else if NonceError(t.before, env.caller.id, NonceOf(req).value) == None {
        RecordNonceIndexed(t.before, env, NonceOf(req).value);
        PlanNonceRow(RecordNonce(t.before, env, NonceOf(req).value), env, req, key);
      }
  }

  ghost function Consumed(tr: Trace, key: string, stamp: int): nat -> bool
  {
    (i: nat) => i < |tr| && Consumes(tr[i], key) && tr[i].event.env.seconds == stamp
  }

  ghost function PrunedAbove(tr: Trace, stamp: int): nat -> bool
  {
    (i: nat) => i < |tr| && Prunes(tr[i], stamp)
  }

  /** A nonce row is present, with its timestamp, exactly when a call consumed it then and no prune
      above that time has happened since. */
  lemma {:induction false} NonceLiveness(tr: Trace, n: nat, key: string, stamp: int)
    requires n <= |tr| && ValidRun(tr) && KindOf(key) == NonceKind && key != NONCE_INDEX
    ensures NonceRow(StateAt(tr, n), key) == Some(stamp) <==> Since(Consumed(tr, key, stamp), PrunedAbove(tr, stamp), n)
  {
    if n > 0 {
      NonceLiveness(tr, n - 1, key, stamp);
      NonceIndexExact(tr, n - 1);
      StepAt(tr, n - 1);
      NonceStep(tr[n - 1], key);
    }
  }

  /** Two calls can consume the same nonce only if strictly between them a PruneNonces ran with a bound
      above the first call's timestamp. */
  lemma ReplayExcluded(tr: Trace, i: nat, j: nat, key: string)
    requires ValidRun(tr) && i < j < |tr| && Consumes(tr[i], key) && Consumes(tr[j], key)
    ensures exists m :: i < m < j && Prunes(tr[m], tr[i].event.env.seconds)
  {
    var stamp := tr[i].event.env.seconds;
    NonceLiveness(tr, j, key, stamp);
    NonceIndexExact(tr, j);
    StepAt(tr, j);
    NonceStep(tr[j], key);
    var h, k := Consumed(tr, key, stamp), PrunedAbove(tr, stamp);
    SinceMeaning(h, k, j);
    assert h(i);
    var m: nat :| i < m < j && k(m);
    assert Prunes(tr[m], stamp);
  }

  /** When a nonce is accepted: the caller and the nonce are not empty, and no consumption of its row is
      still unpruned. */
  lemma NonceAcceptance(tr: Trace, n: nat, caller: string, nonce: string)
    requires n <= |tr| && ValidRun(tr)
    ensures NonceError(StateAt(tr, n), caller, nonce) == None <==>
            (caller != "" && nonce != "" &&
             forall stamp :: !Since(Consumed(tr, NonceKey(caller, nonce), stamp), PrunedAbove(tr, stamp), n))
  {
    var s, key := StateAt(tr, n), NonceKey(caller, nonce);
    forall stamp
      ensures NonceRow(s, key) == Some(stamp) <==> Since(Consumed(tr, key, stamp), PrunedAbove(tr, stamp), n)
    {
      NonceLiveness(tr, n, key, stamp);
    }
    if n > 0 { StepAt(tr, n - 1); }
    assert key in s ==> TypedRow(key, s[key]);
    if key in s {
      assert NonceRow(s, key) == Some(s[key].nonce.timestamp);
    }
  }
}
