/** What the retry loop's single nonce means to the ledger. */
module Retries {
  import opened Wrappers
  import opened Ledger
  import opened Transactions
  import opened LedgerRuns
  import opened FabricClient

  /** This transaction carries the nonce of this call, under this caller. */
  predicate Carries(t: Transition, c: Call, caller: string)
  {
    && t.event.Tx?
    && t.event.env.caller.id == caller
    && "nonce" in c.payload
    && NonceOf(t.event.req) == Some(c.payload["nonce"])
  }

  /** Once a call has consumed its nonce, every later transaction that carries the same nonce under the
      same caller is refused as a replay and leaves the ledger as it was, unless a prune has dropped the
      nonce in between. */
  lemma SameNonceRefused(tr: Trace, caller: string, first: Call, later: Call, i: nat, j: nat)
    requires ValidRun(tr) && i < j < |tr|
    requires Carries(tr[i], first, caller) && Carries(tr[j], later, caller)
    requires first.payload["nonce"] == later.payload["nonce"]
    requires Consumes(tr[i], NonceKey(caller, first.payload["nonce"]))
    requires forall m :: i < m < j ==> !Prunes(tr[m], tr[i].event.env.seconds)
    ensures tr[j].outcome == Err(ReplayDetected) && tr[j].after == tr[j].before
  {
    var nonce, stamp := later.payload["nonce"], tr[i].event.env.seconds;
    var key := NonceKey(caller, nonce);
    StepAt(tr, j);
    NonceAcceptance(tr, j, caller, nonce);
    var h, k := Consumed(tr, key, stamp), PrunedAbove(tr, stamp);
    SinceMeaning(h, k, j);
    assert h(i);
    assert Since(h, k, j);
    assert NonceError(tr[j].before, caller, nonce) == Some(ReplayDetected);
  }

  /** However often the attempts of one invocation reach the ledger, and in whatever order: once one of
      them has consumed the nonce, every later one is refused. */
  lemma LaterAttemptRefused(
    replies: seq<Call> -> Answer, before: seq<Call>, after: seq<Call>, sent: Call, limit: int, r: Invocation,
    tr: Trace, caller: string, a: nat, b: nat, i: nat, j: nat)
    requires Conducted(replies, before, after, sent, limit, r)
    requires |before| <= a < |after| && |before| <= b < |after|
    requires ValidRun(tr) && i < j < |tr|
    requires Carries(tr[i], after[a], caller) && Carries(tr[j], after[b], caller)
    requires Consumes(tr[i], NonceKey(caller, after[a].payload["nonce"]))
    requires forall m :: i < m < j ==> !Prunes(tr[m], tr[i].event.env.seconds)
    ensures tr[j].outcome == Err(ReplayDetected) && tr[j].after == tr[j].before
  {
    RepeatAt(sent, |after| - |before|, a - |before|);
    RepeatAt(sent, |after| - |before|, b - |before|);
    SameNonceRefused(tr, caller, sent, sent, i, j);
  }

  /** So two attempts of one invocation can both take effect only if a prune above the earlier one's time
      lies strictly between them. */
  lemma AtMostOneAttempt(
    replies: seq<Call> -> Answer, before: seq<Call>, after: seq<Call>, sent: Call, limit: int, r: Invocation,
    tr: Trace, caller: string, a: nat, b: nat, i: nat, j: nat)
    requires Conducted(replies, before, after, sent, limit, r)
    requires |before| <= a < |after| && |before| <= b < |after|
    requires ValidRun(tr) && i < j < |tr|
    requires Carries(tr[i], after[a], caller) && Carries(tr[j], after[b], caller)
    requires Consumes(tr[i], NonceKey(caller, after[a].payload["nonce"]))
    requires Consumes(tr[j], NonceKey(caller, after[b].payload["nonce"]))
    ensures exists m :: i < m < j && Prunes(tr[m], tr[i].event.env.seconds)
  {
    RepeatAt(sent, |after| - |before|, a - |before|);
    RepeatAt(sent, |after| - |before|, b - |before|);
    ReplayExcluded(tr, i, j, NonceKey(caller, sent.payload["nonce"]));
  }

  /** What a fixed nonce is for: under it, whatever is invoked after a call that consumed it is refused,
      whichever transaction and payload it carries and whatever fresh identifier was at hand. */
  lemma FixedNonceRefused(
    client: FabricClient, transaction: string, payload: Payload, uuid: string,
    transaction': string, payload': Payload, uuid': string, tr: Trace, caller: string, i: nat, j: nat)
    requires client.fixedNonce != ""
    requires ValidRun(tr) && i < j < |tr|
    requires Carries(tr[i], Call(transaction, client.Request(payload, true, uuid)), caller)
    requires Carries(tr[j], Call(transaction', client.Request(payload', true, uuid')), caller)
    requires Consumes(tr[i], NonceKey(caller, client.fixedNonce))
    requires forall m :: i < m < j ==> !Prunes(tr[m], tr[i].event.env.seconds)
    ensures tr[j].outcome == Err(ReplayDetected) && tr[j].after == tr[j].before
  {
    var first := Call(transaction, client.Request(payload, true, uuid));
    var later := Call(transaction', client.Request(payload', true, uuid'));
    SameNonceRefused(tr, caller, first, later, i, j);
  }
}
