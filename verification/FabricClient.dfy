/** gateway/fabric_client.py: the retry loop with its backoff. */
module FabricClient {
  import opened Wrappers

  type Payload = map<string, string>

  datatype Call = Call(transaction: string, payload: Payload)

  type Answer = Result<string, string>

  /** What an invocation ends in: a value, the last error, or the failed assertion that there was one. */
  datatype Invocation = Returned(value: string) | Raised(error: string) | NothingTried

  /** The outside. Its answer may depend on everything it has been sent; it leaves payloads alone. */
  class Invoker {
    const replies: seq<Call> -> Answer
    var calls: seq<Call>

    constructor (replies: seq<Call> -> Answer)
      ensures this.replies == replies && calls == []
    {
      this.replies := replies;
      calls := [];
    }

    method Invoke(transaction: string, payload: Payload) returns (r: Answer)
      modifies this
      ensures calls == old(calls) + [Call(transaction, payload)]
      ensures r == replies(old(calls))
    {
      r := replies(calls);
      calls := calls + [Call(transaction, payload)];
    }
  }

  datatype Backoff = Backoff(initial: real, multiplier: real, maximum: real, jitter: real)

  function Min(a: real, b: real): real { if b < a then b else a }

  function Max(a: real, b: real): real { if b > a then b else a }

  function Iterate(f: real -> real, x: real, k: nat): real
  {
    if k == 0 then x else f(Iterate(f, x, k - 1))
  }

  function Scaled(b: Backoff, delay: real): real
  {
    delay * b.multiplier
  }

  function Next(b: Backoff, delay: real): real
  {
    Min(b.maximum, Scaled(b, delay))
  }

  /** How a delay grows from one failure to the next, and how it would grow without the cap. */
  function Capped(b: Backoff): real -> real
  {
    delay => Next(b, delay)
  }

  function Uncapped(b: Backoff): real -> real
  {
    delay => Scaled(b, delay)
  }

  /** The delay the loop holds after `k` failures. */
  function Delay(b: Backoff, k: nat): real
  {
    Iterate(Capped(b), b.initial, k)
  }

  /** The pause after failure number `k`, counted from 0. */
  function Pause(b: Backoff, draws: nat -> real, k: nat): real
  {
    Max(0.0, Min(b.maximum, Delay(b, k) + if b.jitter != 0.0 then draws(k) else 0.0))
  }

  function Pauses(b: Backoff, draws: nat -> real, n: int): (s: seq<real>)
  {
    seq(Size(n), k requires 0 <= k < Size(n) => Pause(b, draws, k))
  }

  function Repeat(c: Call, n: int): (s: seq<Call>)
    ensures |s| == Size(n)
  {
    if n <= 0 then [] else Repeat(c, n - 1) + [c]
  }

  lemma {:induction false} RepeatAt(c: Call, n: int, i: nat)
    requires i < |Repeat(c, n)|
    ensures Repeat(c, n)[i] == c
  {
    if i < n - 1 {
      RepeatAt(c, n - 1, i);
    }
  }

  function Size(n: int): nat { if n <= 0 then 0 else n }

  /** The first `n` attempts fail. */
  predicate AllFail(replies: seq<Call> -> Answer, before: seq<Call>, sent: Call, n: int)
  {
    forall k :: 0 <= k < n ==> replies(before + Repeat(sent, k)).Err?
  }

  /** `sent` was called until its first success or `limit` times, whichever came first, and nothing else
      was called; `r` is the last answer. */
  predicate Conducted(
    replies: seq<Call> -> Answer, before: seq<Call>, after: seq<Call>, sent: Call, limit: int, r: Invocation)
  {
    var n := |after| - |before|;
    && 0 <= n <= Size(limit)
    && after == before + Repeat(sent, n)
    && AllFail(replies, before, sent, n - 1)
    && match r
       case NothingTried => limit <= 0
       case Returned(value) => n > 0 && replies(before + Repeat(sent, n - 1)) == Ok(value)
       case Raised(error) => n > 0 && n == limit && replies(before + Repeat(sent, n - 1)) == Err(error)
  }

  /** The first `n` calls were made, and failed. */
  predicate Failing(replies: seq<Call> -> Answer, before: seq<Call>, after: seq<Call>, sent: Call, n: nat)
  {
    after == before + Repeat(sent, n) && AllFail(replies, before, sent, n)
  }

  lemma OneMore(replies: seq<Call> -> Answer, before: seq<Call>, after: seq<Call>, sent: Call, n: nat, limit: int)
    requires n < limit && after != [] && after[|after| - 1] == sent
    requires Failing(replies, before, after[..|after| - 1], sent, n)
    ensures var r := replies(after[..|after| - 1]);
      && |after| == |before| + n + 1
      && (r.Ok? ==> Conducted(replies, before, after, sent, limit, Returned(r.value)))
      && (r.Err? ==> Failing(replies, before, after, sent, n + 1))
      && (r.Err? && n + 1 == limit ==> Conducted(replies, before, after, sent, limit, Raised(r.error)))
  {
  }

  /** The pauses made so far, and the delay held. */
  predicate Paused(b: Backoff, draws: nat -> real, before: seq<real>, after: seq<real>, delay: real, n: nat)
  {
    after == before + Pauses(b, draws, n) && delay == Delay(b, n)
  }

  lemma PauseMore(b: Backoff, draws: nat -> real, before: seq<real>, after: seq<real>, delay: real, n: nat)
    requires n > 0 && after != [] && delay == Next(b, Delay(b, n - 1))
    requires Paused(b, draws, before, after[..|after| - 1], Delay(b, n - 1), n - 1)
    requires after[|after| - 1] == Pause(b, draws, n - 1)
    ensures Paused(b, draws, before, after, delay, n)
  {
  }

  class FabricClient {
    const invoker: Invoker
    const backoff: Backoff
    const maxAttempts: int
    var fixedNonce: string
    var sleeps: seq<real>

    constructor (invoker: Invoker, backoff: Backoff, maxAttempts: int)
      ensures this.invoker == invoker && this.backoff == backoff && this.maxAttempts == maxAttempts
      ensures fixedNonce == "" && sleeps == []
    {
      this.invoker, this.backoff, this.maxAttempts := invoker, backoff, maxAttempts;
      fixedNonce, sleeps := "", [];
    }

    /** A fixed nonce, unless it is empty; otherwise the fresh identifier. */
    function NewNonce(uuid: string): (nonce: string)
      reads this
      ensures nonce == "" <==> fixedNonce == uuid == ""
      ensures fixedNonce != "" ==> nonce == fixedNonce
      ensures fixedNonce == "" ==> nonce == uuid
    {
      if fixedNonce != "" then fixedNonce else uuid
    }

    /** A caller that brings its own nonce has put it into the payload already. */
    function Request(payload: Payload, addNonce: bool, uuid: string): (request: Payload)
      reads this
      ensures request - {"nonce"} == payload - {"nonce"} && (!addNonce ==> request == payload)
      ensures addNonce ==> "nonce" in request && request["nonce"] == NewNonce(uuid)
    {
      if addNonce then payload["nonce" := NewNonce(uuid)] else payload
    }

    /** Sends one payload, with one nonce, until the first success, pausing only between attempts. */
    method Invoke(transaction: string, payload: Payload, addNonce: bool, uuid: string, draws: nat -> real)
      returns (r: Invocation)
      modifies this`sleeps, invoker
      ensures Conducted(invoker.replies, old(invoker.calls), invoker.calls,
                        Call(transaction, old(Request(payload, addNonce, uuid))), maxAttempts, r)
      ensures sleeps == old(sleeps) + Pauses(backoff, draws, |invoker.calls| - |old(invoker.calls)| - 1)
    {
      var request := Request(payload, addNonce, uuid);
      var delay := backoff.initial;
      var lastError: Option<string> := None;
      ghost var before, sent, slept := invoker.calls, Call(transaction, request), sleeps;
      var attempt := 1;
      while attempt <= maxAttempts
        invariant 1 <= attempt && (attempt == 1 || attempt <= maxAttempts)
        invariant Failing(invoker.replies, before, invoker.calls, sent, attempt - 1)
        invariant Paused(backoff, draws, slept, sleeps, delay, attempt - 1)
        invariant attempt == 1 ==> lastError == None
      {
        var reply := invoker.Invoke(transaction, request);
        OneMore(invoker.replies, before, invoker.calls, sent, attempt - 1, maxAttempts);
        if reply.Ok? {
          return Returned(reply.value);
        }
        lastError := Some(reply.error);
        if attempt >= maxAttempts {
          break;
        }
        var jitterDelta := if backoff.jitter != 0.0 then draws(attempt - 1) else 0.0;
        sleeps := sleeps + [Max(0.0, Min(backoff.maximum, delay + jitterDelta))];
        delay := Next(backoff, delay);
        attempt := attempt + 1;
        PauseMore(backoff, draws, slept, sleeps, delay, attempt - 1);
      }
      return if lastError == None then NothingTried else Raised(lastError.value);
    }
  }

  // ---- the loop ------------------------------------------------------------------------

  /** The contract of Invoke leaves no freedom: calls and result are determined by the invoker. */
  lemma ConductedOnce(replies: seq<Call> -> Answer, before: seq<Call>, a: seq<Call>, b: seq<Call>,
                      sent: Call, limit: int, r: Invocation, q: Invocation)
    requires Conducted(replies, before, a, sent, limit, r) && Conducted(replies, before, b, sent, limit, q)
    ensures a == b && r == q
  {
  }

  /** Exponential backoff: min(maximum, initial * multiplier^k). */
  function Exponential(b: Backoff, k: nat): real
  {
    Min(b.maximum, Iterate(Uncapped(b), b.initial, k))
  }

  ghost predicate ExponentialPauses(b: Backoff)
  {
    forall k: nat :: Pause(b, _ => 0.0, k) == Exponential(b, k)
  }

  /** A relation that one step of each keeps holds all along. */
  lemma {:induction false} IterateRelated(
    f: real -> real, g: real -> real, x: real, related: (real, real) -> bool, k: nat)
    requires related(x, x)
    requires forall d, e :: related(d, e) ==> related(f(d), g(e))
    ensures related(Iterate(f, x, k), Iterate(g, x, k))
  {
    if k > 0 {
      IterateRelated(f, g, x, related, k - 1);
    }
  }

  /** With a multiplier of at least one, a delay at the cap stays there. */
  lemma DelayRising(b: Backoff, k: nat)
    requires 0.0 <= b.initial && 0.0 <= b.maximum && 1.0 <= b.multiplier
    ensures 0.0 <= Min(b.maximum, Delay(b, k)) == Exponential(b, k)
  {
    var related := (d: real, e: real) => 0.0 <= d && 0.0 <= e && Min(b.maximum, d) == Min(b.maximum, e);
    forall d, e | related(d, e) ensures related(Capped(b)(d), Uncapped(b)(e)) {
      RisingStep(b, d, e);
    }
    IterateRelated(Capped(b), Uncapped(b), b.initial, related, k);
  }

  /** A delay that never rises is never capped. */
  lemma DelayFalling(b: Backoff, k: nat)
    requires 0.0 <= b.initial && 0.0 <= b.multiplier < 1.0 && b.initial * b.multiplier <= b.maximum
    ensures 0.0 <= Min(b.maximum, Delay(b, k)) == Exponential(b, k)
  {
    var related := (d: real, e: real) => 0.0 <= d <= b.initial && d == e;
    forall d, e | related(d, e) ensures related(Capped(b)(d), Uncapped(b)(e)) {
      CappedFalling(b, d);
    }
    IterateRelated(Capped(b), Uncapped(b), b.initial, related, k);
  }

  lemma RisingStep(b: Backoff, d: real, e: real)
    requires 0.0 <= d && 0.0 <= e && 0.0 <= b.maximum && 1.0 <= b.multiplier && Min(b.maximum, d) == Min(b.maximum, e)
    ensures 0.0 <= Scaled(b, e) && 0.0 <= Next(b, d) == Min(b.maximum, Scaled(b, e))
  {
    Stretched(d, b.multiplier);
    Stretched(e, b.multiplier);
  }

  lemma Stretched(x: real, m: real)
    requires 0.0 <= x && 1.0 <= m
    ensures x <= x * m
  {
  }

  lemma CappedFalling(b: Backoff, d: real)
    requires 0.0 <= b.multiplier < 1.0 && b.initial * b.multiplier <= b.maximum && 0.0 <= d <= b.initial
    ensures Capped(b)(d) == Uncapped(b)(d) && 0.0 <= Capped(b)(d) <= b.initial
  {
    FallingStep(d, b.initial, b.multiplier);
  }

  lemma FallingStep(d: real, x: real, m: real)
    requires 0.0 <= d <= x && 0.0 <= m < 1.0
    ensures 0.0 <= d * m <= d && d * m <= x * m
  {
  }

  /** Without jitter the pauses follow min(maximum, initial * multiplier^k) exactly when the multiplier
      is at least one, or the first step already stays below the cap. */
  lemma BackoffExact(b: Backoff)
    requires b.jitter == 0.0 && 0.0 <= b.initial && 0.0 <= b.multiplier && 0.0 < b.maximum
    ensures ExponentialPauses(b) <==> 1.0 <= b.multiplier || b.initial * b.multiplier <= b.maximum
  {
    if 1.0 <= b.multiplier {
      forall k: nat ensures Pause(b, _ => 0.0, k) == Exponential(b, k) {
        DelayRising(b, k);
      }
    } else if b.initial * b.multiplier <= b.maximum {
      forall k: nat ensures Pause(b, _ => 0.0, k) == Exponential(b, k) {
        DelayFalling(b, k);
      }
    } else {
      CappedTooSoon(b);
    }
  }

  /** Otherwise the cap is applied too soon, and the third pause is already too short. */
  lemma CappedTooSoon(b: Backoff)
    requires b.jitter == 0.0 && 0.0 < b.maximum && 0.0 <= b.multiplier < 1.0 && b.maximum < b.initial * b.multiplier
    ensures Pause(b, _ => 0.0, 2) < Exponential(b, 2)
  {
    assert b.multiplier != 0.0;
    var y := Scaled(b, b.initial);
    TooSoon(b, y);
    Twice(Capped(b), b.initial, b.maximum, Scaled(b, b.maximum));
    Twice(Uncapped(b), b.initial, y, Scaled(b, y));
  }

  lemma Twice(f: real -> real, x: real, y: real, z: real)
    requires f(x) == y && f(y) == z
    ensures Iterate(f, x, 2) == z
  {
    assert Iterate(f, x, 1) == f(Iterate(f, x, 0));
  }

  lemma TooSoon(b: Backoff, y: real)
    requires 0.0 < b.maximum < y && 0.0 < b.multiplier < 1.0
    ensures 0.0 <= Scaled(b, b.maximum) < b.maximum && Scaled(b, b.maximum) < Scaled(b, y)
  {
    Shrunk(b, b.maximum);
    Ordered(b, b.maximum, y);
  }

  lemma Shrunk(b: Backoff, x: real)
    requires 0.0 < x && 0.0 < b.multiplier < 1.0
    ensures 0.0 <= Scaled(b, x) < x
  {
  }

  lemma Ordered(b: Backoff, x: real, y: real)
    requires x < y && 0.0 < b.multiplier
    ensures Scaled(b, x) < Scaled(b, y)
  {
    assert Scaled(b, y) - Scaled(b, x) == (y - x) * b.multiplier;
  }

  /** Where neither bound bites, the pause is the delay and the draw. */
  lemma JitterAdded(b: Backoff, draws: nat -> real, k: nat)
    requires b.jitter != 0.0 && 0.0 <= Delay(b, k) + draws(k) <= b.maximum
    ensures Pause(b, draws, k) == Delay(b, k) + draws(k)
  {
  }

  /** Jitter moves a pause by at most its own size, and never below zero or above the cap. */
  lemma JitterBounded(b: Backoff, draws: nat -> real, k: nat)
    requires 0.0 <= b.maximum && 0.0 <= b.jitter && forall i: nat :: -b.jitter <= draws(i) <= b.jitter
    ensures var still := Pause(b.(jitter := 0.0), draws, k);
      && 0.0 <= Pause(b, draws, k) <= b.maximum
      && still - b.jitter <= Pause(b, draws, k) <= still + b.jitter
  {
    var still := b.(jitter := 0.0);
    IterateRelated(Capped(still), Capped(b), b.initial, (d: real, e: real) => d == e, k);
  }
}
