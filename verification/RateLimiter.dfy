/** gateway/enrollment_server.py: the sliding-window limit on enrollment attempts. */
module RateLimiter {

  const ENROLL_LIMIT := 10
  const ENROLL_WINDOW_SECONDS := 3600.0

  /** The deque after the attempts that have left the window have been popped from its front. */
  function Popped(attempts: seq<real>, now: real): seq<real>
  {
    if attempts != [] && now - attempts[0] >= ENROLL_WINDOW_SECONDS then Popped(attempts[1..], now) else attempts
  }

  predicate Limited(attempts: seq<real>, now: real)
  {
    |Popped(attempts, now)| >= ENROLL_LIMIT
  }

  function Attempted(attempts: seq<real>, now: real): seq<real>
  {
    if Limited(attempts, now) then Popped(attempts, now) else Popped(attempts, now) + [now]
  }

  /** One deque per caller; a caller not yet seen has an empty one. */
  type Deques = map<string, seq<real>>

  function DequeOf(deques: Deques, identity: string): seq<real>
  {
    if identity in deques then deques[identity] else []
  }

  class EnrollmentLimiter {
    var attempts: Deques

    constructor ()
      ensures attempts == map[]
    {
      attempts := map[];
    }

    /** One attempt: pops, decides and possibly records, for this caller only. */
    method RateLimited(identity: string, now: real) returns (limited: bool)
      modifies this
      ensures limited <==> Limited(DequeOf(old(attempts), identity), now)
      ensures attempts == old(attempts)[identity := Attempted(DequeOf(old(attempts), identity), now)]
    {
      var queue := DequeOf(attempts, identity);
      while queue != [] && now - queue[0] >= ENROLL_WINDOW_SECONDS
        invariant Popped(queue, now) == Popped(DequeOf(old(attempts), identity), now)
      {
        queue := queue[1..];
      }
      limited := |queue| >= ENROLL_LIMIT;
      if !limited {
        queue := queue + [now];
      }
      attempts := attempts[identity := queue];
    }
  }

  // ---- one caller's history ------------------------------------------------------------

  /** A non-decreasing clock. */
  predicate Sorted(times: seq<real>)
  {
    forall i, j :: 0 <= i < j < |times| ==> times[i] <= times[j]
  }

  /** The deque after the first `n` attempts. */
  function QueueAfter(times: seq<real>, n: nat): seq<real>
    requires n <= |times|
  {
    if n == 0 then [] else Attempted(QueueAfter(times, n - 1), times[n - 1])
  }

  /** The times of the accepted ones among the first `n` attempts, kept forever. */
  function Accepted(times: seq<real>, n: nat): seq<real>
    requires n <= |times|
  {
    if n == 0 then [] else
      var before := Accepted(times, n - 1);
      if Limited(QueueAfter(times, n - 1), times[n - 1]) then before else before + [times[n - 1]]
  }

  /** The naive count: how many of the times lie less than a window before `now`. */
  function Within(times: seq<real>, now: real, window: real): (n: nat)
    ensures n <= |times|
  {
    if times == [] then 0 else
      var last := |times| - 1;
      Within(times[..last], now, window) + if now - times[last] < window then 1 else 0
  }

  function Recent(times: seq<real>, now: real): (n: nat)
    ensures n <= |times|
  {
    Within(times, now, ENROLL_WINDOW_SECONDS)
  }

  lemma {:induction false} RecentConcat(a: seq<real>, b: seq<real>, now: real)
    ensures Recent(a + b, now) == Recent(a, now) + Recent(b, now)
  {
    if b == [] {
      assert a + b == a;
    } else {
      var last := |b| - 1;
      assert (a + b)[..|a + b| - 1] == a + b[..last];
      RecentConcat(a, b[..last], now);
    }
  }

  lemma {:induction false} RecentAll(a: seq<real>, now: real, recent: bool)
    requires forall i :: 0 <= i < |a| ==> ((now - a[i] < ENROLL_WINDOW_SECONDS) <==> recent)
    ensures Recent(a, now) == if recent then |a| else 0
  {
    if a != [] {
      RecentAll(a[..|a| - 1], now, recent);
    }
  }

  /** Popping a sorted history leaves exactly its recent part. */
  lemma {:induction false} PoppedRecent(a: seq<real>, now: real)
    requires Sorted(a)
    ensures |Popped(a, now)| == Recent(a, now)
  {
    if a != [] && now - a[0] >= ENROLL_WINDOW_SECONDS {
      PoppedRecent(a[1..], now);
      RecentConcat([a[0]], a[1..], now);
      RecentAll([a[0]], now, false);
      assert [a[0]] + a[1..] == a;
    } else {
      RecentAll(a, now, true);
    }
  }

  lemma {:induction false} PoppedAppend(a: seq<real>, x: real, now: real)
    ensures Popped(a + [x], now) == if Popped(a, now) == [] then Popped([x], now) else Popped(a, now) + [x]
  {
    if a == [] {
      assert a + [x] == [x];
    } else if now - a[0] >= ENROLL_WINDOW_SECONDS {
      assert (a + [x])[1..] == a[1..] + [x];
      PoppedAppend(a[1..], x, now);
    }
  }

  /** What was popped earlier would be popped now. */
  lemma {:induction false} PoppedTwice(a: seq<real>, earlier: real, now: real)
    requires earlier <= now
    ensures Popped(Popped(a, earlier), now) == Popped(a, now)
  {
    if a != [] && earlier - a[0] >= ENROLL_WINDOW_SECONDS {
      PoppedTwice(a[1..], earlier, now);
    }
  }

  /** The deque is as good as the full accepted history: popping either at a later time gives the same. */
  lemma {:induction false} HistoryRemembered(times: seq<real>, n: nat, now: real)
    requires Sorted(times) && n <= |times| && (n > 0 ==> times[n - 1] <= now)
    ensures Popped(QueueAfter(times, n), now) == Popped(Accepted(times, n), now)
  {
    if n > 0 {
      var queue, acc, t := QueueAfter(times, n - 1), Accepted(times, n - 1), times[n - 1];
      HistoryRemembered(times, n - 1, now);
      PoppedTwice(queue, t, now);
      PoppedAppend(Popped(queue, t), t, now);
      PoppedAppend(acc, t, now);
    }
  }

  lemma {:induction false} AcceptedSorted(times: seq<real>, n: nat)
    requires Sorted(times) && n <= |times|
    ensures Sorted(Accepted(times, n))
    ensures forall j :: 0 <= j < |Accepted(times, n)| ==> n > 0 && Accepted(times, n)[j] <= times[n - 1]
  {
    if n > 0 {
      AcceptedSorted(times, n - 1);
    }
  }

  /** With a non-decreasing clock an attempt is refused exactly when the full history of accepted
      attempts already has ten in the last window. */
  lemma RefusedExactly(times: seq<real>, n: nat)
    requires Sorted(times) && n < |times|
    ensures Limited(QueueAfter(times, n), times[n]) <==> Within(Accepted(times, n), times[n], 3600.0) >= 10
  {
    HistoryRemembered(times, n, times[n]);
    AcceptedSorted(times, n);
    PoppedRecent(Accepted(times, n), times[n]);
  }

  /** The last ten of a sorted history being recent makes ten recent ones. */
  lemma LastTenRecent(acc: seq<real>, now: real)
    requires Sorted(acc) && |acc| >= ENROLL_LIMIT && now - acc[|acc| - ENROLL_LIMIT] < ENROLL_WINDOW_SECONDS
    ensures Recent(acc, now) >= ENROLL_LIMIT
  {
    var i := |acc| - ENROLL_LIMIT;
    assert acc == acc[..i] + acc[i..];
    RecentConcat(acc[..i], acc[i..], now);
    RecentAll(acc[i..], now, true);
  }

  predicate Spaced(acc: seq<real>)
  {
    forall i :: 0 <= i < |acc| - ENROLL_LIMIT ==> SpacedAt(acc, i)
  }

  predicate SpacedAt(acc: seq<real>, i: nat)
    requires i < |acc| - ENROLL_LIMIT
  {
    acc[i + ENROLL_LIMIT] - acc[i] >= ENROLL_WINDOW_SECONDS
  }

  lemma SpacedNext(acc: seq<real>, now: real)
    requires Sorted(acc) && Spaced(acc) && Recent(acc, now) < ENROLL_LIMIT
    ensures Spaced(acc + [now])
  {
    var next := acc + [now];
    forall i | 0 <= i < |next| - ENROLL_LIMIT ensures SpacedAt(next, i) {
      if i < |acc| - ENROLL_LIMIT {
        assert SpacedAt(acc, i);
      } else if now - acc[i] < ENROLL_WINDOW_SECONDS {
        LastTenRecent(acc, now);
      }
    }
  }

  /** Any eleven consecutive accepted attempts span at least a window. */
  lemma {:induction false} SpacedOut(times: seq<real>, n: nat)
    requires Sorted(times) && n <= |times|
    ensures Spaced(Accepted(times, n))
  {
    if n > 0 {
      SpacedOut(times, n - 1);
      RefusedExactly(times, n - 1);
      AcceptedSorted(times, n - 1);
      if Recent(Accepted(times, n - 1), times[n - 1]) < ENROLL_LIMIT {
        SpacedNext(Accepted(times, n - 1), times[n - 1]);
      }
    }
  }

  // ---- runs of all callers -------------------------------------------------------------

  datatype Attempt = Attempt(identity: string, time: real)

  predicate InOrder(run: seq<Attempt>)
  {
    forall i, j :: 0 <= i < j < |run| ==> run[i].time <= run[j].time
  }

  /** The deques after the first `n` attempts of all callers. */
  function DequesAfter(run: seq<Attempt>, n: nat): Deques
    requires n <= |run|
  {
    if n == 0 then map[] else
      var deques, a := DequesAfter(run, n - 1), run[n - 1];
      deques[a.identity := Attempted(DequeOf(deques, a.identity), a.time)]
  }

  predicate RefusedAt(run: seq<Attempt>, i: nat)
    requires i < |run|
  {
    Limited(DequeOf(DequesAfter(run, i), run[i].identity), run[i].time)
  }

  /** The times of the attempts of one caller that the run accepted. */
  function AcceptedOf(run: seq<Attempt>, n: nat, identity: string): seq<real>
    requires n <= |run|
  {
    if n == 0 then [] else
      AcceptedOf(run, n - 1, identity) +
      if run[n - 1].identity == identity && !RefusedAt(run, n - 1) then [run[n - 1].time] else []
  }

  function TimesOf(run: seq<Attempt>, n: nat, identity: string): seq<real>
    requires n <= |run|
  {
    if n == 0 then [] else
      TimesOf(run, n - 1, identity) + if run[n - 1].identity == identity then [run[n - 1].time] else []
  }

  lemma {:induction false} LongerHistory(times: seq<real>, x: real, n: nat)
    requires n <= |times|
    ensures QueueAfter(times + [x], n) == QueueAfter(times, n) && Accepted(times + [x], n) == Accepted(times, n)
  {
    if n > 0 {
      LongerHistory(times, x, n - 1);
    }
  }

  lemma NextInHistory(times: seq<real>, x: real)
    ensures var queue, next := QueueAfter(times, |times|), times + [x];
      && QueueAfter(next, |next|) == Attempted(queue, x)
      && Accepted(next, |next|) == Accepted(times, |times|) + if Limited(queue, x) then [] else [x]
  {
    LongerHistory(times, x, |times|);
  }

  /** Callers do not disturb each other: each one's deque and accepted attempts are what its own attempts
      alone would have led to. */
  lemma {:induction false} OwnHistory(run: seq<Attempt>, n: nat, identity: string)
    requires n <= |run|
    ensures var times := TimesOf(run, n, identity);
      && DequeOf(DequesAfter(run, n), identity) == QueueAfter(times, |times|)
      && AcceptedOf(run, n, identity) == Accepted(times, |times|)
  {
    if n > 0 {
      OwnHistory(run, n - 1, identity);
      var before := TimesOf(run, n - 1, identity);
      if run[n - 1].identity == identity {
        NextInHistory(before, run[n - 1].time);
        assert TimesOf(run, n, identity) == before + [run[n - 1].time];
      } else {
        assert TimesOf(run, n, identity) == before;
      }
    }
  }

  lemma {:induction false} TimesSorted(run: seq<Attempt>, n: nat, identity: string)
    requires InOrder(run) && n <= |run|
    ensures Sorted(TimesOf(run, n, identity))
    ensures forall j :: 0 <= j < |TimesOf(run, n, identity)| ==>
              n > 0 && TimesOf(run, n, identity)[j] <= run[n - 1].time
  {
    if n > 0 {
      TimesSorted(run, n - 1, identity);
    }
  }

  /** In a run of all callers on a non-decreasing clock an attempt is refused exactly when ten attempts of
      the same caller have been accepted in the last window. */
  lemma RefusedInRun(run: seq<Attempt>, n: nat)
    requires InOrder(run) && n < |run|
    ensures RefusedAt(run, n) <==> Within(AcceptedOf(run, n, run[n].identity), run[n].time, 3600.0) >= 10
  {
    var before := TimesOf(run, n, run[n].identity);
    OwnHistory(run, n, run[n].identity);
    TimesSorted(run, n, run[n].identity);
    LongerHistory(before, run[n].time, |before|);
    RefusedExactly(before + [run[n].time], |before|);
  }

  /** And no window of 3600 seconds, wherever it starts, holds more than ten accepted attempts of any caller. */
  lemma AtMostTenPerWindow(run: seq<Attempt>, n: nat, identity: string, a: nat, b: nat)
    requires InOrder(run) && n <= |run|
    requires a < b <= |AcceptedOf(run, n, identity)|
    requires AcceptedOf(run, n, identity)[b - 1] - AcceptedOf(run, n, identity)[a] < 3600.0
    ensures b - a <= 10
  {
    var times, acc := TimesOf(run, n, identity), AcceptedOf(run, n, identity);
    OwnHistory(run, n, identity);
    TimesSorted(run, n, identity);
    SpacedOut(times, |times|);
    AcceptedSorted(times, |times|);
    assert a + ENROLL_LIMIT < b ==> SpacedAt(acc, a);
  }
}
