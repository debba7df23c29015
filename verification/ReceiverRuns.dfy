/** Whole runs of the receiver: several source threads, each running the locked section of
    `process_packet` and, later and without the lock, the put on the output queue. Packets may be
    lost, repeated and reordered, and expiry sweeps and consumers may come in between. */
module ReceiverRuns {
  import opened Wrappers
  import opened Crt
  import opened CrtCodec
  import opened Receiver

  /** `emitted` lists every reading ever queued; the queue is what has not been taken of it. */
  datatype Rx = Rx(table: Table, inFlight: map<nat, SensorReading>, emitted: seq<SensorReading>, taken: nat)

  datatype Event =
    | Lock(thread: nat, packet: Packet, sweep: real, now: real)
    | Queue(thread: nat)
    | Sweep(sweep: real)
    | Take

  const EMPTY := Rx(Table(map[], {}), map[], [], 0)

  /** One scheduling step. A thread that still has a reading to queue cannot take another packet. */
  ghost function Step(s: Rx, e: Event, timeout: real): Rx
  {
    match e
    case Lock(th, p, sweep, now) =>
      if th in s.inFlight || PacketModulus(p).Err? then s else
        var (table, out) := Locked(s.table, p, PacketModulus(p).value, sweep, now, timeout);
        if out.Ok? && out.value.Some?
        then s.(table := table, inFlight := s.inFlight[th := out.value.value])
        else s.(table := table)
    case Queue(th) =>
      if th in s.inFlight
      then s.(inFlight := s.inFlight - {th}, emitted := s.emitted + [s.inFlight[th]])
      else s
    case Sweep(now) => s.(table := Table(Unexpired(s.table.open, now, timeout), s.table.assembled))
    case Take => if s.taken < |s.emitted| then s.(taken := s.taken + 1) else s
  }

  /** A run: the states it passes through, one more than its events. */
  datatype Trace = Trace(events: seq<Event>, states: seq<Rx>, timeout: real)

  /** Event `i` leads from state `i` to the next. */
  ghost predicate Follows(tr: Trace, i: nat)
    requires i < |tr.events| && |tr.states| == |tr.events| + 1
  {
    tr.states[i + 1] == Step(tr.states[i], tr.events[i], tr.timeout)
  }

  ghost predicate Valid(tr: Trace)
  {
    && |tr.states| == |tr.events| + 1 && tr.states[0] == EMPTY
    && forall i {:trigger Follows(tr, i)} :: 0 <= i < |tr.events| ==> Follows(tr, i)
  }

  /** Every sequence of events has its run. */
  lemma {:induction false} HasTrace(events: seq<Event>, timeout: real) returns (tr: Trace)
    ensures Valid(tr) && tr.events == events && tr.timeout == timeout
  {
    if events == [] {
      tr := Trace([], [EMPTY], timeout);
    } else {
      var n := |events| - 1;
      var before := HasTrace(events[..n], timeout);
      tr := Trace(events, before.states + [Step(before.states[n], events[n], timeout)], timeout);
      forall i | 0 <= i < |tr.events| ensures Follows(tr, i) {
        if i < n {
          assert Follows(before, i);
        }
      }
    }
  }

  // ---- at most once --------------------------------------------------------------------

  ghost predicate DistinctKeys(s: Rx)
  {
    && (forall i, j :: 0 <= i < j < |s.emitted| ==> s.emitted[i].key != s.emitted[j].key)
    && (forall a, b :: a in s.inFlight && b in s.inFlight && a != b ==> s.inFlight[a].key != s.inFlight[b].key)
    && (forall a, i :: a in s.inFlight && 0 <= i < |s.emitted| ==> s.inFlight[a].key != s.emitted[i].key)
  }

  ghost predicate Accounted(s: Rx)
  {
    && (forall a :: a in s.inFlight ==> s.inFlight[a].key in s.table.assembled)
    && (forall i :: 0 <= i < |s.emitted| ==> s.emitted[i].key in s.table.assembled)
    && (forall k :: k in s.table.assembled ==> Carried(s, k))
  }

  /** Some reading of this key is in flight or emitted. */
  ghost predicate Carried(s: Rx, k: Key)
  {
    || (exists a :: a in s.inFlight && s.inFlight[a].key == k)
    || (exists i :: 0 <= i < |s.emitted| && s.emitted[i].key == k)
  }

  ghost predicate Sound(s: Rx)
  {
    GoodTable(s.table) && DistinctKeys(s) && Accounted(s) && s.taken <= |s.emitted|
  }

  /** A new reading in flight, under a key that was not assembled. */
  lemma LaunchAccounted(s: Rx, s': Rx, th: nat, r: SensorReading)
    requires DistinctKeys(s) && Accounted(s) && th !in s.inFlight && r.key !in s.table.assembled
    requires s'.inFlight == s.inFlight[th := r] && s'.emitted == s.emitted
    requires s'.table.assembled == s.table.assembled + {r.key}
    ensures DistinctKeys(s') && Accounted(s')
  {
    forall k | k in s'.table.assembled ensures Carried(s', k) {
      if k == r.key {
        assert th in s'.inFlight && s'.inFlight[th].key == k;
      } else {
        assert Carried(s, k);
        if a :| a in s.inFlight && s.inFlight[a].key == k {
          assert a in s'.inFlight && s'.inFlight[a].key == k;
        }
      }
    }
  }

  /** A reading in flight is queued. */
  lemma LandAccounted(s: Rx, s': Rx, th: nat)
    requires Accounted(s) && th in s.inFlight && s'.table == s.table
    requires s'.inFlight == s.inFlight - {th} && s'.emitted == s.emitted + [s.inFlight[th]]
    ensures Accounted(s')
  {
    forall k | k in s'.table.assembled ensures Carried(s', k) {
      assert Carried(s, k);
      if a :| a in s.inFlight && s.inFlight[a].key == k {
        if a == th {
          assert s'.emitted[|s.emitted|].key == k;
        } else {
          assert a in s'.inFlight && s'.inFlight[a].key == k;
        }
      } else {
        var i :| 0 <= i < |s.emitted| && s.emitted[i].key == k;
        assert s'.emitted[i].key == k;
      }
    }
  }

  lemma LockSound(s: Rx, e: Event, timeout: real)
    requires Sound(s) && e.Lock?
    ensures Sound(Step(s, e, timeout))
  {
    if e.thread !in s.inFlight && PacketModulus(e.packet).Ok? {
      var m := PacketModulus(e.packet).value;
      var (table, out) := Locked(s.table, e.packet, m, e.sweep, e.now, timeout);
      LockedKeepsGood(s.table, e.packet, m, e.sweep, e.now, timeout);
      if out.Ok? && out.value.Some? {
        LaunchAccounted(s, Step(s, e, timeout), e.thread, out.value.value);
      } else {
        assert forall k :: Carried(s, k) ==> Carried(Step(s, e, timeout), k);
      }
    }
  }

  lemma QueueSound(s: Rx, e: Event, timeout: real)
    requires Sound(s) && e.Queue?
    ensures Sound(Step(s, e, timeout))
  {
    if e.thread in s.inFlight {
      LandAccounted(s, Step(s, e, timeout), e.thread);
    }
  }

  /** Under any interleaving, the readings queued so far and those still in flight have pairwise
      distinct keys, and those keys are exactly the assembled ones: nothing is emitted twice or lost. */
  lemma {:induction false} AtMostOnce(tr: Trace, n: nat)
    requires Valid(tr) && n <= |tr.events|
    ensures Sound(tr.states[n])
  {
    if n > 0 {
      AtMostOnce(tr, n - 1);
      assert Follows(tr, n - 1);
      var s, e := tr.states[n - 1], tr.events[n - 1];
      match e
      case Lock(_, _, _, _) => LockSound(s, e, tr.timeout);
      case Queue(_) => QueueSound(s, e, tr.timeout);
      case Sweep(_) =>
      case Take =>
    }
  }

  // ---- end to end ----------------------------------------------------------------------

  /** The thread is free and runs the locked section on a packet of key `k` with a supported modulus. */
  predicate GetsIn(s: Rx, e: Event, k: Key)
  {
    e.Lock? && e.packet.key == k && PacketModulus(e.packet).Ok? && e.thread !in s.inFlight
  }

  /** The packet is stored, `k` not being finished. */
  predicate TakesIn(s: Rx, e: Event, k: Key)
  {
    GetsIn(s, e, k) && k !in s.table.assembled
  }

  /** The packet carries a residue of `v`: the one for the modulus it names. */
  predicate Carries(p: Packet, v: int)
  {
    || (Names(p, 97) && p.residue == v % 97)
    || (Names(p, 101) && p.residue == v % 101)
    || (Names(p, 103) && p.residue == v % 103)
  }

  lemma CarriesResidue(p: Packet, v: int)
    requires Carries(p, v)
    ensures PacketModulus(p).Ok? && p.residue == v % PacketModulus(p).value
  {
    PacketModulusNamed(p, 97);
    PacketModulusNamed(p, 101);
    PacketModulusNamed(p, 103);
  }

  /** Every packet of key `k` that gets in among the first `n` events is a residue of `v`. What other keys
      send, and what comes under `k` once it is finished, does not matter. */
  ghost predicate Honest(tr: Trace, n: nat, k: Key, v: int)
    requires Valid(tr) && n <= |tr.events|
  {
    forall i :: 0 <= i < n ==> HonestAt(tr, i, k, v)
  }

  ghost predicate HonestAt(tr: Trace, i: nat, k: Key, v: int)
    requires Valid(tr) && i < |tr.events|
  {
    TakesIn(tr.states[i], tr.events[i], k) ==> Carries(tr.events[i].packet, v)
  }

  ghost predicate FaithfulReading(r: SensorReading, v: int)
  {
    && |r.residues| == 2
    && ResiduesOf(r.residues, v)
    && r.value == v % (r.residues[0].modulus * r.residues[1].modulus)
  }

  ghost predicate FaithfulTable(t: Table, k: Key, v: int)
  {
    k in t.open ==> |t.open[k].residues| == 1 && ResiduesOf(t.open[k].residues, v)
  }

  /** The event is the locked section that produces the reading. */
  ghost predicate Produces(s: Rx, e: Event, timeout: real, r: SensorReading)
  {
    && e.Lock? && e.thread !in s.inFlight && PacketModulus(e.packet).Ok?
    && Locked(s.table, e.packet, PacketModulus(e.packet).value, e.sweep, e.now, timeout).1 == Ok(Some(r))
  }

  /** The reading is in flight or has been queued. */
  ghost predicate CameOut(s: Rx, r: SensorReading)
  {
    r in s.inFlight.Values || r in s.emitted
  }

  lemma CameOutStep(s: Rx, e: Event, timeout: real, r: SensorReading)
    requires CameOut(Step(s, e, timeout), r)
    ensures CameOut(s, r) || Produces(s, e, timeout, r)
  {
  }

  ghost predicate Faithful(s: Rx, k: Key, v: int)
  {
    && FaithfulTable(s.table, k, v)
    && forall r :: CameOut(s, r) && r.key == k ==> FaithfulReading(r, v)
  }

  predicate HasModulus(d: Dict, m: int)
  {
    exists i :: 0 <= i < |d| && d[i].modulus == m
  }

  /** An honest packet never fails to decode: it opens an assembly, repeats its only residue, or
      completes it with a second one. */
  lemma HonestLock(t: Table, p: Packet, sweep: real, now: real, timeout: real, v: int)
    requires GoodTable(t) && Carries(p, v) && FaithfulTable(t, p.key, v)
    ensures var m := PacketModulus(p).value;
      var d := Stored(Unexpired(t.open, sweep, timeout), p, m, now).residues;
      && ResiduesOf(d, v) && 1 <= |d| <= 2
      && HasModulus(d, m)
      && (p.key !in t.assembled && |d| == 2 ==> Decoded(d) == Ok(v % (d[0].modulus * d[1].modulus)))
  {
    CarriesResidue(p, v);
    var m := PacketModulus(p).value;
    var open := Unexpired(t.open, sweep, timeout);
    StoredResidues(open, p, m, now);
    var d := Stored(open, p, m, now).residues;
    assert Residue(m, p.residue) in d;
    forall i | 0 <= i < |d| ensures Supported(d[i].modulus) && d[i].residue == v % d[i].modulus {
      assert d[i] in d;
    }
    if |d| == 2 {
      DecodesModuloProduct(d, v);
      Capacity(d);
    }
  }

  lemma StaysFaithful(s: Rx, e: Event, timeout: real, k: Key, v: int)
    requires Sound(s) && FaithfulTable(s.table, k, v) && (TakesIn(s, e, k) ==> Carries(e.packet, v))
    ensures FaithfulTable(Step(s, e, timeout).table, k, v)
  {
    if e.Lock? && e.thread !in s.inFlight && PacketModulus(e.packet).Ok? {
      LockTable(s.table, e.packet, e.sweep, e.now, timeout, k, v);
    }
  }

  lemma LockTable(t: Table, p: Packet, sweep: real, now: real, timeout: real, k: Key, v: int)
    requires GoodTable(t) && FaithfulTable(t, k, v) && PacketModulus(p).Ok?
    requires p.key == k && k !in t.assembled ==> Carries(p, v)
    ensures FaithfulTable(Locked(t, p, PacketModulus(p).value, sweep, now, timeout).0, k, v)
  {
    if p.key == k && k !in t.assembled {
      HonestLock(t, p, sweep, now, timeout, v);
    }
  }

  lemma ProducedFaithful(s: Rx, e: Event, timeout: real, r: SensorReading, v: int)
    requires Sound(s) && Produces(s, e, timeout, r) && FaithfulTable(s.table, r.key, v)
    requires TakesIn(s, e, r.key) ==> Carries(e.packet, v)
    ensures FaithfulReading(r, v)
  {
    HonestLock(s.table, e.packet, e.sweep, e.now, timeout, v);
  }

  lemma StepFaithful(s: Rx, e: Event, timeout: real, k: Key, v: int)
    requires Sound(s) && Faithful(s, k, v) && (TakesIn(s, e, k) ==> Carries(e.packet, v))
    ensures Faithful(Step(s, e, timeout), k, v)
  {
    StaysFaithful(s, e, timeout, k, v);
    forall r | CameOut(Step(s, e, timeout), r) && r.key == k ensures FaithfulReading(r, v) {
      CameOutStep(s, e, timeout, r);
      if Produces(s, e, timeout, r) {
        ProducedFaithful(s, e, timeout, r, v);
      }
    }
  }

  /** Under any loss, duplication, reordering and expiry, and whatever the packets of other keys carry,
      every reading that comes out is the value sent under its key, modulo the product of the two moduli
      that arrived first. */
  lemma {:induction false} EndToEnd(tr: Trace, n: nat, k: Key, v: int)
    requires Valid(tr) && n <= |tr.events| && Honest(tr, n, k, v)
    ensures Faithful(tr.states[n], k, v)
  {
    if n > 0 {
      EndToEnd(tr, n - 1, k, v);
      AtMostOnce(tr, n - 1);
      assert HonestAt(tr, n - 1, k, v) && Follows(tr, n - 1);
      StepFaithful(tr.states[n - 1], tr.events[n - 1], tr.timeout, k, v);
    }
  }

  /** An emitted value is the value sent exactly when the latter is below the product of the moduli
      used, hence always when it is below 9797. */
  lemma EmittedExact(tr: Trace, i: nat, v: nat)
    requires Valid(tr) && i < |tr.states[|tr.events|].emitted|
    requires Honest(tr, |tr.events|, tr.states[|tr.events|].emitted[i].key, v)
    ensures var r := tr.states[|tr.events|].emitted[i];
      && |r.residues| == 2
      && (r.value == v <==> v < r.residues[0].modulus * r.residues[1].modulus)
      && (v < 9797 ==> r.value == v)
  {
    var r := tr.states[|tr.events|].emitted[i];
    EndToEnd(tr, |tr.events|, r.key, v);
    assert CameOut(tr.states[|tr.events|], r) && FaithfulReading(r, v);
    PairExact(r.residues, v);
    DecodesModuloProduct(r.residues, v);
    Capacity(r.residues);
  }

  // ---- timeliness ----------------------------------------------------------------------

  /** The packet opens an assembly of its key. */
  ghost predicate Opens(s: Rx, e: Event, timeout: real, k: Key)
  {
    TakesIn(s, e, k) && k !in Unexpired(s.table.open, e.sweep, timeout)
  }

  ghost predicate OpenAt(s: Rx, k: Key, since: real)
  {
    k in s.table.open && s.table.open[k].firstSeen == since
  }

  lemma OpenStep(s: Rx, e: Event, timeout: real, k: Key)
    requires k in Step(s, e, timeout).table.open
    ensures var since := Step(s, e, timeout).table.open[k].firstSeen;
      OpenAt(s, k, since) || (Opens(s, e, timeout, k) && e.now == since)
  {
  }

  /** The assembly of `k` that event `l` opened is the one still open after `n` events. */
  ghost predicate OpenSince(tr: Trace, l: nat, n: nat, k: Key)
    requires Valid(tr) && l < n <= |tr.events|
  {
    && Opens(tr.states[l], tr.events[l], tr.timeout, k)
    && forall m :: l < m <= n ==> OpenAt(tr.states[m], k, tr.events[l].now)
  }

  /** The assembly of an open key was opened by an earlier packet of that key. */
  lemma {:induction false} OpenedBy(tr: Trace, n: nat, k: Key) returns (l: nat)
    requires Valid(tr) && n <= |tr.events| && k in tr.states[n].table.open
    ensures l < n && OpenSince(tr, l, n, k)
  {
    var s, e := tr.states[n - 1], tr.events[n - 1];
    var since := tr.states[n].table.open[k].firstSeen;
    assert Follows(tr, n - 1);
    OpenStep(s, e, tr.timeout, k);
    if OpenAt(s, k, since) {
      l := OpenedBy(tr, n - 1, k);
      assert OpenAt(tr.states[n - 1], k, tr.events[l].now);
    } else {
      l := n - 1;
    }
    assert OpenAt(tr.states[n], k, since);
  }

  lemma {:induction false} ProducedBy(tr: Trace, n: nat, r: SensorReading) returns (j: nat)
    requires Valid(tr) && n <= |tr.events| && CameOut(tr.states[n], r)
    ensures j < n && Produces(tr.states[j], tr.events[j], tr.timeout, r)
  {
    assert Follows(tr, n - 1);
    CameOutStep(tr.states[n - 1], tr.events[n - 1], tr.timeout, r);
    if CameOut(tr.states[n - 1], r) {
      j := ProducedBy(tr, n - 1, r);
    } else {
      j := n - 1;
    }
  }

  /** Every packet of key `k` that gets in from event `l` to event `j` is a residue of `v`. */
  ghost predicate HonestBetween(tr: Trace, l: nat, j: nat, k: Key, v: int)
    requires Valid(tr) && l <= j < |tr.events|
  {
    forall i :: l <= i <= j ==> HonestAt(tr, i, k, v)
  }

  lemma OpenedFaithful(s: Rx, e: Event, timeout: real, k: Key, v: int)
    requires Opens(s, e, timeout, k) && Carries(e.packet, v)
    ensures FaithfulTable(Step(s, e, timeout).table, k, v)
  {
  }

  /** An open assembly holds only what has come in since it was opened. */
  lemma {:induction false} WindowFaithful(tr: Trace, l: nat, n: nat, j: nat, k: Key, v: int)
    requires Valid(tr) && l < n <= j < |tr.events| && HonestBetween(tr, l, j, k, v)
    requires Opens(tr.states[l], tr.events[l], tr.timeout, k)
    ensures FaithfulTable(tr.states[n].table, k, v)
    decreases n
  {
    AtMostOnce(tr, n - 1);
    if l < n - 1 {
      WindowFaithful(tr, l, n - 1, j, k, v);
    }
    assert HonestAt(tr, n - 1, k, v) && Follows(tr, n - 1);
    WindowStep(tr.states[n - 1], tr.events[n - 1], tr.timeout, k, v);
  }

  lemma WindowStep(s: Rx, e: Event, timeout: real, k: Key, v: int)
    requires Sound(s) && (Opens(s, e, timeout, k) || FaithfulTable(s.table, k, v))
    requires TakesIn(s, e, k) ==> Carries(e.packet, v)
    ensures FaithfulTable(Step(s, e, timeout).table, k, v)
  {
    if Opens(s, e, timeout, k) {
      OpenedFaithful(s, e, timeout, k, v);
    } else {
      StaysFaithful(s, e, timeout, k, v);
    }
  }

  /** Every reading that comes out was completed, at `j`, by a packet whose sweep came less than a timeout
      after the packet that opened its assembly, at `l`; and it is the value of which the packets of its
      key in between are residues, whatever came under that key before or after. */
  lemma EmittedInTime(tr: Trace, n: nat, r: SensorReading) returns (l: nat, j: nat)
    requires Valid(tr) && n <= |tr.events| && CameOut(tr.states[n], r)
    ensures l < j < n && OpenSince(tr, l, j, r.key)
    ensures Produces(tr.states[j], tr.events[j], tr.timeout, r) && tr.events[j].packet.key == r.key
    ensures tr.events[j].sweep - tr.events[l].now < tr.timeout && r.zone == tr.events[j].packet.zone
    ensures forall v :: HonestBetween(tr, l, j, r.key, v) ==> FaithfulReading(r, v)
  {
    j := ProducedBy(tr, n, r);
    AtMostOnce(tr, j);
    var s, e := tr.states[j], tr.events[j];
    EmittedFresh(s.table, e.packet, PacketModulus(e.packet).value, e.sweep, e.now, tr.timeout);
    l := OpenedBy(tr, j, r.key);
    assert OpenAt(s, r.key, tr.events[l].now);
    forall v | HonestBetween(tr, l, j, r.key, v) ensures FaithfulReading(r, v) {
      WindowFaithful(tr, l, j, j, r.key, v);
      assert HonestAt(tr, j, r.key, v);
      ProducedFaithful(s, e, tr.timeout, r, v);
    }
  }

  // ---- delivery ------------------------------------------------------------------------

  predicate Sweeps(e: Event)
  {
    e.Lock? || e.Sweep?
  }

  /** No sweep after event `i` and up to event `j` comes a timeout or more after `since`. */
  predicate SweptBefore(tr: Trace, i: nat, j: nat, since: real)
    requires i <= j < |tr.events|
  {
    forall m :: i < m <= j && Sweeps(tr.events[m]) ==> tr.events[m].sweep - since < tr.timeout
  }

  /** The key is finished, or its assembly, opened at `since`, holds a residue of modulus `m`. */
  ghost predicate Progressing(t: Table, k: Key, m: int, since: real)
  {
    k in t.assembled || (k in t.open && t.open[k].firstSeen == since && HasModulus(t.open[k].residues, m))
  }

  lemma KeepsModulus(
    open: map<Key, Assembly>, p: Packet, modulus: int, sweep: real, now: real, timeout: real, m: int)
    requires Supported(modulus) && p.key in Unexpired(open, sweep, timeout) && GoodAssembly(open[p.key])
    requires HasModulus(open[p.key].residues, m)
    ensures HasModulus(Stored(Unexpired(open, sweep, timeout), p, modulus, now).residues, m)
  {
    var d := Stored(Unexpired(open, sweep, timeout), p, modulus, now).residues;
    StoredResidues(Unexpired(open, sweep, timeout), p, modulus, now);
    var i :| 0 <= i < |open[p.key].residues| && open[p.key].residues[i].modulus == m;
    var e := if m == modulus then Residue(modulus, p.residue) else open[p.key].residues[i];
    assert e in d;
  }

  /** A packet that gets in leaves its key finished or open with the packet's modulus. */
  lemma ProgressStart(s: Rx, e: Event, timeout: real, k: Key)
    requires Sound(s) && GetsIn(s, e, k)
    ensures var t := Step(s, e, timeout).table;
      k in t.assembled || (k in t.open && HasModulus(t.open[k].residues, PacketModulus(e.packet).value))
  {
    if k !in s.table.assembled {
      var m, open := PacketModulus(e.packet).value, Unexpired(s.table.open, e.sweep, timeout);
      StoredResidues(open, e.packet, m, e.now);
      assert Residue(m, e.packet.residue) in Stored(open, e.packet, m, e.now).residues;
    }
  }

  lemma ProgressLock(
    t: Table, p: Packet, sweep: real, now: real, timeout: real, k: Key, v: int, m: int, since: real)
    requires GoodTable(t) && FaithfulTable(t, k, v) && Progressing(t, k, m, since) && PacketModulus(p).Ok?
    requires p.key == k && k !in t.assembled ==> Carries(p, v)
    requires sweep - since < timeout
    ensures Progressing(Locked(t, p, PacketModulus(p).value, sweep, now, timeout).0, k, m, since)
  {
    if k !in t.assembled {
      assert k in Unexpired(t.open, sweep, timeout);
      if p.key == k {
        HonestLock(t, p, sweep, now, timeout, v);
        KeepsModulus(t.open, p, PacketModulus(p).value, sweep, now, timeout, m);
      }
    }
  }

  lemma ProgressStep(s: Rx, e: Event, timeout: real, k: Key, v: int, m: int, since: real)
    requires Sound(s) && FaithfulTable(s.table, k, v) && Progressing(s.table, k, m, since)
    requires TakesIn(s, e, k) ==> Carries(e.packet, v)
    requires Sweeps(e) ==> e.sweep - since < timeout
    ensures Progressing(Step(s, e, timeout).table, k, m, since)
  {
    if e.Lock? && e.thread !in s.inFlight && PacketModulus(e.packet).Ok? {
      ProgressLock(s.table, e.packet, e.sweep, e.now, timeout, k, v, m, since);
    }
  }

  lemma ProgressRun(tr: Trace, n: nat, k: Key, v: int, m: int, since: real)
    requires Valid(tr) && n < |tr.events| && HonestAt(tr, n, k, v)
    requires Sweeps(tr.events[n]) ==> tr.events[n].sweep - since < tr.timeout
    requires FaithfulTable(tr.states[n].table, k, v)
    requires Progressing(tr.states[n].table, k, m, since)
    ensures Progressing(tr.states[n + 1].table, k, m, since)
  {
    AtMostOnce(tr, n);
    assert Follows(tr, n);
    ProgressStep(tr.states[n], tr.events[n], tr.timeout, k, v, m, since);
  }

  lemma {:induction false} StaysProgressing(tr: Trace, l: nat, i: nat, n: nat, j: nat, k: Key, v: int, m: int)
    requires Valid(tr) && l <= i < n <= j < |tr.events| && Opens(tr.states[l], tr.events[l], tr.timeout, k)
    requires HonestBetween(tr, l, j, k, v) && SweptBefore(tr, i, j, tr.events[l].now)
    requires Progressing(tr.states[i + 1].table, k, m, tr.events[l].now)
    ensures Progressing(tr.states[n].table, k, m, tr.events[l].now)
    decreases n
  {
    if i + 1 < n {
      StaysProgressing(tr, l, i, n - 1, j, k, v, m);
      WindowFaithful(tr, l, n - 1, j, k, v);
      assert HonestAt(tr, n - 1, k, v);
      ProgressRun(tr, n - 1, k, v, m, tr.events[l].now);
    }
  }

  /** A packet of a second modulus completes an assembly that holds a first one. */
  lemma Completes(s: Rx, e: Event, timeout: real, k: Key, v: int, m: int, since: real)
    requires Sound(s) && FaithfulTable(s.table, k, v) && Progressing(s.table, k, m, since)
    requires GetsIn(s, e, k) && PacketModulus(e.packet).value != m && e.sweep - since < timeout
    requires TakesIn(s, e, k) ==> Carries(e.packet, v)
    ensures k in Step(s, e, timeout).table.assembled
  {
    if k !in s.table.assembled {
      HonestLock(s.table, e.packet, e.sweep, e.now, timeout, v);
      KeepsModulus(s.table.open, e.packet, PacketModulus(e.packet).value, e.sweep, e.now, timeout, m);
    }
  }

  /** What key `k` takes in from event `l` to event `j` are residues of `v`, and no sweep after event `i` and
      up to `j` comes a timeout or more after event `l`. */
  ghost predicate Clean(tr: Trace, l: nat, i: nat, j: nat, k: Key, v: int)
    requires Valid(tr) && l <= i <= j < |tr.events|
  {
    && tr.events[l].Lock?
    && HonestBetween(tr, l, j, k, v)
    && SweptBefore(tr, i, j, tr.events[l].now)
  }

  /** Once a key has a residue of one modulus in its assembly, a packet of another modulus that gets in
      before the assembly times out finishes it, if what the key took in since the assembly was opened are
      residues of one value. What came under the key before, in assemblies that expired, does not matter. */
  lemma DeliveredSince(tr: Trace, l: nat, i: nat, j: nat, k: Key, v: int)
    requires Valid(tr) && l <= i < j < |tr.events| && OpenSince(tr, l, i + 1, k)
    requires GetsIn(tr.states[i], tr.events[i], k) && GetsIn(tr.states[j], tr.events[j], k)
    requires PacketModulus(tr.events[i].packet) != PacketModulus(tr.events[j].packet)
    requires Clean(tr, l, i, j, k, v)
    ensures k in tr.states[j + 1].table.assembled
  {
    var m, since := PacketModulus(tr.events[i].packet).value, tr.events[l].now;
    ProgressAt(tr, i, k);
    assert OpenAt(tr.states[i + 1], k, since);
    StaysProgressing(tr, l, i, j, j, k, v, m);
    WindowFaithful(tr, l, j, j, k, v);
    AtMostOnce(tr, j);
    assert HonestAt(tr, j, k, v) && Follows(tr, j);
    Completes(tr.states[j], tr.events[j], tr.timeout, k, v, m, since);
  }

  lemma ProgressAt(tr: Trace, i: nat, k: Key)
    requires Valid(tr) && i < |tr.events| && GetsIn(tr.states[i], tr.events[i], k)
    ensures var t := tr.states[i + 1].table;
      k in t.assembled || (k in t.open && HasModulus(t.open[k].residues, PacketModulus(tr.events[i].packet).value))
  {
    AtMostOnce(tr, i);
    assert Follows(tr, i);
    ProgressStart(tr.states[i], tr.events[i], tr.timeout, k);
  }

  lemma {:induction false} StaysAssembled(tr: Trace, i: nat, j: nat, k: Key)
    requires Valid(tr) && i <= j <= |tr.events| && k in tr.states[i].table.assembled
    ensures k in tr.states[j].table.assembled
    decreases j
  {
    if i < j {
      StaysAssembled(tr, i, j - 1, k);
      assert Follows(tr, j - 1);
    }
  }

  /** Two residues of one reading under different moduli that both get in before the timeout are enough: the
      reading is assembled, and so already queued or about to be. Only the assembly that holds the first
      packet counts: what it took in, and the sweeps since its opening. */
  lemma Delivered(tr: Trace, i: nat, j: nat, k: Key, v: int)
    requires Valid(tr) && i < j < |tr.events|
    requires GetsIn(tr.states[i], tr.events[i], k) && GetsIn(tr.states[j], tr.events[j], k)
    requires PacketModulus(tr.events[i].packet) != PacketModulus(tr.events[j].packet)
    requires forall l :: 0 <= l <= i && OpenSince(tr, l, i + 1, k) ==> Clean(tr, l, i, j, k, v)
    ensures k in tr.states[j + 1].table.assembled
  {
    ProgressAt(tr, i, k);
    if k in tr.states[i + 1].table.assembled {
      StaysAssembled(tr, i + 1, j + 1, k);
    } else {
      var l := OpenedBy(tr, i + 1, k);
      DeliveredSince(tr, l, i, j, k, v);
    }
  }

  /** In particular the packet that opens an assembly and a second one of another modulus. */
  lemma DeliveredFromOpening(tr: Trace, l: nat, j: nat, k: Key, v: int)
    requires Valid(tr) && l < j < |tr.events| && Opens(tr.states[l], tr.events[l], tr.timeout, k)
    requires GetsIn(tr.states[j], tr.events[j], k)
    requires PacketModulus(tr.events[l].packet) != PacketModulus(tr.events[j].packet)
    requires Clean(tr, l, l, j, k, v)
    ensures k in tr.states[j + 1].table.assembled
  {
    assert Follows(tr, l);
    OpeningOpens(tr.states[l], tr.events[l], tr.timeout, k);
    DeliveredSince(tr, l, l, j, k, v);
  }

  lemma OpeningOpens(s: Rx, e: Event, timeout: real, k: Key)
    requires Opens(s, e, timeout, k)
    ensures OpenAt(Step(s, e, timeout), k, e.now)
  {
  }
}
