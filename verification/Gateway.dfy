/** gateway/gateway.py: which readings the gateway forwards, and what decision each rests on. */
module Gateway {
  import opened Wrappers
  import opened PolicyCache

  datatype Reading = Reading(device: string, readingId: string, value: int, zone: string)

  /** What `check_access` may answer. `Nothing` is Python's None, which the cache cannot tell from a miss. */
  datatype Decision =
    | Nothing
    | Flag(granted: bool)
    | Text(text: string)
    | Record(decision: Option<string>, result: Option<string>)
    | Unknown

  function UpperChar(c: char): char
  {
    if 'a' <= c <= 'z' then (c as int - 32) as char else c
  }

  function Upper(s: string): string
  {
    seq(|s|, i requires 0 <= i < |s| => UpperChar(s[i]))
  }

  predicate IsGrant(d: Decision)
  {
    match d
    case Flag(granted) => granted
    case Text(text) => Upper(text) == "GRANT"
    case Record(Some(text), _) => Upper(text) == "GRANT"
    case Record(None, Some(text)) => Upper(text) == "GRANT"
    case _ => false
  }

  /** A reading without a zone counts as the gateway's own. */
  function EffectiveZone(r: Reading, own: string): string
  {
    if r.zone == "" then own else r.zone
  }

  function Key(device: string, zone: string): string
  {
    device + ":" + zone + ":submit_reading"
  }

  predicate EndsWith(s: string, t: string)
  {
    |t| <= |s| && s[|s| - |t|..] == t
  }

  /** One zone, with the colon that precedes it in a key, ends the other. */
  predicate Overlap(z1: string, z2: string)
  {
    EndsWith(z2, ":" + z1) || EndsWith(z1, ":" + z2)
  }

  lemma KeyStem(d1: string, z1: string, d2: string, z2: string)
    requires Key(d1, z1) == Key(d2, z2)
    ensures d1 + ":" + z1 == d2 + ":" + z2
  {
    var a, b := d1 + ":" + z1, d2 + ":" + z2;
    assert Key(d1, z1) == a + ":submit_reading" && Key(d2, z2) == b + ":submit_reading";
    assert |a| == |b|;
    assert a == Key(d1, z1)[..|a|] && b == Key(d2, z2)[..|b|];
  }

  lemma SharedSuffix(d1: string, z1: string, d2: string, z2: string)
    requires Key(d1, z1) == Key(d2, z2) && |z1| <= |z2| && z1 != z2
    ensures EndsWith(z2, ":" + z1)
  {
    KeyStem(d1, z1, d2, z2);
    var a, b := d1 + ":" + z1, d2 + ":" + z2;
    assert z1 == a[|d1| + 1..] && z2 == b[|d2| + 1..];
    assert |z1| < |z2| && a[|d1|] == ':';
    assert z2[|z2| - |z1| - 1..] == a[|d1|..] == ":" + z1;
  }

  /** Readings of two different zones can share a cache key exactly when one zone, preceded by a colon,
      ends the other. */
  lemma KeysShared(z1: string, z2: string)
    requires z1 != z2
    ensures (exists d1, d2 :: Key(d1, z1) == Key(d2, z2)) <==> Overlap(z1, z2)
  {
    if d1, d2 :| Key(d1, z1) == Key(d2, z2) {
      if |z1| <= |z2| {
        SharedSuffix(d1, z1, d2, z2);
      } else {
        SharedSuffix(d2, z2, d1, z1);
      }
    }
    if EndsWith(z2, ":" + z1) {
      SharingDevices(z1, z2);
    } else if EndsWith(z1, ":" + z2) {
      SharingDevices(z2, z1);
    }
  }

  lemma SharingDevices(z1: string, z2: string)
    requires EndsWith(z2, ":" + z1)
    ensures exists d1, d2 :: Key(d1, z1) == Key(d2, z2)
  {
    var rest := z2[..|z2| - |z1| - 1];
    assert z2 == rest + (":" + z1);
    var d1 := "x:" + rest;
    assert d1 + ":" + z1 == "x" + ":" + z2;
    assert Key(d1, z1) == Key("x", z2);
  }

  /** Otherwise a cache key belongs to one device and one zone. */
  lemma KeyInjective(d1: string, z1: string, d2: string, z2: string)
    requires !Overlap(z1, z2)
    ensures Key(d1, z1) == Key(d2, z2) <==> d1 == d2 && z1 == z2
  {
    if Key(d1, z1) == Key(d2, z2) {
      if z1 != z2 && |z1| <= |z2| {
        SharedSuffix(d1, z1, d2, z2);
      } else if z1 != z2 {
        SharedSuffix(d2, z2, d1, z1);
      }
      KeyStem(d1, z1, d2, z2);
      var a, b := d1 + ":" + z1, d2 + ":" + z2;
      assert |d1| == |d2| && d1 == a[..|d1|] && d2 == b[..|d2|];
    }
  }

  // ---- one reading ---------------------------------------------------------------------

  /** What the outside does during one call: the clock at the lookup and at the store, the answer of
      `check_access` (None when it raises) and whether the submission goes through. */
  datatype World = World(lookup: real, store: real, answer: Option<Decision>, submitted: bool)

  /** The cached decision, unless it is missing, expired or Nothing. */
  function Cached(entries: Entries<Decision>, key: string, now: real): Option<Decision>
  {
    match Live(entries, key, now)
    case Some(d) => if d.Nothing? then None else Some(d)
    case None => None
  }

  function DecisionFor(entries: Entries<Decision>, key: string, w: World): Option<Decision>
  {
    if Cached(entries, key, w.lookup).Some? then Cached(entries, key, w.lookup) else w.answer
  }

  function CacheAfter(entries: Entries<Decision>, key: string, w: World, ttl: real): Entries<Decision>
  {
    if Cached(entries, key, w.lookup).Some? then entries
    else
      var looked := if Live(entries, key, w.lookup) == None then entries - {key} else entries;
      if w.answer == None then looked else looked[key := Entry(w.answer.value, w.store + ttl)]
  }

  predicate Forwards(entries: Entries<Decision>, key: string, w: World)
  {
    DecisionFor(entries, key, w).Some? && IsGrant(DecisionFor(entries, key, w).value)
  }

  /** A call of `check_access`. */
  datatype Query = Query(device: string, zone: string)

  class Gateway {
    const zone: string
    const cache: PolicyCache<Decision>
    var queries: seq<Query>
    var submissions: seq<Reading>
    var liveReadings: seq<Reading>

    constructor (zone: string, cache: PolicyCache<Decision>)
      ensures this.zone == zone && this.cache == cache
      ensures queries == [] && submissions == [] && liveReadings == []
    {
      this.zone := zone;
      this.cache := cache;
      queries, submissions, liveReadings := [], [], [];
    }

    /** Asks for the reading's device and zone, or the gateway's own zone, unless a decision is cached;
        forwards the reading exactly when the decision, cached or fresh, is a grant; a forwarded reading
        is listed only if its submission went through. */
    method HandleReading(reading: Reading, w: World)
      requires cache.ttlSeconds > 0.0
      modifies this, cache
      ensures var key := Key(reading.device, EffectiveZone(reading, zone));
        var forwards := Forwards(old(cache.entries), key, w);
        && cache.entries == CacheAfter(old(cache.entries), key, w, cache.ttlSeconds)
        && queries == old(queries) +
                      (if Cached(old(cache.entries), key, w.lookup) == None
                       then [Query(reading.device, if reading.zone != "" then reading.zone else zone)] else [])
        && submissions == old(submissions) + (if forwards then [reading] else [])
        && liveReadings == old(liveReadings) + (if forwards && w.submitted then [reading] else [])
    {
      var key := Key(reading.device, EffectiveZone(reading, zone));
      var cached := cache.Get(key, w.lookup);
      var decision := if cached.Some? then cached.value else Nothing;
      if decision.Nothing? {
        queries := queries + [Query(reading.device, EffectiveZone(reading, zone))];
        if w.answer == None {
          return;
        }
        decision := w.answer.value;
        var _ := cache.Set(key, decision, None, w.store);
      }
      if IsGrant(decision) {
        submissions := submissions + [reading];
        if w.submitted {
          liveReadings := liveReadings + [reading];
        }
      }
    }
  }

  // ---- runs ----------------------------------------------------------------------------

  datatype Event = Handle(reading: Reading, world: World) | Invalidate(key: string) | InvalidateAll

  function KeyOf(r: Reading, own: string): string
  {
    Key(r.device, EffectiveZone(r, own))
  }

  function CacheAt(events: seq<Event>, n: nat, own: string, ttl: real): Entries<Decision>
    requires n <= |events|
  {
    if n == 0 then map[] else
      var entries := CacheAt(events, n - 1, own, ttl);
      match events[n - 1]
      case Handle(r, w) => CacheAfter(entries, KeyOf(r, own), w, ttl)
      case Invalidate(key) => entries - {key}
      case InvalidateAll => map[]
  }

  /** Event `i` asked `check_access` for this key and was answered `d`. */
  predicate Asks(events: seq<Event>, i: nat, own: string, ttl: real, key: string, d: Decision)
    requires i < |events|
  {
    && events[i].Handle?
    && KeyOf(events[i].reading, own) == key
    && Cached(CacheAt(events, i, own, ttl), key, events[i].world.lookup) == None
    && events[i].world.answer == Some(d)
  }

  predicate Drops(e: Event, key: string)
  {
    e == Invalidate(key) || e.InvalidateAll?
  }

  /** Every cache entry was put there by an answer to its own key that nothing has invalidated since. */
  lemma {:induction false} EntryOrigin(events: seq<Event>, n: nat, own: string, ttl: real, key: string) returns (i: nat)
    requires n <= |events| && key in CacheAt(events, n, own, ttl)
    ensures i < n
    ensures var e := CacheAt(events, n, own, ttl)[key];
      Asks(events, i, own, ttl, key, e.value) && e.expiresAt == events[i].world.store + ttl
    ensures forall m :: i < m < n ==> !Drops(events[m], key)
  {
    var before := CacheAt(events, n - 1, own, ttl);
    if key in before && before[key] == CacheAt(events, n, own, ttl)[key] {
      i := EntryOrigin(events, n - 1, own, ttl, key);
    } else {
      i := n - 1;
    }
  }

  /** The answer `d` that `check_access` gave at event `i` is a grant for the device and the zone of the
      reading handled at event `n`: given in that very call, or in an earlier one whose answer was stored
      less than the time to live before this lookup and has not been invalidated since. */
  ghost predicate RestsOn(events: seq<Event>, n: nat, i: nat, d: Decision, own: string, ttl: real)
    requires i <= n < |events| && events[n].Handle?
  {
    && events[i].Handle? && IsGrant(d)
    && events[i].reading.device == events[n].reading.device
    && EffectiveZone(events[i].reading, own) == EffectiveZone(events[n].reading, own)
    && Asks(events, i, own, ttl, KeyOf(events[n].reading, own), d)
    && (i < n ==> events[n].world.lookup < events[i].world.store + ttl)
    && forall m :: i < m < n ==> !Drops(events[m], KeyOf(events[n].reading, own))
  }

  predicate ForwardsAt(events: seq<Event>, n: nat, own: string, ttl: real)
    requires n < |events|
  {
    && events[n].Handle?
    && Forwards(CacheAt(events, n, own, ttl), KeyOf(events[n].reading, own), events[n].world)
  }

  /** Every reading the run forwards rests on a grant for its own device and zone. */
  ghost predicate AllRest(events: seq<Event>, own: string, ttl: real)
  {
    forall n: nat :: n < |events| && ForwardsAt(events, n, own, ttl) ==>
      exists i: nat, d :: i <= n && RestsOn(events, n, i, d, own, ttl)
  }

  predicate ZoneIn(e: Event, own: string, zones: set<string>)
  {
    e.Handle? ==> EffectiveZone(e.reading, own) in zones
  }

  predicate UsesZones(events: seq<Event>, own: string, zones: set<string>)
  {
    forall n :: 0 <= n < |events| ==> ZoneIn(events[n], own, zones)
  }

  predicate ZonesApart(zones: set<string>)
  {
    forall z1, z2 :: z1 in zones && z2 in zones ==> !Overlap(z1, z2)
  }

  /** Over zones that do not overlap, every forwarded reading rests on a grant for its own device and zone. */
  lemma ForwardingRests(events: seq<Event>, n: nat, own: string, ttl: real, zones: set<string>)
    returns (i: nat, d: Decision)
    requires UsesZones(events, own, zones) && ZonesApart(zones)
    requires n < |events| && ForwardsAt(events, n, own, ttl)
    ensures i <= n && RestsOn(events, n, i, d, own, ttl)
  {
    var r, w, entries := events[n].reading, events[n].world, CacheAt(events, n, own, ttl);
    var key := KeyOf(r, own);
    d := DecisionFor(entries, key, w).value;
    if Cached(entries, key, w.lookup).Some? {
      i := EntryOrigin(events, n, own, ttl, key);
    } else {
      i := n;
    }
    assert ZoneIn(events[i], own, zones) && ZoneIn(events[n], own, zones);
    KeyInjective(events[i].reading.device, EffectiveZone(events[i].reading, own), r.device, EffectiveZone(r, own));
  }

  /** Whenever two different devices or zones share a key, a grant for the first lets a reading of the
      second through, although access was never asked for the second, whatever the answer would be. */
  lemma ForwardingAcrossDevices(first: Reading, w1: World, second: Reading, w2: World, own: string, ttl: real)
    requires KeyOf(first, own) == KeyOf(second, own)
    requires first.device != second.device || EffectiveZone(first, own) != EffectiveZone(second, own)
    requires w1.answer.Some? && IsGrant(w1.answer.value) && w2.lookup < w1.store + ttl
    ensures var events := [Handle(first, w1), Handle(second, w2)];
      && ForwardsAt(events, 1, own, ttl)
      && (forall d :: !Asks(events, 1, own, ttl, KeyOf(second, own), d))
      && forall i: nat, d :: i <= 1 ==> !RestsOn(events, 1, i, d, own, ttl)
  {
    var events := [Handle(first, w1), Handle(second, w2)];
    var key := KeyOf(second, own);
    assert CacheAt(events, 0, own, ttl) == map[];
    assert CacheAt(events, 1, own, ttl) == CacheAfter(map[], key, w1, ttl);
    assert Cached(CacheAt(events, 1, own, ttl), key, w2.lookup) == w1.answer;
  }

  /** The gateway over a set of zones forwards only what was granted for the same device and zone, in
      every run, exactly when no zone of the set, preceded by a colon, ends another. */
  lemma ForwardingExact(zones: set<string>, own: string, ttl: real)
    requires ttl > 0.0 && ("" in zones ==> own == "")
    ensures (forall events :: UsesZones(events, own, zones) ==> AllRest(events, own, ttl)) <==> ZonesApart(zones)
  {
    if ZonesApart(zones) {
      forall events | UsesZones(events, own, zones) ensures AllRest(events, own, ttl) {
        forall n: nat | n < |events| && ForwardsAt(events, n, own, ttl)
          ensures exists i: nat, d :: i <= n && RestsOn(events, n, i, d, own, ttl)
        {
          var i, d := ForwardingRests(events, n, own, ttl, zones);
        }
      }
    } else {
      var z1, z2 :| z1 in zones && z2 in zones && Overlap(z1, z2);
      var events := MisusedKey(z1, z2, own, ttl);
      assert UsesZones(events, own, zones);
    }
  }

  /** The run in which two overlapping zones go wrong. */
  lemma MisusedKey(z1: string, z2: string, own: string, ttl: real) returns (events: seq<Event>)
    requires ttl > 0.0 && Overlap(z1, z2) && (z1 == "" || z2 == "" ==> own == "")
    ensures UsesZones(events, own, {z1, z2}) && !AllRest(events, own, ttl)
  {
    KeysShared(z1, z2);
    var d1, d2 :| Key(d1, z1) == Key(d2, z2);
    var w := World(0.0, 0.0, Some(Flag(true)), true);
    var first, second := Reading(d1, "1", 0, z1), Reading(d2, "2", 0, z2);
    events := [Handle(first, w), Handle(second, w)];
    ForwardingAcrossDevices(first, w, second, w, own, ttl);
  }

  /** One of the two words that upper-casing turns into "GRANT", or a mixture of their letters. */
  predicate SaysGrant(t: string)
  {
    |t| == 5 && forall i :: 0 <= i < 5 ==> t[i] == "GRANT"[i] || t[i] == "grant"[i]
  }

  lemma UpperLetter(c: char, i: nat)
    requires i < 5
    ensures UpperChar(c) == "GRANT"[i] <==> c == "GRANT"[i] || c == "grant"[i]
  {
    assert "grant"[i] as int == "GRANT"[i] as int + 32 && 'A' <= "GRANT"[i] <= 'Z';
  }

  lemma UpperGrant(t: string)
    ensures Upper(t) == "GRANT" <==> SaysGrant(t)
  {
    if |t| == 5 {
      forall i | 0 <= i < 5 ensures Upper(t)[i] == "GRANT"[i] <==> t[i] == "GRANT"[i] || t[i] == "grant"[i] {
        UpperLetter(t[i], i);
      }
    }
  }

  /** Which answers let a reading through: true, the word alone, or a record whose decision says it, or which
      has no decision and whose result says it. Nothing else does. */
  lemma GrantingAnswers(d: Decision)
    ensures IsGrant(d) <==>
            (|| d == Flag(true)
             || (d.Text? && SaysGrant(d.text))
             || (d.Record? && d.decision.Some? && SaysGrant(d.decision.value))
             || (d.Record? && d.decision == None && d.result.Some? && SaysGrant(d.result.value)))
  {
    match d
    case Text(text) => UpperGrant(text);
    case Record(Some(text), _) => UpperGrant(text);
    case Record(None, Some(text)) => UpperGrant(text);
    case _ =>
  }

  /** With nothing cached, a reading is forwarded if and only if access is asked for and granted in one of
      these forms; while a decision other than Nothing is cached and not at its expiry, if and only if that
      decision has one of them. */
  lemma ForwardedWhen(entries: Entries<Decision>, key: string, w: World)
    ensures key !in entries ==> (Forwards(entries, key, w) <==> w.answer.Some? && IsGrant(w.answer.value))
    ensures key in entries && w.lookup < entries[key].expiresAt && entries[key].value != Nothing ==>
              (Forwards(entries, key, w) <==> IsGrant(entries[key].value))
    ensures key in entries && entries[key].expiresAt <= w.lookup ==>
              (Forwards(entries, key, w) <==> w.answer.Some? && IsGrant(w.answer.value))
  {
  }

  /** The empty cache, said without any of the gateway's own notions. */
  lemma FirstReading(w: World, key: string)
    ensures Forwards(map[], key, w) <==>
            (&& w.answer.Some?
             && var d := w.answer.value;
               || d == Flag(true)
               || (d.Text? && SaysGrant(d.text))
               || (d.Record? && d.decision.Some? && SaysGrant(d.decision.value))
               || (d.Record? && d.decision == None && d.result.Some? && SaysGrant(d.result.value)))
  {
    if w.answer.Some? {
      GrantingAnswers(w.answer.value);
    }
  }

  /** A denial or grant in force for a key decides every reading of that key until it expires: within the
      time to live the gateway does not ask again. */
  lemma StaleDecision(entries: Entries<Decision>, key: string, w: World, later: World, ttl: real)
    requires Cached(entries, key, w.lookup) == None && w.answer.Some? && w.answer != Some(Nothing)
    requires later.lookup < w.store + ttl
    ensures var after := CacheAfter(entries, key, w, ttl);
      && DecisionFor(after, key, later) == w.answer
      && CacheAfter(after, key, later, ttl) == after
  {
  }
}
