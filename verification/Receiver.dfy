/** gateway/lora_rx.py: the receiver that reassembles readings from residue packets. */
module Receiver {
  import opened Wrappers
  import opened Crt
  import opened CrtCodec

  datatype Key = Key(device: string, reading: string)

  datatype Channel = Index(value: int) | Other(value: int)

  /** A packet as received. Any of the three fields that can name the modulus may be absent. */
  datatype Packet = Packet(
    key: Key,
    modulus: Option<int>,
    modulusIndex: Option<int>,
    channel: Option<Channel>,
    residue: int,
    zone: Option<string>)

  datatype SensorReading = SensorReading(key: Key, value: int, zone: Option<string>, residues: Dict)

  datatype Assembly = Assembly(firstSeen: real, packets: seq<Packet>, residues: Dict)

  /** What the receiver's lock protects. */
  datatype Table = Table(open: map<Key, Assembly>, assembled: set<Key>)

  // ---- one packet ----------------------------------------------------------------------

  /** Indexing the modulus tuple, which accepts Python's negative positions. */
  function ModulusAt(i: int): Result<int, Error>
  {
    if 0 <= i < 3 then Ok(MODULI[i]) else if -3 <= i < 0 then Ok(MODULI[3 + i]) else Err(IndexError)
  }

  function PacketModulus(p: Packet): (r: Result<int, Error>)
    ensures r.Ok? ==> Supported(r.value)
  {
    var named :=
      match (p.modulus, p.modulusIndex, p.channel)
      case (Some(m), _, _) => Ok(m)
      case (None, Some(i), _) => ModulusAt(i)
      case (None, None, Some(Index(c))) => if 0 <= c < 3 then Ok(MODULI[c]) else Ok(c)
      case (None, None, Some(Other(c))) => Ok(c)
      case (None, None, None) => Err(ValueError);
    if named.Err? then named else if Supported(named.value) then named else Err(ValueError)
  }

  /** The packet names the modulus `m`: by itself, by its position among 97, 101 and 103, or by its channel,
      which may be a position or the modulus. The first of the three fields present decides; positions count
      from the end when negative. */
  predicate Names(p: Packet, m: int)
  {
    match (p.modulus, p.modulusIndex, p.channel)
    case (Some(n), _, _) => n == m && m in {97, 101, 103}
    case (None, Some(i), _) => (m == 97 && i in {0, -3}) || (m == 101 && i in {1, -2}) || (m == 103 && i in {2, -1})
    case (None, None, Some(Index(c))) =>
      (m == 97 && c in {0, 97}) || (m == 101 && c in {1, 101}) || (m == 103 && c in {2, 103})
    case (None, None, Some(Other(c))) => c == m && m in {97, 101, 103}
    case (None, None, None) => false
  }

  lemma PacketModulusNamed(p: Packet, m: int)
    ensures PacketModulus(p) == Ok(m) <==> Names(p, m)
    ensures PacketModulus(p) == Err(IndexError) <==>
            p.modulus == None && p.modulusIndex.Some? && !(-3 <= p.modulusIndex.value < 3)
  {
  }

  function Unexpired(open: map<Key, Assembly>, now: real, timeout: real): map<Key, Assembly>
  {
    map k | k in open && now - open[k].firstSeen < timeout :: open[k]
  }

  /** The assembly for the packet's key after the packet has been stored in it. */
  function Stored(open: map<Key, Assembly>, p: Packet, modulus: int, now: real): Assembly
  {
    var a := if p.key in open then open[p.key] else Assembly(now, [], []);
    Assembly(a.firstSeen, a.packets + [p], Put(a.residues, modulus, p.residue))
  }

  /** The locked section: sweep at `sweep`, ignore finished keys, store the residue, and try to decode
      once two moduli are present. A failed decode leaves the residue stored. */
  ghost function Locked(t: Table, p: Packet, modulus: int, sweep: real, now: real, timeout: real)
    : (Table, Result<Option<SensorReading>, Error>)
  {
    var open := Unexpired(t.open, sweep, timeout);
    if p.key in t.assembled then (Table(open, t.assembled), Ok(None)) else
      var a := Stored(open, p, modulus, now);
      if |a.residues| < 2 then (Table(open[p.key := a], t.assembled), Ok(None)) else
        match Decoded(a.residues)
        case Err(e) => (Table(open[p.key := a], t.assembled), Err(e))
        case Ok(v) =>
          (Table(open - {p.key}, t.assembled + {p.key}), Ok(Some(SensorReading(p.key, v, p.zone, a.residues))))
  }

  predicate GoodAssembly(a: Assembly)
  {
    && DistinctModuli(a.residues)
    && (forall i :: 0 <= i < |a.residues| ==> Supported(a.residues[i].modulus))
    && 1 <= |a.residues| <= 3
    && (|a.residues| >= 2 ==> !InRange(a.residues))
  }

  /** Open and finished keys are disjoint; an open assembly holds one to three residues, and more
      than one only while a stored residue is out of range. */
  ghost predicate GoodTable(t: Table)
  {
    && t.open.Keys !! t.assembled
    && forall k :: k in t.open ==> GoodAssembly(t.open[k])
  }

  lemma StoredResidues(open: map<Key, Assembly>, p: Packet, modulus: int, now: real)
    requires Supported(modulus)
    requires p.key in open ==> GoodAssembly(open[p.key])
    ensures var d := Stored(open, p, modulus, now).residues;
      && DistinctModuli(d)
      && 1 <= |d| <= 3
      && (forall i :: 0 <= i < |d| ==> Supported(d[i].modulus))
      && (forall e :: e in d <==>
            (e == Residue(modulus, p.residue) || (p.key in open && e in open[p.key].residues && e.modulus != modulus)))
  {
    var a := if p.key in open then open[p.key] else Assembly(now, [], []);
    var d := Put(a.residues, modulus, p.residue);
    PutEntries(a.residues, modulus, p.residue);
    forall i | 0 <= i < |d| ensures Supported(d[i].modulus) {
      assert d[i] in d;
      if d[i] != Residue(modulus, p.residue) {
        var j :| 0 <= j < |a.residues| && a.residues[j] == d[i];
      }
    }
    SupportedCount(d);
  }

  lemma SupportedCount(d: Dict)
    requires DistinctModuli(d) && forall i :: 0 <= i < |d| ==> Supported(d[i].modulus)
    ensures |d| <= 3
  {
    KeyCount(d);
    var all := {97, 101, 103};
    assert Keys(d) + (all - Keys(d)) == all;
  }

  /** Every locked section keeps the table good: through successes, failed decodes and expiry. */
  lemma LockedKeepsGood(t: Table, p: Packet, modulus: int, sweep: real, now: real, timeout: real)
    requires GoodTable(t) && Supported(modulus)
    ensures GoodTable(Locked(t, p, modulus, sweep, now, timeout).0)
  {
    var open := Unexpired(t.open, sweep, timeout);
    if p.key !in t.assembled {
      StoredResidues(open, p, modulus, now);
    }
  }

  /** What an emitted reading rests on: an unfinished key, an assembly that was younger than the
      timeout at this call's sweep (or was opened by it), and this very packet's residue. */
  lemma EmittedFresh(t: Table, p: Packet, modulus: int, sweep: real, now: real, timeout: real)
    requires GoodTable(t) && Supported(modulus)
    requires var out := Locked(t, p, modulus, sweep, now, timeout).1; out.Ok? && out.value.Some?
    ensures var r := Locked(t, p, modulus, sweep, now, timeout).1.value.value;
      && r.key == p.key && r.zone == p.zone
      && p.key !in t.assembled
      && p.key in t.open && sweep - t.open[p.key].firstSeen < timeout
      && Normal(r.residues) && Residue(modulus, p.residue) in r.residues
      && (forall e :: e in r.residues && e.modulus != modulus ==> e in t.open[p.key].residues)
      && Decoded(r.residues) == Ok(r.value)
  {
    var open := Unexpired(t.open, sweep, timeout);
    StoredResidues(open, p, modulus, now);
    assert p.key !in open ==> |Stored(open, p, modulus, now).residues| == 1;
  }

  /** A packet whose decoding fails stays in its assembly, which stays open; so does one that is alone. */
  lemma KeptOpen(t: Table, p: Packet, modulus: int, sweep: real, now: real, timeout: real)
    requires p.key !in t.assembled
    requires var out := Locked(t, p, modulus, sweep, now, timeout).1; out == Ok(None) || out.Err?
    ensures var table := Locked(t, p, modulus, sweep, now, timeout).0;
      && table.assembled == t.assembled
      && p.key in table.open && Residue(modulus, p.residue) in table.open[p.key].residues
      && forall k :: k != p.key ==>
           (k in table.open <==> k in t.open && sweep - t.open[k].firstSeen < timeout) &&
           (k in table.open ==> table.open[k] == t.open[k])
  {
    var a := if p.key in Unexpired(t.open, sweep, timeout) then t.open[p.key].residues else [];
    PutHolds(a, modulus, p.residue);
  }

  lemma PutHolds(d: Dict, m: int, r: int)
    ensures Residue(m, r) in Put(d, m, r)
  {
    assert Put(d, m, r)[IndexOf(d, m)] == Residue(m, r);
  }

  // ---- the receiver object -------------------------------------------------------------

  class LoRaReceiver {
    const timeoutSeconds: real
    var assemblies: map<Key, Assembly>
    var assembled: set<Key>
    var readings: seq<SensorReading>

    ghost predicate Valid()
      reads this
    {
      GoodTable(Table(assemblies, assembled))
    }

    constructor (timeoutSeconds: real)
      ensures Valid() && this.timeoutSeconds == timeoutSeconds
      ensures assemblies == map[] && assembled == {} && readings == []
    {
      this.timeoutSeconds := timeoutSeconds;
      assemblies, assembled, readings := map[], {}, [];
    }

    /** Drops every assembly that has reached the timeout, and nothing else. */
    method ExpireLocked(now: real)
      requires Valid()
      modifies this`assemblies
      ensures Valid()
      ensures assemblies == Unexpired(old(assemblies), now, timeoutSeconds)
    {
      var expired := set k | k in assemblies && now - assemblies[k].firstSeen >= timeoutSeconds;
      var all := assemblies;
      var todo := expired;
      while todo != {}
        invariant todo <= expired <= all.Keys
        invariant assemblies == all - (expired - todo)
        decreases todo
      {
        var k :| k in todo;
        assemblies := assemblies - {k};
        todo := todo - {k};
      }
      assert assemblies == Unexpired(all, now, timeoutSeconds);
    }

    /** The locked section of `process_packet`. */
    method ProcessLocked(p: Packet, modulus: int, sweep: real, now: real)
      returns (r: Result<Option<SensorReading>, Error>)
      requires Valid() && Supported(modulus)
      modifies this`assemblies, this`assembled
      ensures Valid()
      ensures (Table(assemblies, assembled), r) ==
              Locked(Table(old(assemblies), old(assembled)), p, modulus, sweep, now, timeoutSeconds)
    {
      LockedKeepsGood(Table(assemblies, assembled), p, modulus, sweep, now, timeoutSeconds);
      ExpireLocked(sweep);
      if p.key in assembled {
        return Ok(None);
      }
      StoredResidues(assemblies, p, modulus, now);
      var assembly := if p.key in assemblies then assemblies[p.key] else Assembly(now, [], []);
      assembly := assembly.(residues := Put(assembly.residues, modulus, p.residue));
      assembly := assembly.(packets := assembly.packets + [p]);
      assert assembly == Stored(assemblies, p, modulus, now);
      assemblies := assemblies[p.key := assembly];
      if |assembly.residues| < 2 {
        return Ok(None);
      }
      MappingDecoded(assembly.residues);
      var value := Decode(MappingItems(assembly.residues));
      if value.Err? {
        return Err(value.error);
      }
      assert assemblies - {p.key} == Unexpired(old(assemblies), sweep, timeoutSeconds) - {p.key};
      assemblies := assemblies - {p.key};
      assembled := assembled + {p.key};
      return Ok(Some(SensorReading(p.key, value.value, p.zone, assembly.residues)));
    }

    /** A packet that names no supported modulus changes nothing; any other runs the locked section and
        then queues the reading it produced, if any. */
    method ProcessPacket(p: Packet, sweep: real, now: real) returns (r: Result<Option<SensorReading>, Error>)
      requires Valid()
      modifies this
      ensures Valid()
      ensures PacketModulus(p).Err? ==> r == Err(PacketModulus(p).error)
      ensures PacketModulus(p).Err? ==> assemblies == old(assemblies) && assembled == old(assembled)
      ensures PacketModulus(p).Ok? ==>
                ((Table(assemblies, assembled), r) ==
                 Locked(Table(old(assemblies), old(assembled)), p, PacketModulus(p).value, sweep, now, timeoutSeconds))
      ensures readings == old(readings) + if r.Ok? && r.value.Some? then [r.value.value] else []
    {
      var modulus := PacketModulus(p);
      if modulus.Err? {
        return Err(modulus.error);
      }
      r := ProcessLocked(p, modulus.value, sweep, now);
      if r.Ok? && r.value.Some? {
        readings := readings + [r.value.value];
      }
    }

    method NextReading() returns (r: Option<SensorReading>)
      requires Valid()
      modifies this`readings
      ensures Valid()
      ensures old(readings) == [] ==> r == None && readings == []
      ensures old(readings) != [] ==> r == Some(old(readings)[0]) && readings == old(readings)[1..]
    {
      if readings == [] {
        return None;
      }
      r := Some(readings[0]);
      readings := readings[1..];
    }
  }
}
