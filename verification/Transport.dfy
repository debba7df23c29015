/** From the sensor to the gateway: esp32/main/main.c packs and encodes a reading and sends its residues as
    three packets, and gateway/lora_rx.py reassembles it. */
module Transport {
  import opened Wrappers
  import opened Crt
  import opened CrtCodec
  import opened Firmware
  import opened Receiver
  import opened ReceiverRuns

  /** What `crt_encode` leaves in its array for a reading of value `v`. */
  predicate Encoded(rs: seq<CrtResidue>, v: int)
  {
    && |rs| == 3
    && (forall i :: 0 <= i < 3 ==> rs[i].index as int == i)
    && ResiduesOf(ResidueDict(rs), v)
  }

  /** The packet carries the residue of index `i`, which it names as such or by its channel. */
  predicate SentAt(p: Packet, rs: seq<CrtResidue>, i: nat)
    requires |rs| == 3 && i < 3
  {
    && p.modulus == None
    && (p.modulusIndex == Some(i) || (p.modulusIndex == None && p.channel == Some(Channel.Index(i))))
    && p.residue == rs[i].value as int
  }

  /** The packet is one of the three that the sensor sends for these residues. */
  predicate Sent(p: Packet, rs: seq<CrtResidue>)
    requires |rs| == 3
  {
    SentAt(p, rs, 0) || SentAt(p, rs, 1) || SentAt(p, rs, 2)
  }

  /** Sender and receiver agree on the moduli: every packet sent carries a residue of the value. */
  lemma SentCarries(rs: seq<CrtResidue>, v: int, p: Packet)
    requires Encoded(rs, v) && Sent(p, rs)
    ensures Carries(p, v)
  {
    var d := ResidueDict(rs);
    assert d[0].modulus == 97 && d[1].modulus == 101 && d[2].modulus == 103;
    assert d[0].residue == v % 97 && d[1].residue == v % 101 && d[2].residue == v % 103;
  }

  ghost predicate SentOnly(tr: Trace, k: Key, rs: seq<CrtResidue>)
    requires Valid(tr) && |rs| == 3
  {
    forall e :: 0 <= e < |tr.events| && TakesIn(tr.states[e], tr.events[e], k) ==> Sent(tr.events[e].packet, rs)
  }

  /** If what a key takes in are packets sent for one reading, every reading that comes out under it is the
      packed value modulo the product of the two moduli used, and gives back the clamped soil and temperature
      fields whenever the soil count is at most 47. */
  lemma ReadingArrives(tr: Trace, i: nat, rs: seq<CrtResidue>, soilRaw: int, tempCentiC: int)
    requires Valid(tr) && i < |tr.states[|tr.events|].emitted|
    requires Encoded(rs, EncodePacked(soilRaw, tempCentiC))
    requires SentOnly(tr, tr.states[|tr.events|].emitted[i].key, rs)
    ensures var r := tr.states[|tr.events|].emitted[i];
      && FaithfulReading(r, EncodePacked(soilRaw, tempCentiC))
      && (soilRaw <= 47 ==>
            && r.value / 201 == Clamp(soilRaw, 0, 4095)
            && r.value % 201 == Clamp((tempCentiC + 5500) / 100, 0, 200))
  {
    var r, v := tr.states[|tr.events|].emitted[i], EncodePacked(soilRaw, tempCentiC);
    forall e | 0 <= e < |tr.events| ensures HonestAt(tr, e, r.key, v) {
      if TakesIn(tr.states[e], tr.events[e], r.key) {
        SentCarries(rs, v, tr.events[e].packet);
      }
    }
    PackedFields(soilRaw, tempCentiC);
    EndToEnd(tr, |tr.events|, r.key, v);
    assert CameOut(tr.states[|tr.events|], r);
    EmittedExact(tr, i, v);
  }

  /** With all three packets' residues at hand nothing is lost, whatever the soil count. */
  lemma AllThreeDecode(rs: seq<CrtResidue>, soilRaw: int, tempCentiC: int)
    requires Encoded(rs, EncodePacked(soilRaw, tempCentiC))
    ensures Decoded(ResidueDict(rs)) == Ok(EncodePacked(soilRaw, tempCentiC))
  {
    PackedFields(soilRaw, tempCentiC);
    OversizedReadings(ResidueDict(rs), EncodePacked(soilRaw, tempCentiC));
  }
}
