/** esp32/main/crt_encode.c and the packing of a sensor reading in esp32/main/main.c,
    over C's fixed-width integers. */
module Firmware {
  import opened Wrappers
  import opened NumberTheory
  import opened Crt
  import opened CrtCodec

  newtype uint8 = x: int | 0 <= x < 0x100
  newtype uint16 = x: int | 0 <= x < 0x1_0000
  newtype uint32 = x: int | 0 <= x < 0x1_0000_0000
  newtype int16 = x: int | -0x8000 <= x < 0x8000
  newtype int32 = x: int | -0x8000_0000 <= x < 0x8000_0000

  const CRT_RESIDUE_COUNT: uint8 := 3
  const CRT_MAX_VALUE: uint32 := 1009591
  const READING_TEMP_BUCKETS := 201

  datatype EspErr = ESP_OK | ESP_ERR_INVALID_ARG | ESP_ERR_INVALID_SIZE | ESP_ERR_NOT_FOUND

  datatype CrtResidue = CrtResidue(index: uint8, value: uint8)

  /** The target of an output pointer. */
  class Word {
    var value: uint32
  }

  /** `s_moduli`. */
  function Modulus(index: uint8): (m: uint16)
    requires index < CRT_RESIDUE_COUNT
    ensures Supported(m as int) && m <= 103
    ensures m as int == MODULI[index as int]
  {
    if index == 0 then 97 else if index == 1 then 101 else 103
  }

  /** An array of residues as the dict the gateway reassembles from it. */
  function ResidueDict(rs: seq<CrtResidue>): (d: Dict)
    requires forall i :: 0 <= i < |rs| ==> rs[i].index < CRT_RESIDUE_COUNT
    ensures |d| == |rs|
    ensures forall i :: 0 <= i < |rs| ==> d[i] == Residue(Modulus(rs[i].index) as int, rs[i].value as int)
  {
    seq(|rs|, i requires 0 <= i < |rs| => Residue(Modulus(rs[i].index) as int, rs[i].value as int))
  }

  // ---- crt_encode ----------------------------------------------------------------------

  /** A null array is refused, an oversized reading leaves the array alone, any other reading is
      written out as its three residues in index order. */
  method CrtEncode(reading: uint32, residues: array?<CrtResidue>) returns (err: EspErr)
    requires residues != null ==> residues.Length == CRT_RESIDUE_COUNT as int
    modifies if residues != null then {residues} else {}
    ensures residues == null ==> err == ESP_ERR_INVALID_ARG
    ensures residues != null && reading >= CRT_MAX_VALUE ==>
              err == ESP_ERR_INVALID_SIZE && residues[..] == old(residues[..])
    ensures residues != null && reading < CRT_MAX_VALUE ==>
              && err == ESP_OK
              && (forall i: uint8 :: i < CRT_RESIDUE_COUNT ==> residues[i].index == i)
              && ResiduesOf(ResidueDict(residues[..]), reading as int)
  {
    if residues == null {
      return ESP_ERR_INVALID_ARG;
    }
    if reading >= CRT_MAX_VALUE {
      return ESP_ERR_INVALID_SIZE;
    }
    var i: uint8 := 0;
    while i < CRT_RESIDUE_COUNT
      invariant i <= CRT_RESIDUE_COUNT
      invariant forall j: uint8 :: j < i ==>
                  residues[j].index == j && residues[j].value as int == reading as int % Modulus(j) as int
    {
      residues[i] := CrtResidue(i, (reading % Modulus(i) as uint32) as uint8);
      i := i + 1;
    }
    return ESP_OK;
  }

  /** The header's CRT_MAX_VALUE is not the product of the moduli, 1009091, that its own static
      assertion demands. Readings between the two are accepted by `crt_encode` and come back 1009091
      too small; all three residues recover a reading exactly when it is below the true product. */
  lemma OversizedReadings(d: Dict, v: int)
    requires ResiduesOf(d, v) && |d| == 3 && 0 <= v < CRT_MAX_VALUE as int
    ensures MAX_VALUE == 1009091 && CRT_MAX_VALUE as int == 1009591
    ensures Decoded(d) == Ok(v) <==> v < 1009091
    ensures v >= 1009091 ==> Decoded(d) == Ok(v - 1009091)
  {
    DecodesModuloProduct(d, v);
    Capacity(d);
    if v < 1009091 {
      RemainderUnique(v, 1009091, 0, v);
    } else {
      RemainderUnique(v, 1009091, 1, v - 1009091);
    }
  }

  // ---- crt_decode ----------------------------------------------------------------------

  predicate DecodableIndices(a: CrtResidue, b: CrtResidue)
  {
    a.index < CRT_RESIDUE_COUNT && b.index < CRT_RESIDUE_COUNT && a.index != b.index
  }

  predicate DecodablePair(a: CrtResidue, b: CrtResidue)
  {
    && DecodableIndices(a, b)
    && a.value as uint16 < Modulus(a.index)
    && b.value as uint16 < Modulus(b.index)
  }

  function PairDict(a: CrtResidue, b: CrtResidue): (d: Dict)
    requires DecodablePair(a, b)
    ensures Normal(d) && |d| == 2
  {
    [Residue(Modulus(a.index) as int, a.value as int), Residue(Modulus(b.index) as int, b.value as int)]
  }

  /** One step of the search: a candidate that does not match leaves the solution a full stride ahead. */
  lemma SearchStep(d: Dict, candidate: int)
    requires Normal(d) && |d| == 2 && PairwiseCoprime(d)
    requires 0 <= candidate <= Solution(d) && candidate % d[0].modulus == d[0].residue
    ensures candidate % d[1].modulus == d[1].residue ==> candidate == Solution(d)
    ensures candidate % d[1].modulus != d[1].residue ==> candidate + d[0].modulus <= Solution(d)
    ensures (candidate + d[0].modulus) % d[0].modulus == d[0].residue
  {
    var m, x := d[0].modulus, Solution(d);
    if candidate % d[1].modulus == d[1].residue {
      SolutionUnique(d, candidate, x);
    } else {
      Congruent(x, candidate, m);
      if x - candidate < m {
        DividesSmall(m, x - candidate);
      }
    }
    DividesIntro(m, 1, m);
    AddMultiple(candidate, m, m);
  }

  /** The stepping search. Its `uint32` candidate never overflows, a well-formed pair never yields
      ESP_ERR_NOT_FOUND, and the value stored is the least solution, the gateway's decoding of the pair. */
  method CrtDecode(residues: array?<CrtResidue>, reading: Word?) returns (err: EspErr)
    requires residues != null ==> residues.Length == 2
    modifies if reading != null then {reading} else {}
    ensures err == ESP_OK <==> residues != null && reading != null && DecodablePair(residues[0], residues[1])
    ensures err == ESP_OK || err == ESP_ERR_INVALID_ARG
    ensures err == ESP_OK ==> Decoded(PairDict(residues[0], residues[1])) == Ok(reading.value as int)
    ensures err != ESP_OK && reading != null ==> reading.value == old(reading.value)
  {
    if residues == null || reading == null {
      return ESP_ERR_INVALID_ARG;
    }
    if residues[0].index >= CRT_RESIDUE_COUNT || residues[1].index >= CRT_RESIDUE_COUNT
       || residues[0].index == residues[1].index {
      return ESP_ERR_INVALID_ARG;
    }
    var m0 := Modulus(residues[0].index);
    var m1 := Modulus(residues[1].index);
    if residues[0].value as uint16 >= m0 || residues[1].value as uint16 >= m1 {
      return ESP_ERR_INVALID_ARG;
    }

    ghost var d := PairDict(residues[0], residues[1]);
    NormalCoprime(d);
    Capacity(d);
    RemainderUnique(d[0].residue, d[0].modulus, 0, d[0].residue);
    FirstCandidate(d);
    var candidate: uint32 := residues[0].value as uint32;
    while candidate < CRT_MAX_VALUE
      invariant candidate as int % d[0].modulus == d[0].residue
      invariant candidate as int <= Solution(d) < 10403
      decreases CRT_MAX_VALUE - candidate
    {
      SearchStep(d, candidate as int);
      if candidate % m1 as uint32 == residues[1].value as uint32 {
        reading.value := candidate;
        return ESP_OK;
      }
      candidate := candidate + m0 as uint32;
    }
    assert false;
    return ESP_ERR_NOT_FOUND;
  }

  lemma FirstCandidate(d: Dict)
    requires Normal(d) && |d| == 2 && PairwiseCoprime(d)
    ensures d[0].residue <= Solution(d)
  {
  }

  /** The order of the two residues does not matter, and nothing smaller leaves both of them. */
  lemma PairOrder(a: CrtResidue, b: CrtResidue)
    requires DecodablePair(a, b)
    ensures Decoded(PairDict(a, b)).Ok? && Decoded(PairDict(a, b)) == Decoded(PairDict(b, a))
    ensures forall y :: 0 <= y < Decoded(PairDict(a, b)).value ==> !Matches(PairDict(a, b), y)
  {
    var d, e := PairDict(a, b), PairDict(b, a);
    NormalCoprime(d);
    NormalCoprime(e);
    Capacity(d);
    Capacity(e);
    SolutionUnique(d, Solution(d), Solution(e));
    forall y | 0 <= y < Solution(d) ensures !Matches(d, y) {
      if Matches(d, y) {
        SolutionUnique(d, y, Solution(d));
      }
    }
  }

  // ---- encode_sensor_value -------------------------------------------------------------

  /** C integer division, truncating toward zero. */
  function CDiv(a: int32, b: int32): (q: int)
    requires b > 0
  {
    if a >= 0 then a as int / b as int else -((-(a as int)) / b as int)
  }

  function Clamp(x: int, low: int, high: int): int
  {
    if x < low then low else if x > high then high else x
  }

  /** The packing as the analysis script restates it, with Python's flooring division. */
  function EncodePacked(soilRaw: int, tempCentiC: int): int
  {
    var soil := Clamp(soilRaw, 0, 4095);
    var bucket := Clamp((tempCentiC + 5500) / 100, 0, READING_TEMP_BUCKETS - 1);
    soil * READING_TEMP_BUCKETS + bucket
  }

  /** The firmware's packing: truncating division and clamping in place agree with the flooring
      version on every 16-bit input. */
  method EncodeSensorValue(soilMoistureRaw: uint16, temperatureCentiC: int16) returns (packed: uint32)
    ensures packed as int == EncodePacked(soilMoistureRaw as int, temperatureCentiC as int)
  {
    var tempBucket := CDiv(temperatureCentiC as int32 + 5500, 100) as int32;
    if tempBucket < 0 {
      tempBucket := 0;
    } else if tempBucket >= READING_TEMP_BUCKETS as int32 {
      tempBucket := READING_TEMP_BUCKETS as int32 - 1;
    }
    var soil := soilMoistureRaw as uint32;
    if soil > 4095 {
      soil := 4095;
    }
    return soil * READING_TEMP_BUCKETS as uint32 + tempBucket as uint32;
  }

  /** Packing loses nothing but the clamping, and always fits the residue encoding. */
  lemma PackedFields(soilRaw: int, tempCentiC: int)
    ensures var v := EncodePacked(soilRaw, tempCentiC);
      && 0 <= v <= 823295 < MAX_VALUE
      && v / READING_TEMP_BUCKETS == Clamp(soilRaw, 0, 4095)
      && v % READING_TEMP_BUCKETS == Clamp((tempCentiC + 5500) / 100, 0, 200)
  {
  }

  /** A reading sent as three residues comes back, field by field. */
  lemma ReadingRoundTrip(soilRaw: int, tempCentiC: int)
    ensures var v := EncodePacked(soilRaw, tempCentiC);
      && Encode(v).Ok?
      && Decoded(Encode(v).value).Ok?
      && var x := Decoded(Encode(v).value).value;
         && x / READING_TEMP_BUCKETS == Clamp(soilRaw, 0, 4095)
         && x % READING_TEMP_BUCKETS == Clamp((tempCentiC + 5500) / 100, 0, 200)
  {
    PackedFields(soilRaw, tempCentiC);
    RoundTrip(EncodePacked(soilRaw, tempCentiC));
  }

  /** With one residue lost, a reading survives exactly when its packed value is below the product
      of the two moduli left; soil counts of 52 and above never do. */
  lemma ReadingFromPair(soilRaw: int, tempCentiC: int, d: Dict)
    requires ResiduesOf(d, EncodePacked(soilRaw, tempCentiC)) && |d| == 2
    ensures Decoded(d) == Ok(EncodePacked(soilRaw, tempCentiC)) <==>
            EncodePacked(soilRaw, tempCentiC) < d[0].modulus * d[1].modulus
    ensures soilRaw >= 52 ==> Decoded(d) != Ok(EncodePacked(soilRaw, tempCentiC))
    ensures soilRaw <= 47 ==> Decoded(d) == Ok(EncodePacked(soilRaw, tempCentiC))
  {
    var v := EncodePacked(soilRaw, tempCentiC);
    PackedFields(soilRaw, tempCentiC);
    PairExact(d, v);
  }

  // ---- the corrected moduli of the analysis --------------------------------------------

  predicate Corrected(m: int)
  {
    m == 253 || m == 254 || m == 255
  }

  /** With moduli 253, 254, 255 and an 8-bit soil field, any two residues recover every legal value. */
  lemma CorrectedPairsExact(d: Dict, soil: int, bucket: int)
    requires |d| == 2 && DistinctModuli(d)
    requires 0 <= soil <= 255 && 0 <= bucket <= 200
    requires forall i :: 0 <= i < 2 ==>
               Corrected(d[i].modulus) && d[i].residue == (soil * READING_TEMP_BUCKETS + bucket) % d[i].modulus
    ensures InRange(d) && PairwiseCoprime(d)
    ensures Solution(d) == soil * READING_TEMP_BUCKETS + bucket
  {
    CoprimeIntro(253, 254, -1, 1);
    CoprimeIntro(254, 253, 1, -1);
    CoprimeIntro(254, 255, -1, 1);
    CoprimeIntro(255, 254, 1, -1);
    CoprimeIntro(253, 255, 127, -126);
    CoprimeIntro(255, 253, -126, 127);
    ProductOfTwo(d);
    var v := soil * READING_TEMP_BUCKETS + bucket;
    assert Product(d) >= 64262;
    SolutionOf(d, v);
    RemainderUnique(v, Product(d), 0, v);
  }
}
