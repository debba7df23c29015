/** gateway/crt_decode.py: encoding and decoding with the deployed moduli. */
module CrtCodec {
  import opened Wrappers
  import opened NumberTheory
  import opened Crt

  const MODULI: seq<int> := [97, 101, 103]
  const MAX_VALUE: int := 97 * 101 * 103

  datatype Error = ValueError | IndexError

  // ---- the deployed moduli -------------------------------------------------------------

  predicate Supported(m: int)
  {
    m == 97 || m == 101 || m == 103
  }

  /** A dict that survived normalisation. */
  predicate Normal(d: Dict)
  {
    && DistinctModuli(d)
    && InRange(d)
    && forall i :: 0 <= i < |d| ==> Supported(d[i].modulus)
  }

  lemma DeployedCoprime(a: nat, b: nat)
    requires Supported(a) && Supported(b) && a != b
    ensures Coprime(a, b)
  {
    CoprimeIntro(97, 101, 25, -24);
    CoprimeIntro(97, 103, 17, -16);
    CoprimeIntro(101, 103, 51, -50);
    CoprimeIntro(101, 97, -24, 25);
    CoprimeIntro(103, 97, -16, 17);
    CoprimeIntro(103, 101, -50, 51);
  }

  lemma NormalCoprime(d: Dict)
    requires Normal(d)
    ensures PairwiseCoprime(d)
  {
    forall i, j | 0 <= i < j < |d| ensures Coprime(d[i].modulus, d[j].modulus) {
      DeployedCoprime(d[i].modulus, d[j].modulus);
    }
  }

  lemma ProductOfTwo(d: Dict)
    requires InRange(d) && |d| == 2
    ensures Product(d) == d[0].modulus * d[1].modulus
  {
    assert Product(d) == Product(d[..1]) * d[1].modulus;
    assert Product(d[..1]) == Product(d[..1][..0]) * d[0].modulus;
  }

  function Keys(d: Dict): set<int>
  {
    set e | e in d :: e.modulus
  }

  lemma {:induction false} KeyCount(d: Dict)
    requires DistinctModuli(d)
    ensures |Keys(d)| == |d|
  {
    if d != [] {
      var n := |d| - 1;
      KeyCount(d[..n]);
      assert d == d[..n] + [d[n]];
      assert Keys(d) == Keys(d[..n]) + {d[n].modulus};
    }
  }

  /** Two residues carry between 9797 and 10403 values; three carry the whole range. */
  lemma Capacity(d: Dict)
    requires Normal(d)
    ensures |d| <= 3
    ensures |d| == 2 ==> Product(d) == d[0].modulus * d[1].modulus && 9797 <= Product(d) <= 10403
    ensures |d| == 3 ==> Product(d) == MAX_VALUE
    ensures Product(d) <= MAX_VALUE
  {
  }

  // ---- encode --------------------------------------------------------------------------

  function Encode(value: int): Result<Dict, Error>
  {
    if value < 0 || value >= MAX_VALUE then Err(ValueError)
    else Ok(seq(3, i requires 0 <= i < 3 => Residue(MODULI[i], value % MODULI[i])))
  }

  /** The residues, under distinct supported moduli, that a sender of `v` may get through. */
  predicate ResiduesOf(d: Dict, v: int)
  {
    && DistinctModuli(d)
    && forall i :: 0 <= i < |d| ==> Supported(d[i].modulus) && d[i].residue == v % d[i].modulus
  }

  lemma ResiduesNormal(d: Dict, v: int)
    requires ResiduesOf(d, v)
    ensures Normal(d) && Matches(d, v)
  {
  }

  // ---- normalisation -------------------------------------------------------------------

  /** One element of the argument: an absent entry, a mapping item or pair (either part may be
      missing), or a bare residue whose position selects the modulus. */
  datatype Item = Nothing | Entry(modulus: Option<int>, residue: Option<int>) | Positional(value: int)

  predicate Positioned(items: seq<Item>, i: nat)
    requires i < |items|
  {
    items[i].Positional? ==> i < 3
  }

  /** The entry an item stands for, or None when it is skipped. */
  function Reading(items: seq<Item>, i: nat): Option<Residue>
    requires i < |items| && Positioned(items, i)
  {
    match items[i]
    case Nothing => None
    case Entry(Some(m), Some(r)) => Some(Residue(m, r))
    case Entry(_, _) => None
    case Positional(r) => Some(Residue(MODULI[i], r))
  }

  predicate Acceptable(items: seq<Item>, i: nat)
    requires i < |items| && Positioned(items, i)
  {
    var e := Reading(items, i);
    e.Some? ==> Supported(e.value.modulus) && 0 <= e.value.residue < e.value.modulus
  }

  /** The position of a key, or the length of the dict when it is absent. */
  function IndexOf(d: Dict, m: int): (i: nat)
    ensures i <= |d|
    ensures i < |d| ==> d[i].modulus == m
    ensures forall j :: 0 <= j < i ==> d[j].modulus != m
  {
    if d == [] then 0 else if d[0].modulus == m then 0 else 1 + IndexOf(d[1..], m)
  }

  /** Dict assignment: overwrite in place, or append a new key. */
  function Put(d: Dict, m: int, r: int): Dict
  {
    var i := IndexOf(d, m);
    if i < |d| then d[i := Residue(m, r)] else d + [Residue(m, r)]
  }

  lemma PutEntries(d: Dict, m: int, r: int)
    requires DistinctModuli(d)
    ensures DistinctModuli(Put(d, m, r))
    ensures forall e :: e in Put(d, m, r) <==> e == Residue(m, r) || (e in d && e.modulus != m)
  {
    var i := IndexOf(d, m);
    var d' := Put(d, m, r);
    assert d'[i] == Residue(m, r);
    forall e ensures e in d' <==> e == Residue(m, r) || (e in d && e.modulus != m) {
      if e in d && e.modulus != m {
        var j :| 0 <= j < |d| && d[j] == e;
        assert d'[j] == e;
      }
      if e in d' && e != Residue(m, r) {
        var j :| 0 <= j < |d'| && d'[j] == e;
        assert d[j] == e;
      }
    }
  }

  /** The dict built from the first `n` items: later items overwrite earlier ones. */
  function Collected(items: seq<Item>, n: nat): Dict
    requires n <= |items| && forall i :: 0 <= i < n ==> Positioned(items, i)
  {
    if n == 0 then [] else
      match Reading(items, n - 1)
      case None => Collected(items, n - 1)
      case Some(e) => Put(Collected(items, n - 1), e.modulus, e.residue)
  }

  /** Item `i` holds the last residue given for its modulus among the first `n` items. */
  ghost predicate Latest(items: seq<Item>, i: nat, n: nat, e: Residue)
    requires i < n <= |items| && forall j :: 0 <= j < n ==> Positioned(items, j)
  {
    && Reading(items, i) == Some(e)
    && forall j :: i < j < n && Reading(items, j).Some? ==> Reading(items, j).value.modulus != e.modulus
  }

  /** Normalisation keeps exactly the last residue of every modulus, once. */
  lemma {:induction false} CollectedEntries(items: seq<Item>, n: nat)
    requires n <= |items| && forall i :: 0 <= i < n ==> Positioned(items, i)
    ensures DistinctModuli(Collected(items, n))
    ensures forall e :: e in Collected(items, n) <==> exists i :: 0 <= i < n && Latest(items, i, n, e)
  {
    if n > 0 {
      CollectedEntries(items, n - 1);
      var d := Collected(items, n - 1);
      var last := Reading(items, n - 1);
      if last.Some? {
        PutEntries(d, last.value.modulus, last.value.residue);
      }
      forall e ensures e in Collected(items, n) <==> exists i :: 0 <= i < n && Latest(items, i, n, e) {
        if e in Collected(items, n) {
          if last == Some(e) {
            assert Latest(items, n - 1, n, e);
          } else {
            var i :| 0 <= i < n - 1 && Latest(items, i, n - 1, e);
            assert Latest(items, i, n, e);
          }
        }
        if i :| 0 <= i < n && Latest(items, i, n, e) {
          if i < n - 1 {
            assert Latest(items, i, n - 1, e);
          }
        }
      }
    }
  }

  /** A mapping argument, whose keys are distinct, normalises to itself. */
  function MappingItems(d: Dict): (items: seq<Item>)
    ensures |items| == |d| && forall i :: 0 <= i < |d| ==> items[i] == Entry(Some(d[i].modulus), Some(d[i].residue))
  {
    seq(|d|, i requires 0 <= i < |d| => Entry(Some(d[i].modulus), Some(d[i].residue)))
  }

  lemma {:induction false} MappingCollected(d: Dict, n: nat)
    requires DistinctModuli(d) && n <= |d|
    ensures Collected(MappingItems(d), n) == d[..n]
  {
    if n > 0 {
      MappingCollected(d, n - 1);
      assert d[..n] == d[..n - 1] + [d[n - 1]];
    }
  }

  predicate AllPositioned(items: seq<Item>)
  {
    forall i :: 0 <= i < |items| ==> Positioned(items, i)
  }

  predicate AllAcceptable(items: seq<Item>)
    requires AllPositioned(items)
  {
    forall i :: 0 <= i < |items| ==> Acceptable(items, i)
  }

  lemma ModuliSupported(m: int)
    ensures m in MODULI <==> Supported(m)
  {
  }

  lemma PutNormal(d: Dict, e: Residue)
    requires Normal(d) && Supported(e.modulus) && 0 <= e.residue < e.modulus
    ensures Normal(Put(d, e.modulus, e.residue))
  {
  }

  method Normalise(items: seq<Item>) returns (r: Result<Dict, Error>)
    ensures r == Err(IndexError) <==> !AllPositioned(items)
    ensures r.Ok? <==> AllPositioned(items) && AllAcceptable(items)
    ensures r.Ok? ==> Normal(r.value) && r.value == Collected(items, |items|)
  {
    for i := 0 to |items|
      invariant forall j :: 0 <= j < i ==> Positioned(items, j)
    {
      if items[i].Positional? && i >= |MODULI| {
        assert !Positioned(items, i);
        return Err(IndexError);
      }
    }
    var normalised: Dict := [];
    for i := 0 to |items|
      invariant forall j :: 0 <= j < i ==> Acceptable(items, j)
      invariant Normal(normalised) && normalised == Collected(items, i)
    {
      match Reading(items, i)
      case None =>
      case Some(e) =>
        ModuliSupported(e.modulus);
        if e.modulus !in MODULI {
          assert !Acceptable(items, i);
          return Err(ValueError);
        }
        if e.residue < 0 || e.residue >= e.modulus {
          assert !Acceptable(items, i);
          return Err(ValueError);
        }
        PutNormal(normalised, e);
        normalised := Put(normalised, e.modulus, e.residue);
    }
    return Ok(normalised);
  }

  // ---- decode --------------------------------------------------------------------------

  /** What decoding a normalised dict means. */
  ghost function Decoded(d: Dict): (r: Result<int, Error>)
  {
    if Normal(d) && |d| >= 2 then
      NormalCoprime(d);
      Ok(Solution(d))
    else Err(ValueError)
  }

  /** What decoding any argument means: the first phase rejects bare residues without a position,
      the second unsupported moduli and out-of-range residues, the last fewer than two moduli. */
  ghost function DecodedItems(items: seq<Item>): (r: Result<int, Error>)
  {
    if !AllPositioned(items) then Err(IndexError)
    else if !AllAcceptable(items) then Err(ValueError)
    else Decoded(Collected(items, |items|))
  }

  /** The range check at the end of the source's function is kept; the proof shows it never fires. */
  method Decode(items: seq<Item>) returns (r: Result<int, Error>)
    ensures r == DecodedItems(items)
  {
    var n := Normalise(items);
    if n.Err? {
      assert n.error == IndexError || n.error == ValueError;
      return Err(n.error);
    }
    var normalised := n.value;
    if |normalised| < 2 {
      return Err(ValueError);
    }
    NormalCoprime(normalised);
    Capacity(normalised);
    var value := Combine(normalised);
    if value < 0 || value >= MAX_VALUE {
      assert false;
      return Err(ValueError);
    }
    return Ok(value);
  }

  lemma MappingAcceptable(d: Dict)
    requires DistinctModuli(d)
    ensures AllPositioned(MappingItems(d))
    ensures Normal(d) <==> AllAcceptable(MappingItems(d))
  {
    var items := MappingItems(d);
    forall i | 0 <= i < |d|
      ensures Acceptable(items, i) <==> Supported(d[i].modulus) && 0 <= d[i].residue < d[i].modulus
    {
      assert Reading(items, i) == Some(d[i]);
    }
  }

  /** A mapping argument decodes as the dict it is. */
  lemma MappingDecoded(d: Dict)
    requires DistinctModuli(d)
    ensures DecodedItems(MappingItems(d)) == Decoded(d)
  {
    MappingAcceptable(d);
    MappingCollected(d, |d|);
    assert d[..|d|] == d;
  }

  /** What one item says: a pair gives its modulus and residue, a bare residue takes the modulus at its
      position among 97, 101 and 103, and an item with a part missing says nothing. */
  lemma ItemMeaning(items: seq<Item>, i: nat, m: int, r: int)
    requires i < |items| && Positioned(items, i)
    ensures Reading(items, i) == Some(Residue(m, r)) <==>
            (items[i] == Entry(Some(m), Some(r)) ||
             (items[i] == Positional(r) && ((i == 0 && m == 97) || (i == 1 && m == 101) || (i == 2 && m == 103))))
  {
  }

  /** Bare residues of a value in range, in the order of the moduli, decode to the value. */
  lemma PositionalRoundTrip(v: int)
    requires 0 <= v < 1009091
    ensures DecodedItems([Positional(v % 97), Positional(v % 101), Positional(v % 103)]) == Ok(v)
  {
    var items := [Positional(v % 97), Positional(v % 101), Positional(v % 103)];
    var d := Encode(v).value;
    RoundTrip(v);
    assert d == [Residue(97, v % 97), Residue(101, v % 101), Residue(103, v % 103)];
    ItemMeaning(items, 0, 97, v % 97);
    ItemMeaning(items, 1, 101, v % 101);
    ItemMeaning(items, 2, 103, v % 103);
    assert Collected(items, 1) == d[..1];
    assert Collected(items, 2) == d[..2];
    assert Collected(items, 3) == d;
  }

  /** Only the values below the product of the moduli are encoded. */
  lemma EncodeRange(v: int)
    ensures Encode(v).Ok? <==> 0 <= v < 1009091
    ensures Encode(v).Err? ==> Encode(v) == Err(ValueError)
  {
  }

  // ---- what the pair promises ----------------------------------------------------------

  /** Any two or more residues of `v` decode to `v` modulo the product of the moduli received. */
  lemma DecodesModuloProduct(d: Dict, v: int)
    requires ResiduesOf(d, v) && |d| >= 2
    ensures Normal(d) && Decoded(d) == Ok(v % Product(d))
  {
    ResiduesNormal(d, v);
    NormalCoprime(d);
    SolutionOf(d, v);
  }

  /** The whole encoding of a value in range decodes to that value. */
  lemma RoundTrip(v: int)
    requires 0 <= v < MAX_VALUE
    ensures Encode(v).Ok? && Decoded(Encode(v).value) == Ok(v)
  {
    var d := Encode(v).value;
    assert d[0].modulus == 97 && d[1].modulus == 101 && d[2].modulus == 103;
    DecodesModuloProduct(d, v);
    Capacity(d);
    RemainderUnique(v, MAX_VALUE, 0, v);
  }

  /** A pair of residues recovers the value exactly when the value is below the pair's product. */
  lemma PairExact(d: Dict, v: int)
    requires ResiduesOf(d, v) && |d| == 2 && 0 <= v
    ensures Decoded(d) == Ok(v) <==> v < d[0].modulus * d[1].modulus
  {
    DecodesModuloProduct(d, v);
    Capacity(d);
    var p := Product(d);
    if v < p {
      RemainderUnique(v, p, 0, v);
    }
  }

  /** The firmware's unit test expects 500000 back from its first two residues; decoding gives 353. */
  lemma PairCounterexample()
    ensures var d := [Residue(97, 500000 % 97), Residue(101, 500000 % 101)];
      ResiduesOf(d, 500000) && Decoded(d) == Ok(353)
  {
    var d := [Residue(97, 500000 % 97), Residue(101, 500000 % 101)];
    DecodesModuloProduct(d, 500000);
    Capacity(d);
  }
}
