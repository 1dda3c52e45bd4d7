/**
 * Near-duplicate detection: a MinHash signature whose slots are lowered in
 * place as n-grams are absorbed, its string form and the parse back, the
 * slot-matching similarity estimate, and a locality-sensitive-hashing index
 * whose bands map a band key to the set of ids filed under it.
 */
module Similarity {
  import opened Wrappers
  import opened Strings
  import opened TextNormalization

  // --------------------------------------------------------------- slots

  /**
   * A JavaScript number as a MinHash slot can hold it: `Infinity` for a slot
   * no item has lowered yet, an integer, or `NaN` from parsing a signature
   * piece that is not a number.
   */
  datatype Slot = Infinity | Num(value: int) | NaN

  /** `hash < slot` in JavaScript: everything is below `Infinity`, nothing below `NaN`. */
  predicate Less(hash: int, slot: Slot) {
    slot.Infinity? || (slot.Num? && hash < slot.value)
  }

  /** `a` is no greater than `b` in the order `Less` uses (`NaN` only below itself). */
  predicate NotAbove(a: Slot, b: Slot) {
    match b
    case Infinity => true
    case Num(y) => a.Num? && a.value <= y
    case NaN => a.NaN?
  }

  /** `a === b` on numbers: `NaN` equals nothing, not even itself. */
  predicate SlotEq(a: Slot, b: Slot) {
    a == b && !a.NaN?
  }

  // ------------------------------------------------------ decimal numerals

  predicate IsDigit(c: char) { '0' <= c <= '9' }

  predicate AllDigits(s: string) {
    forall i :: 0 <= i < |s| ==> IsDigit(s[i])
  }

  function DigitChar(d: nat): (c: char)
    requires d < 10
    ensures IsDigit(c) && c as int - '0' as int == d
  {
    ('0' as int + d) as char
  }

  /** The decimal digits of `n`, without leading zeros, as `String(n)` writes them. */
  function ShowNat(n: nat): (r: string)
    ensures |r| >= 1 && AllDigits(r)
  {
    if n < 10 then [DigitChar(n)] else ShowNat(n / 10) + [DigitChar(n % 10)]
  }

  /** The value of a run of decimal digits. */
  function DigitsValue(s: string): nat
    requires AllDigits(s)
  {
    if s == [] then 0 else DigitsValue(s[..|s| - 1]) * 10 + (s[|s| - 1] as int - '0' as int)
  }

  lemma {:induction false} DigitsValueShowNat(n: nat)
    ensures DigitsValue(ShowNat(n)) == n
  {
    if n >= 10 {
      var s := ShowNat(n);
      assert s[..|s| - 1] == ShowNat(n / 10);
      DigitsValueShowNat(n / 10);
    }
  }

  /** `String(x)` for a slot. */
  function ShowSlot(x: Slot): (r: string)
    ensures r != [] && ',' !in r
    ensures forall i :: 0 <= i < |r| ==> !IsJsSpace(r[i])
  {
    match x
    case Infinity => "Infinity"
    case NaN => "NaN"
    case Num(v) => if v < 0 then "-" + ShowNat(-v) else ShowNat(v)
  }

  /**
   * `Number(s)` on the pieces a signature can hold: surrounding whitespace
   * is ignored, an empty piece is 0, then `Infinity`, and decimal integers
   * with an optional sign; anything else is `NaN`.
   */
  function NumberOf(s: string): Slot {
    var t := JsTrim(s);
    if t == "" then Num(0)
    else if t == "Infinity" || t == "+Infinity" then Infinity
    else if AllDigits(t) then Num(DigitsValue(t))
    else if |t| > 1 && t[0] == '+' && AllDigits(t[1..]) then Num(DigitsValue(t[1..]))
    else if |t| > 1 && t[0] == '-' && AllDigits(t[1..]) then Num(-(DigitsValue(t[1..]) as int))
    else NaN
  }

  /** `Number(String(x))` gives back every slot. */
  lemma NumberOfShowSlot(x: Slot)
    ensures NumberOf(ShowSlot(x)) == x
  {
    var s := ShowSlot(x);
    TrimNoSpace(s, IsJsSpace);
    match x
    case Infinity =>
    case NaN =>
      assert !IsDigit(s[0]);
    case Num(v) =>
      if v < 0 {
        assert !IsDigit(s[0]);
        assert s[1..] == ShowNat(-v);
        DigitsValueShowNat(-v);
      } else {
        DigitsValueShowNat(v);
      }
  }

  // ---------------------------------------------------------- signatures

  function Shown(h: seq<Slot>): (r: seq<string>)
    ensures |r| == |h|
    ensures forall k :: 0 <= k < |r| ==> r[k] == ShowSlot(h[k])
  {
    seq(|h|, k requires 0 <= k < |h| => ShowSlot(h[k]))
  }

  /**
   * The slots written out and joined by commas: splitting at the commas
   * gives back each slot's text, and no slots give the empty string.
   */
  function Signature(h: seq<Slot>): (r: string)
    ensures |h| >= 1 ==> Split(r, ',') == Shown(h)
    ensures |h| == 0 ==> r == ""
  {
    if |h| >= 1 then SplitJoin(Shown(h), ','); Join(Shown(h), ",")
    else Join(Shown(h), ",")
  }

  /** The signature split at commas, each piece read as a number. */
  function ParseSignature(sig: string): (r: seq<Slot>)
    ensures |r| == |Split(sig, ',')|
    ensures forall k :: 0 <= k < |r| ==> r[k] == NumberOf(Split(sig, ',')[k])
  {
    var parts := Split(sig, ',');
    seq(|parts|, k requires 0 <= k < |parts| => NumberOf(parts[k]))
  }

  /**
   * Parsing a signature gives back the slots it was written from, as long
   * as there is at least one: the empty signature parses as the one slot 0.
   */
  lemma SignatureRoundTrip(h: seq<Slot>)
    ensures |h| >= 1 ==> ParseSignature(Signature(h)) == h
    ensures |h| == 0 ==> ParseSignature(Signature(h)) == [Num(0)]
  {
    var parts := Shown(h);
    if |h| >= 1 {
      SplitJoin(parts, ',');
      forall k | 0 <= k < |h| ensures ParseSignature(Signature(h))[k] == h[k] {
        NumberOfShowSlot(h[k]);
      }
    } else {
      assert Signature(h) == "";
      assert Split("", ',') == [""];
      assert JsTrim("") == "";
    }
  }

  // ------------------------------------------------------------ absorbing

  /** A slot after one item's hash for it has been offered. */
  function Lowered(slot: Slot, hash: int): Slot {
    if Less(hash, slot) then Num(hash) else slot
  }

  /** Every slot after `item` has been offered; slot `j` hashes with seed `j`. */
  function Step(h: seq<Slot>, item: string): (r: seq<Slot>)
    ensures |r| == |h|
    ensures forall j :: 0 <= j < |r| ==> r[j] == Lowered(h[j], SimpleHashSpec(item, j))
  {
    seq(|h|, j requires 0 <= j < |h| => Lowered(h[j], SimpleHashSpec(item, j)))
  }

  /** The slots after `items` have been offered in order. */
  function Absorb(h: seq<Slot>, items: seq<string>): seq<Slot>
    decreases |items|
  {
    if items == [] then h else Absorb(Step(h, items[0]), items[1..])
  }

  /** Absorbing keeps the number of slots and never raises any slot. */
  lemma {:induction false} AbsorbNeverIncreases(h: seq<Slot>, items: seq<string>)
    ensures |Absorb(h, items)| == |h|
    ensures forall j :: 0 <= j < |h| ==> NotAbove(Absorb(h, items)[j], h[j])
    decreases |items|
  {
    if items != [] {
      var s := Step(h, items[0]);
      AbsorbNeverIncreases(s, items[1..]);
    }
  }

  /**
   * After absorbing, a slot that was not `NaN` holds a number no greater
   * than the hash of any absorbed item for that slot.
   */
  lemma {:induction false} AbsorbBelowEvery(h: seq<Slot>, items: seq<string>, j: nat, k: nat)
    requires j < |h| && !h[j].NaN?
    requires k < |items|
    ensures |Absorb(h, items)| == |h|
    ensures Absorb(h, items)[j].Num? && Absorb(h, items)[j].value <= SimpleHashSpec(items[k], j)
    decreases |items|
  {
    var s := Step(h, items[0]);
    if k == 0 {
      AbsorbNeverIncreases(s, items[1..]);
    } else {
      AbsorbBelowEvery(s, items[1..], j, k - 1);
    }
  }

  /** After absorbing, each slot is its old value or the hash of one absorbed item. */
  lemma {:induction false} AbsorbAttained(h: seq<Slot>, items: seq<string>, j: nat)
    requires j < |h|
    ensures |Absorb(h, items)| == |h|
    ensures Absorb(h, items)[j] == h[j] ||
            exists k :: 0 <= k < |items| && Absorb(h, items)[j] == Num(SimpleHashSpec(items[k], j))
    decreases |items|
  {
    AbsorbNeverIncreases(h, items);
    if items != [] {
      var s := Step(h, items[0]);
      AbsorbAttained(s, items[1..], j);
      if Absorb(h, items)[j] != h[j] && Absorb(h, items)[j] != s[j] {
        var k :| 0 <= k < |items[1..]| && Absorb(s, items[1..])[j] == Num(SimpleHashSpec(items[1..][k], j));
        assert items[1..][k] == items[k + 1];
      }
    }
  }

  // ----------------------------------------------------------- similarity

  /** A similarity estimate: a ratio, or `NaN` from dividing 0 by 0. */
  datatype Score = Ratio(value: real) | NotANumber

  const SIZE_MISMATCH := "MinHash objects must have the same number of hashes"

  /** The number of slots among the first `n` that match. */
  function Matches(a: seq<Slot>, b: seq<Slot>, n: nat): (r: nat)
    requires n <= |a| && n <= |b|
    ensures r <= n
  {
    if n == 0 then 0 else Matches(a, b, n - 1) + (if SlotEq(a[n - 1], b[n - 1]) then 1 else 0)
  }

  /**
   * `similarity`: the thrown error, or matching slots over the number of
   * slots. The loop of `MinHash.Similarity` computes it.
   */
  function Compare(a: seq<Slot>, b: seq<Slot>): Result<Score, string> {
    if |a| != |b| then Err(SIZE_MISMATCH)
    else if |a| == 0 then Ok(NotANumber)
    else Ok(Ratio(Matches(a, b, |a|) as real / |a| as real))
  }

  /** Signatures of different sizes are refused, and only they. */
  lemma CompareRefusesMismatch(a: seq<Slot>, b: seq<Slot>)
    ensures Compare(a, b).Err? <==> |a| != |b|
  {
  }

  /** A similarity ratio lies between 0 and 1. */
  lemma CompareRange(a: seq<Slot>, b: seq<Slot>)
    requires Compare(a, b).Ok? && Compare(a, b).value.Ratio?
    ensures 0.0 <= Compare(a, b).value.value <= 1.0
  {
  }

  lemma {:induction false} MatchesSymmetric(a: seq<Slot>, b: seq<Slot>, n: nat)
    requires n <= |a| && n <= |b|
    ensures Matches(a, b, n) == Matches(b, a, n)
  {
    if n > 0 {
      MatchesSymmetric(a, b, n - 1);
    }
  }

  /** The estimate does not depend on which side asks. */
  lemma CompareSymmetric(a: seq<Slot>, b: seq<Slot>)
    ensures Compare(a, b) == Compare(b, a)
  {
    if |a| == |b| {
      MatchesSymmetric(a, b, |a|);
    }
  }

  lemma {:induction false} MatchesSelf(a: seq<Slot>, n: nat)
    requires n <= |a|
    requires forall j :: 0 <= j < |a| ==> !a[j].NaN?
    ensures Matches(a, a, n) == n
  {
    if n > 0 {
      MatchesSelf(a, n - 1);
    }
  }

  /** A signature with no `NaN` slot is fully similar to itself. */
  lemma CompareSelf(a: seq<Slot>)
    requires |a| >= 1
    requires forall j :: 0 <= j < |a| ==> !a[j].NaN?
    ensures Compare(a, a) == Ok(Ratio(1.0))
  {
    MatchesSelf(a, |a|);
    var n := |a| as real;
    assert Matches(a, a, |a|) as real == n;
    assert n / n == 1.0;
  }

  // -------------------------------------------------------------- MinHash

  class MinHash {
    const numHashes: nat
    var hashes: array<Slot>

    ghost predicate Valid()
      reads this
    {
      hashes.Length == numHashes
    }

    /** Every slot starts at `Infinity`. */
    constructor(numHashes: nat)
      ensures Valid() && this.numHashes == numHashes && fresh(hashes)
      ensures hashes[..] == seq(numHashes, _ => Infinity)
    {
      this.numHashes := numHashes;
      hashes := new Slot[numHashes](_ => Infinity);
    }

    /** `update(items)`: every slot keeps the least hash offered to it. */
    method Update(items: seq<string>)
      requires Valid()
      modifies hashes
      ensures Valid()
      ensures hashes[..] == Absorb(old(hashes[..]), items)
    {
      ghost var start := hashes[..];
      for k := 0 to |items|
        invariant Absorb(hashes[..], items[k..]) == Absorb(start, items)
      {
        ghost var before := hashes[..];
        for i := 0 to numHashes
          invariant forall j :: 0 <= j < i ==> hashes[j] == Lowered(before[j], SimpleHashSpec(items[k], j))
          invariant forall j :: i <= j < numHashes ==> hashes[j] == before[j]
        {
          var hash := SimpleHash(items[k], i);
          if Less(hash, hashes[i]) {
            hashes[i] := Num(hash);
          }
        }
        assert hashes[..] == Step(before, items[k]);
        assert items[k..][1..] == items[k + 1..];
      }
      assert items[|items|..] == [];
    }

    /** `similarity(other)`. */
    method Similarity(other: MinHash) returns (r: Result<Score, string>)
      requires Valid() && other.Valid()
      ensures r == Compare(hashes[..], other.hashes[..])
    {
      if numHashes != other.numHashes {
        return Err(SIZE_MISMATCH);
      }
      var matches := 0;
      for i := 0 to numHashes
        invariant matches == Matches(hashes[..], other.hashes[..], i)
      {
        if SlotEq(hashes[i], other.hashes[i]) {
          matches := matches + 1;
        }
      }
      if numHashes == 0 {
        return Ok(NotANumber);
      }
      return Ok(Ratio(matches as real / numHashes as real));
    }

    /** `getSignature()`: `fromSignature` reads it back as the same slots, unless there are none. */
    function GetSignature(): (r: string)
      reads this, hashes
      ensures hashes.Length >= 1 ==> ParseSignature(r) == hashes[..]
      ensures hashes.Length == 0 ==> r == ""
    {
      SignatureRoundTrip(hashes[..]);
      Signature(hashes[..])
    }

    /** `MinHash.fromSignature(signature)`. */
    static method FromSignature(signature: string) returns (m: MinHash)
      ensures fresh(m) && fresh(m.hashes) && m.Valid()
      ensures m.hashes[..] == ParseSignature(signature)
    {
      var parsed := ParseSignature(signature);
      m := new MinHash(|parsed|);
      m.hashes := new Slot[|parsed|](k requires 0 <= k < |parsed| => parsed[k]);
    }

    /** `MinHash.fromText(text, ngramSize, numHashes)`. */
    static method FromText(text: string, ngramSize: nat, numHashes: nat) returns (m: MinHash)
      ensures fresh(m) && fresh(m.hashes) && m.Valid() && m.numHashes == numHashes
      ensures m.hashes[..] == Absorb(seq(numHashes, _ => Infinity), NGrams(text, ngramSize))
    {
      m := new MinHash(numHashes);
      var grams := GenerateNGrams(text, ngramSize);
      m.Update(grams);
    }
  }

  // ------------------------------------------------------------ LSH bands

  /** `xs.slice(start, end)` for non-negative bounds. */
  function Slice<T>(xs: seq<T>, start: nat, end: nat): (r: seq<T>)
    ensures |r| <= |xs|
  {
    var s := if start < |xs| then start else |xs|;
    var e := if end < |xs| then end else |xs|;
    if s <= e then xs[s..e] else []
  }

  /** The key of `band`: the band's slots of the parsed signature, joined with commas. */
  function BandKey(sig: seq<Slot>, band: nat, perBand: nat): string {
    Join(Shown(Slice(sig, band * perBand, band * perBand + perBand)), ",")
  }

  /** The key of every band, for the slots read back from a signature. */
  function Keys(sig: seq<Slot>, numBands: nat, perBand: nat): (r: seq<string>)
    ensures |r| == numBands
    ensures forall b :: 0 <= b < numBands ==> r[b] == BandKey(sig, b, perBand)
  {
    seq(numBands, b requires 0 <= b < numBands => BandKey(sig, b, perBand))
  }

  type Band = map<string, set<string>>

  /** The bucket under `key`, empty when there is none. */
  function Bucket(band: Band, key: string): set<string> {
    if key in band then band[key] else {}
  }

  /** No bucket is empty and every bucket holds only ids from `ids`. */
  ghost predicate BucketsOk(bands: seq<Band>, ids: set<string>) {
    forall b, key :: 0 <= b < |bands| && key in bands[b] ==> bands[b][key] != {} && bands[b][key] <= ids
  }

  /** One band after `id` is filed under `key`, in a new bucket if there is none. */
  function Filed(band: Band, key: string, id: string): (r: Band)
    ensures r.Keys == band.Keys + {key}
    ensures r[key] == Bucket(band, key) + {id}
    ensures forall k :: k in band && k != key ==> r[k] == band[k]
  {
    band[key := Bucket(band, key) + {id}]
  }

  /** `add(id, ...)`: `id` is filed under each band's key. */
  function AddSpec(bands: seq<Band>, keys: seq<string>, id: string): (r: seq<Band>)
    requires |keys| == |bands|
    ensures |r| == |bands|
    ensures forall b :: 0 <= b < |r| ==> r[b] == Filed(bands[b], keys[b], id)
  {
    seq(|bands|, b requires 0 <= b < |bands| => Filed(bands[b], keys[b], id))
  }

  /** One band after `id` is taken out of the bucket under `key`. */
  function Dropped(band: Band, key: string, id: string): Band {
    if key !in band then band
    else if band[key] - {id} == {} then band - {key}
    else band[key := band[key] - {id}]
  }

  /** `remove(id, ...)`: `id` leaves each band's bucket, and a bucket left empty is deleted. */
  function RemoveSpec(bands: seq<Band>, keys: seq<string>, id: string): (r: seq<Band>)
    requires |keys| == |bands|
    ensures |r| == |bands|
    ensures forall b :: 0 <= b < |r| ==> r[b] == Dropped(bands[b], keys[b], id)
  {
    seq(|bands|, b requires 0 <= b < |bands| => Dropped(bands[b], keys[b], id))
  }

  /** `getCandidates(...)`: the union of the buckets under the keys of the first `n` bands. */
  function Candidates(bands: seq<Band>, keys: seq<string>, n: nat): set<string>
    requires n <= |bands| && |keys| == |bands|
  {
    if n == 0 then {} else Candidates(bands, keys, n - 1) + Bucket(bands[n - 1], keys[n - 1])
  }

  /** An id is a candidate exactly when one of the probed buckets holds it. */
  lemma {:induction false} CandidatesMember(bands: seq<Band>, keys: seq<string>, n: nat, id: string)
    requires n <= |bands| && |keys| == |bands|
    ensures id in Candidates(bands, keys, n) <==> exists b :: 0 <= b < n && id in Bucket(bands[b], keys[b])
  {
    if n > 0 {
      CandidatesMember(bands, keys, n - 1, id);
    }
  }

  /** After `add(id, m)` with at least one band, `getCandidates(m)` finds `id`. */
  lemma AddThenCandidate(bands: seq<Band>, keys: seq<string>, id: string)
    requires |keys| == |bands| && |bands| >= 1
    ensures id in Candidates(AddSpec(bands, keys, id), keys, |bands|)
  {
    var after := AddSpec(bands, keys, id);
    assert id in Bucket(after[0], keys[0]);
    CandidatesMember(after, keys, |bands|, id);
  }

  /** Adding `id` changes no other id's candidacy. */
  lemma AddKeepsOthers(bands: seq<Band>, keys: seq<string>, id: string, other: string)
    requires |keys| == |bands| && other != id
    ensures other in Candidates(AddSpec(bands, keys, id), keys, |bands|) <==> other in Candidates(bands, keys, |bands|)
  {
    var after := AddSpec(bands, keys, id);
    CandidatesMember(after, keys, |bands|, other);
    CandidatesMember(bands, keys, |bands|, other);
    assert forall b :: 0 <= b < |bands| ==> (other in Bucket(after[b], keys[b]) <==> other in Bucket(bands[b], keys[b]));
  }

  /** After `remove(id, m)`, `getCandidates(m)` no longer finds `id`. */
  lemma RemoveThenGone(bands: seq<Band>, keys: seq<string>, id: string)
    requires |keys| == |bands|
    ensures id !in Candidates(RemoveSpec(bands, keys, id), keys, |bands|)
  {
    var after := RemoveSpec(bands, keys, id);
    CandidatesMember(after, keys, |bands|, id);
  }

  /** Removing `id` changes no other id's candidacy. */
  lemma RemoveKeepsOthers(bands: seq<Band>, keys: seq<string>, id: string, other: string)
    requires |keys| == |bands| && other != id
    ensures other in Candidates(RemoveSpec(bands, keys, id), keys, |bands|) <==> other in Candidates(bands, keys, |bands|)
  {
    var after := RemoveSpec(bands, keys, id);
    CandidatesMember(after, keys, |bands|, other);
    CandidatesMember(bands, keys, |bands|, other);
    assert forall b :: 0 <= b < |bands| ==> (other in Bucket(after[b], keys[b]) <==> other in Bucket(bands[b], keys[b]));
  }

  /** Adding keeps every bucket non-empty and within the ids added so far. */
  lemma AddKeepsBuckets(bands: seq<Band>, keys: seq<string>, id: string, ids: set<string>)
    requires |keys| == |bands| && BucketsOk(bands, ids)
    ensures BucketsOk(AddSpec(bands, keys, id), ids + {id})
  {
  }

  /** Removing keeps every bucket non-empty: a bucket left empty is deleted. */
  lemma RemoveKeepsBuckets(bands: seq<Band>, keys: seq<string>, id: string, ids: set<string>)
    requires |keys| == |bands| && BucketsOk(bands, ids)
    ensures BucketsOk(RemoveSpec(bands, keys, id), ids)
  {
    var after := RemoveSpec(bands, keys, id);
    forall b, key | 0 <= b < |after| && key in after[b]
      ensures after[b][key] != {} && after[b][key] <= ids
    {
      assert key in bands[b];
    }
  }

  /** Candidates are only ids that were added. */
  lemma CandidatesWithin(bands: seq<Band>, keys: seq<string>, ids: set<string>)
    requires |keys| == |bands| && BucketsOk(bands, ids)
    ensures Candidates(bands, keys, |bands|) <= ids
  {
    forall id | id in Candidates(bands, keys, |bands|) ensures id in ids {
      CandidatesMember(bands, keys, |bands|, id);
    }
  }

  // ------------------------------------------------------------ LSHIndex

  class LSHIndex {
    const numBands: int
    const hashesPerBand: nat
    const bands: array<Band>
    /** Every id ever added. */
    ghost var added: set<string>

    ghost predicate Valid()
      reads this, bands
    {
      bands.Length == Max0(numBands) && BucketsOk(bands[..], added)
    }

    /**
     * One empty band per band asked for (none when `numBands` is not
     * positive), each `floor(numHashes / numBands)` slots wide.
     */
    constructor(numHashes: nat, numBands: int)
      ensures Valid() && fresh(bands) && added == {}
      ensures this.numBands == numBands
      ensures numBands > 0 ==> hashesPerBand == numHashes / numBands
      ensures forall b :: 0 <= b < bands.Length ==> bands[b] == map[]
    {
      this.numBands := numBands;
      hashesPerBand := if numBands > 0 then numHashes / numBands else 0;
      bands := new Band[Max0(numBands)](_ => map[]);
      added := {};
    }

    /** The band keys of `m`'s signature in this index. */
    ghost function KeysOf(m: MinHash): seq<string>
      reads this, m, m.hashes
    {
      Keys(ParseSignature(m.GetSignature()), bands.Length, hashesPerBand)
    }

    /** The key of each band, from the slots read back from the MinHash's signature. */
    method BandKeys(m: MinHash) returns (keys: seq<string>)
      requires m.Valid()
      ensures keys == KeysOf(m)
    {
      var signature := ParseSignature(m.GetSignature());
      keys := Keys(signature, bands.Length, hashesPerBand);
    }

    /** `add(id, minhash)`. */
    method Add(id: string, m: MinHash)
      requires Valid() && m.Valid()
      modifies this, bands
      ensures Valid() && added == old(added) + {id}
      ensures bands[..] == AddSpec(old(bands[..]), KeysOf(m), id)
    {
      var keys := BandKeys(m);
      FileUnder(bands, keys, id);
      AddKeepsBuckets(old(bands[..]), keys, id, added);
      added := added + {id};
    }

    /** `getCandidates(minhash)`. */
    method GetCandidates(m: MinHash) returns (candidates: set<string>)
      requires Valid() && m.Valid()
      ensures candidates == Candidates(bands[..], KeysOf(m), bands.Length)
    {
      var keys := BandKeys(m);
      candidates := Probe(bands, keys);
    }

    /** `remove(id, minhash)`. */
    method Remove(id: string, m: MinHash)
      requires Valid() && m.Valid()
      modifies bands
      ensures Valid()
      ensures bands[..] == RemoveSpec(old(bands[..]), KeysOf(m), id)
    {
      var keys := BandKeys(m);
      DropFrom(bands, keys, id);
      RemoveKeepsBuckets(old(bands[..]), keys, id, added);
    }
  }

  /** The loop of `add`: `id` joins the bucket under each band's key. */
  method FileUnder(bands: array<Band>, keys: seq<string>, id: string)
    requires |keys| == bands.Length
    modifies bands
    ensures bands[..] == AddSpec(old(bands[..]), keys, id)
  {
    for band := 0 to bands.Length
      invariant forall b :: 0 <= b < band ==> bands[b] == Filed(old(bands[b]), keys[b], id)
      invariant forall b :: band <= b < bands.Length ==> bands[b] == old(bands[b])
    {
      var key := keys[band];
      var bucket := if key in bands[band] then bands[band][key] else {};
      bands[band] := bands[band][key := bucket + {id}];
    }
  }

  /** The loop of `getCandidates`: the union of the buckets under each band's key. */
  method Probe(bands: array<Band>, keys: seq<string>) returns (candidates: set<string>)
    requires |keys| == bands.Length
    ensures candidates == Candidates(bands[..], keys, bands.Length)
  {
    candidates := {};
    for band := 0 to bands.Length
      invariant candidates == Candidates(bands[..], keys, band)
    {
      var key := keys[band];
      if key in bands[band] {
        candidates := candidates + bands[band][key];
      }
    }
  }

  /** The loop of `remove`: `id` leaves each band's bucket, and an emptied bucket is deleted. */
  method DropFrom(bands: array<Band>, keys: seq<string>, id: string)
    requires |keys| == bands.Length
    modifies bands
    ensures bands[..] == RemoveSpec(old(bands[..]), keys, id)
  {
    for band := 0 to bands.Length
      invariant forall b :: 0 <= b < band ==> bands[b] == Dropped(old(bands[b]), keys[b], id)
      invariant forall b :: band <= b < bands.Length ==> bands[b] == old(bands[b])
    {
      var key := keys[band];
      if key in bands[band] {
        var bucket := bands[band][key] - {id};
        if bucket == {} {
          bands[band] := bands[band] - {key};
        } else {
          bands[band] := bands[band][key := bucket];
        }
      }
    }
  }
}
