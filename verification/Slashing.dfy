/**
  Attester slashings as JSON: the tolerant parser and the pool printer of
  `crates/pharos-api/src/state.rs`. A failed parse is a bad request, whatever its message.
 */
module Slashing {
  import opened Types
  import opened JsonValue
  import opened Codec

  const LIMIT: nat := 2048

  datatype Vote = Vote(epoch: nat, root: seq<Byte>)
  datatype Data = Data(slot: nat, index: nat, blockRoot: seq<Byte>, source: Vote, target: Vote)
  datatype Indexed = Indexed(indices: seq<nat>, data: Data, signature: seq<Byte>)
  datatype Pair = Pair(first: Indexed, second: Indexed)

  // What the Rust types guarantee of a stored slashing.

  predicate VoteFits(v: Vote) { v.epoch <= U64_MAX && |v.root| == 32 }

  predicate DataFits(d: Data) {
    d.slot <= U64_MAX && d.index <= U64_MAX && |d.blockRoot| == 32 && VoteFits(d.source) && VoteFits(d.target)
  }

  predicate Fits(a: Indexed) {
    && |a.indices| <= LIMIT
    && (forall i :: 0 <= i < |a.indices| ==> a.indices[i] <= U64_MAX)
    && DataFits(a.data) && |a.signature| == 96
  }

  // ── parsing ─────────────────────────────────────────────────────────────────

  /** A quoted or bare integer that fits 64 bits. */
  function ParseUint(v: Json): (r: Option<nat>)
    ensures r.Some? ==> r.value <= U64_MAX
  {
    match v
    case Str(s) => ParseU64(s)
    case Number(Integer(i)) => if 0 <= i <= U64_MAX then Some(i) else None
    case _ => None
  }

  function ParseBytes(v: Json, n: nat): (r: Option<seq<Byte>>)
    ensures r.Some? ==> |r.value| == n
  {
    if v.Str? then DecodeFixed(n, v.s) else None
  }

  function ParseVote(v: Json): (r: Option<Vote>)
    ensures r.Some? ==> VoteFits(r.value)
  {
    var epoch, root := ParseUint(Field(v, "epoch")), ParseBytes(Field(v, "root"), 32);
    if epoch.Some? && root.Some? then Some(Vote(epoch.value, root.value)) else None
  }

  function ParseData(v: Json): (r: Option<Data>)
    ensures r.Some? ==> DataFits(r.value)
  {
    var slot, index := ParseUint(Field(v, "slot")), ParseUint(Field(v, "index"));
    var blockRoot := ParseBytes(Field(v, "beacon_block_root"), 32);
    var source, target := ParseVote(Field(v, "source")), ParseVote(Field(v, "target"));
    if slot.Some? && index.Some? && blockRoot.Some? && source.Some? && target.Some?
    then Some(Data(slot.value, index.value, blockRoot.value, source.value, target.value))
    else None
  }

  ghost predicate AllUints(items: seq<Json>) { forall i :: 0 <= i < |items| ==> ParseUint(items[i]).Some? }

  function Uints(items: seq<Json>): (r: seq<nat>)
    requires AllUints(items)
    ensures |r| == |items| && forall i :: 0 <= i < |items| ==> r[i] == ParseUint(items[i]).value <= U64_MAX
  {
    if items == [] then []
    else
      var last := |items| - 1;
      assert forall i :: 0 <= i < last ==> items[..last][i] == items[i];
      Uints(items[..last]) + [ParseUint(items[last]).value]
  }

  function FirstIndices(indices: seq<nat>): seq<nat> {
    if |indices| <= LIMIT then indices else indices[..LIMIT]
  }

  /** The index loop: every entry is checked, the first 2048 are kept. */
  method ParseIndices(items: seq<Json>) returns (r: Option<seq<nat>>)
    ensures r.Some? <==> AllUints(items)
    ensures r.Some? ==> r.value == FirstIndices(Uints(items))
  {
    var parsed: seq<nat> := [];
    for i := 0 to |items|
      invariant AllUints(items[..i])
      invariant parsed == FirstIndices(Uints(items[..i]))
    {
      var raw := ParseUint(items[i]);
      if raw.None? { return None; }
      assert items[..i + 1][..i] == items[..i];
      if |parsed| < LIMIT { parsed := parsed + [raw.value]; }
    }
    assert items[..|items|] == items;
    r := Some(parsed);
  }

  ghost function ParseIndexed(v: Json): (r: Option<Indexed>)
    ensures r.Some? ==> Fits(r.value)
  {
    ParseParts(Field(v, "attesting_indices"), Field(v, "data"), Field(v, "signature"))
  }

  ghost function ParseParts(indices: Json, dataValue: Json, signatureValue: Json): (r: Option<Indexed>)
    ensures r.Some? ==> Fits(r.value)
  {
    var data, signature := ParseData(dataValue), ParseBytes(signatureValue, 96);
    if indices.Array? && AllUints(indices.items) && data.Some? && signature.Some?
    then Some(Indexed(FirstIndices(Uints(indices.items)), data.value, signature.value))
    else None
  }

  /** `parse_indexed_attestation_json_as_phase0`. */
  method ParseIndexedAttestation(v: Json) returns (r: Option<Indexed>)
    ensures r == ParseIndexed(v)
  {
    var items := Field(v, "attesting_indices");
    if !items.Array? { return None; }
    var indices := ParseIndices(items.items);
    if indices.None? { return None; }
    var data := ParseData(Field(v, "data"));
    if data.None? { return None; }
    var signature := ParseBytes(Field(v, "signature"), 96);
    if signature.None? { return None; }
    r := Some(Indexed(indices.value, data.value, signature.value));
  }

  // ── printing ────────────────────────────────────────────────────────────────

  function PrintUint(n: nat): Json { Str(PrintDecimal(n)) }
  function PrintBytes(b: seq<Byte>): Json { Str(EncodeHex(b)) }

  function PrintVote(v: Vote): Json {
    Object(map["epoch" := PrintUint(v.epoch), "root" := PrintBytes(v.root)])
  }

  function PrintData(d: Data): Json {
    Object(map["slot" := PrintUint(d.slot), "index" := PrintUint(d.index),
               "beacon_block_root" := PrintBytes(d.blockRoot),
               "source" := PrintVote(d.source), "target" := PrintVote(d.target)])
  }

  function PrintIndices(indices: seq<nat>): seq<Json> {
    seq(|indices|, i requires 0 <= i < |indices| => PrintUint(indices[i]))
  }

  function PrintIndexed(a: Indexed): Json {
    Object(map["attesting_indices" := Array(PrintIndices(a.indices)), "data" := PrintData(a.data),
               "signature" := PrintBytes(a.signature)])
  }

  // ── round trips ─────────────────────────────────────────────────────────────

  lemma VoteRoundTrip(v: Vote)
    requires VoteFits(v)
    ensures ParseVote(PrintVote(v)) == Some(v)
  {
    VoteFields(v);
    UintRoundTrip(v.epoch);
    BytesRoundTrip(v.root);
  }

  lemma UintRoundTrip(n: nat)
    requires n <= U64_MAX
    ensures ParseUint(PrintUint(n)) == Some(n)
  {
    ParseUndoesPrint(n);
  }

  lemma BytesRoundTrip(b: seq<Byte>)
    ensures ParseBytes(PrintBytes(b), |b|) == Some(b)
  {
    HexRoundTrip(b);
  }

  lemma VoteFields(v: Vote)
    ensures Field(PrintVote(v), "epoch") == PrintUint(v.epoch) && Field(PrintVote(v), "root") == PrintBytes(v.root)
  {
    assert |"epoch"| == 5 && |"root"| == 4;
  }

  lemma DataFields(d: Data)
    ensures Field(PrintData(d), "slot") == PrintUint(d.slot) && Field(PrintData(d), "index") == PrintUint(d.index)
    ensures Field(PrintData(d), "beacon_block_root") == PrintBytes(d.blockRoot)
    ensures Field(PrintData(d), "source") == PrintVote(d.source) && Field(PrintData(d), "target") == PrintVote(d.target)
  {
    assert "source"[0] != "target"[0];
    assert |"slot"| == 4 && |"index"| == 5 && |"beacon_block_root"| == 17 && |"source"| == |"target"| == 6;
  }

  lemma DataRoundTrip(d: Data)
    requires DataFits(d)
    ensures ParseData(PrintData(d)) == Some(d)
  {
    DataFields(d);
    UintRoundTrip(d.slot);
    UintRoundTrip(d.index);
    BytesRoundTrip(d.blockRoot);
    VoteRoundTrip(d.source);
    VoteRoundTrip(d.target);
  }

  lemma IndicesRoundTrip(indices: seq<nat>)
    requires forall i :: 0 <= i < |indices| ==> indices[i] <= U64_MAX
    ensures AllUints(PrintIndices(indices)) && Uints(PrintIndices(indices)) == indices
  {
    forall i | 0 <= i < |indices| ensures ParseUint(PrintIndices(indices)[i]) == Some(indices[i]) {
      UintRoundTrip(indices[i]);
    }
  }

  lemma IndexedFields(a: Indexed)
    ensures Field(PrintIndexed(a), "attesting_indices") == Array(PrintIndices(a.indices))
    ensures Field(PrintIndexed(a), "data") == PrintData(a.data)
    ensures Field(PrintIndexed(a), "signature") == PrintBytes(a.signature)
  {
    assert |"attesting_indices"| == 17 && |"data"| == 4 && |"signature"| == 9;
  }

  /** Printing then parsing returns the attestation unchanged. */
  lemma IndexedRoundTrip(a: Indexed)
    requires Fits(a)
    ensures ParseIndexed(PrintIndexed(a)) == Some(a)
  {
    IndexedFields(a);
    PartsRoundTrip(a);
  }

  lemma PartsRoundTrip(a: Indexed)
    requires Fits(a)
    ensures ParseParts(Array(PrintIndices(a.indices)), PrintData(a.data), PrintBytes(a.signature)) == Some(a)
  {
    IndicesRoundTrip(a.indices);
    DataRoundTrip(a.data);
    BytesRoundTrip(a.signature);
    PartsAssemble(PrintIndices(a.indices), PrintData(a.data), PrintBytes(a.signature), a);
  }

  lemma PartsAssemble(items: seq<Json>, data: Json, signature: Json, a: Indexed)
    requires Fits(a) && AllUints(items) && Uints(items) == a.indices
    requires ParseData(data) == Some(a.data) && ParseBytes(signature, 96) == Some(a.signature)
    ensures ParseParts(Array(items), data, signature) == Some(a)
  {
  }

  /** Parse, print, parse is parse. */
  lemma ParseIsStable(v: Json)
    ensures ParseIndexed(v).Some? ==> ParseIndexed(PrintIndexed(ParseIndexed(v).value)) == ParseIndexed(v)
  {
    if ParseIndexed(v).Some? { IndexedRoundTrip(ParseIndexed(v).value); }
  }

  /** A malformed index at any position, kept or not, rejects the whole attestation. */
  lemma MalformedIndexRejects(v: Json, i: nat)
    requires Field(v, "attesting_indices").Array? && i < |Field(v, "attesting_indices").items|
    requires ParseUint(Field(v, "attesting_indices").items[i]).None?
    ensures ParseIndexed(v).None?
  {
  }

  /** Nothing is dropped exactly when there are at most 2048 indices. */
  lemma NothingDroppedIff(v: Json)
    requires ParseIndexed(v).Some?
    ensures ParseIndexed(v).value.indices == Uints(Field(v, "attesting_indices").items)
       <==> |Field(v, "attesting_indices").items| <= LIMIT
    ensures ParseIndexed(v).value.indices <= Uints(Field(v, "attesting_indices").items)
  {
  }

  // ── slashings ───────────────────────────────────────────────────────────────

  ghost function ParseSlashing(v: Json): Option<Pair> {
    var first, second := ParseIndexed(Field(v, "attestation_1")), ParseIndexed(Field(v, "attestation_2"));
    if first.Some? && second.Some? then Some(Pair(first.value, second.value)) else None
  }

  function PrintSlashing(s: Pair): Json {
    Object(map["attestation_1" := PrintIndexed(s.first), "attestation_2" := PrintIndexed(s.second)])
  }

  lemma SlashingRoundTrip(s: Pair)
    requires Fits(s.first) && Fits(s.second)
    ensures ParseSlashing(PrintSlashing(s)) == Some(s)
  {
    SlashingFields(s);
    IndexedRoundTrip(s.first);
    IndexedRoundTrip(s.second);
  }

  lemma SlashingFields(s: Pair)
    ensures Field(PrintSlashing(s), "attestation_1") == PrintIndexed(s.first)
    ensures Field(PrintSlashing(s), "attestation_2") == PrintIndexed(s.second)
  {
    assert "attestation_1"[12] != "attestation_2"[12];
  }

  lemma SlashingIsStable(v: Json)
    ensures ParseSlashing(v).Some? ==> ParseSlashing(PrintSlashing(ParseSlashing(v).value)) == ParseSlashing(v)
  {
    if ParseSlashing(v).Some? { SlashingRoundTrip(ParseSlashing(v).value); }
  }
}
