/** Structured mutation requests and the preimage of their fingerprint. */
module Fingerprint {
  import opened Wrappers
  import opened Blocks
  import opened Bytes
  import opened Canonical

  datatype MutationEntry = MutationEntry(
    sectionKey: string,
    cellOffset: CellOffset,
    blockId: BlockId,
    expectedSectionRevision: U64)

  datatype MutationRequest = MutationRequest(
    txnId: string,
    worldId: string,
    generation: U64,
    entries: seq<MutationEntry>)

  /** Lengths fit the 64-bit prefixes, as every in-memory length does. */
  predicate Addressable(request: MutationRequest) {
    && |request.entries| < U64_LIMIT
    && forall i :: 0 <= i < |request.entries| ==> |Utf8(request.entries[i].sectionKey)| < U64_LIMIT
  }

  // ---- the preimage

  function EntryBytes(e: MutationEntry): ByteString {
    var section := Utf8(e.sectionKey);
    LittleEndian(8, |section|) + (section + (LittleEndian(2, e.cellOffset)
      + (LittleEndian(4, e.blockId) + LittleEndian(8, e.expectedSectionRevision))))
  }

  function EntriesTail(entries: seq<MutationEntry>): ByteString {
    if entries == [] then [] else EntryBytes(entries[0]) + EntriesTail(entries[1..])
  }

  function EntriesBytes(entries: seq<MutationEntry>): ByteString {
    LittleEndian(8, |entries|) + EntriesTail(entries)
  }

  function FingerprintMembers(request: MutationRequest): Members {
    map[
      "entries" := CanonicalValue.Text(Hex(EntriesBytes(request.entries))),
      "canonicalForm" := CanonicalValue.Text("VoxelCanonicalObjectV1"),
      "txn_id" := CanonicalValue.Text(request.txnId),
      "world_id" := CanonicalValue.Text(request.worldId),
      "generation" := Uint(request.generation)]
  }

  /** The bytes the request digest is taken over. */
  function Preimage(request: MutationRequest): ByteString {
    Utf8(Encode(FingerprintMembers(request)))
  }

  // ---- injectivity

  lemma SplitFrame(x: ByteString, y: ByteString, restX: ByteString, restY: ByteString)
    requires |x| == |y| && x + restX == y + restY
    ensures x == y && restX == restY
  {
    assert (x + restX)[..|x|] == x && (y + restY)[..|y|] == y;
    assert (x + restX)[|x|..] == restX && (y + restY)[|y|..] == restY;
  }

  lemma SplitInteger(width: nat, m: nat, n: nat, restM: ByteString, restN: ByteString)
    requires m < Radix(width) && n < Radix(width)
    requires LittleEndian(width, m) + restM == LittleEndian(width, n) + restN
    ensures m == n && restM == restN
  {
    hide LittleEndian;
    hide Radix;
    SplitFrame(LittleEndian(width, m), LittleEndian(width, n), restM, restN);
    LittleEndianRoundTrip(width, m);
    LittleEndianRoundTrip(width, n);
  }

  /** Length-prefixed framing: one entry's bytes determine the entry and where it ends. */
  lemma SplitEntry(a: MutationEntry, b: MutationEntry, restA: ByteString, restB: ByteString)
    requires |Utf8(a.sectionKey)| < U64_LIMIT && |Utf8(b.sectionKey)| < U64_LIMIT
    requires EntryBytes(a) + restA == EntryBytes(b) + restB
    ensures a == b && restA == restB
  {
    hide LittleEndian;
    hide Utf8;
    hide Radix;
    RadixValues();
    var sa, sb := Utf8(a.sectionKey), Utf8(b.sectionKey);
    var ra := LittleEndian(8, a.expectedSectionRevision) + restA;
    var rb := LittleEndian(8, b.expectedSectionRevision) + restB;
    var ba, bb := LittleEndian(4, a.blockId) + ra, LittleEndian(4, b.blockId) + rb;
    var oa, ob := LittleEndian(2, a.cellOffset) + ba, LittleEndian(2, b.cellOffset) + bb;
    EntryFrame(a, restA);
    EntryFrame(b, restB);
    SplitInteger(8, |sa|, |sb|, sa + oa, sb + ob);
    SplitFrame(sa, sb, oa, ob);
    Utf8IsInjective(a.sectionKey, b.sectionKey);
    SplitInteger(2, a.cellOffset, b.cellOffset, ba, bb);
    SplitInteger(4, a.blockId, b.blockId, ra, rb);
    SplitInteger(8, a.expectedSectionRevision, b.expectedSectionRevision, restA, restB);
  }

  lemma EntryFrame(e: MutationEntry, rest: ByteString)
    ensures EntryBytes(e) + rest
         == LittleEndian(8, |Utf8(e.sectionKey)|) + (Utf8(e.sectionKey) + (LittleEndian(2, e.cellOffset)
            + (LittleEndian(4, e.blockId) + (LittleEndian(8, e.expectedSectionRevision) + rest))))
  {
    hide LittleEndian;
    hide Utf8;
  }

  lemma {:induction false} EntriesTailIsInjective(a: seq<MutationEntry>, b: seq<MutationEntry>)
    requires |a| == |b|
    requires forall i :: 0 <= i < |a| ==> |Utf8(a[i].sectionKey)| < U64_LIMIT && |Utf8(b[i].sectionKey)| < U64_LIMIT
    requires EntriesTail(a) == EntriesTail(b)
    ensures a == b
  {
    hide EntryBytes;
    hide Utf8;
    if a != [] {
      SplitEntry(a[0], b[0], EntriesTail(a[1..]), EntriesTail(b[1..]));
      EntriesTailIsInjective(a[1..], b[1..]);
      assert a == [a[0]] + a[1..] && b == [b[0]] + b[1..];
    }
  }

  /** Equal preimages come from equal requests: transaction, world, generation and ordered entries. */
  lemma PreimageIsInjective(a: MutationRequest, b: MutationRequest)
    requires Addressable(a) && Addressable(b)
    requires Preimage(a) == Preimage(b)
    ensures a == b
  {
    hide EntriesTail;
    hide Hex;
    hide Encode;
    hide Utf8;
    hide LittleEndian;
    hide Radix;
    var ma, mb := FingerprintMembers(a), FingerprintMembers(b);
    Utf8IsInjective(Encode(ma), Encode(mb));
    EncodeIsInjective(ma, mb);
    assert ma["entries"] == mb["entries"] && ma["txn_id"] == mb["txn_id"];
    assert ma["world_id"] == mb["world_id"] && ma["generation"] == mb["generation"];
    HexRoundTrip(EntriesBytes(a.entries));
    HexRoundTrip(EntriesBytes(b.entries));
    RadixValues();
    SplitInteger(8, |a.entries|, |b.entries|, EntriesTail(a.entries), EntriesTail(b.entries));
    EntriesTailIsInjective(a.entries, b.entries);
  }

  // ---- as computed in the source

  method EncodeEntries(entries: seq<MutationEntry>) returns (text: string)
    ensures text == Hex(EntriesBytes(entries))
  {
    hide EntryBytes;
    hide LittleEndian;
    var bytes := LittleEndian(8, |entries|);
    for i := 0 to |entries|
      invariant bytes + EntriesTail(entries[i..]) == EntriesBytes(entries)
    {
      assert entries[i..][1..] == entries[i + 1..];
      ghost var before := bytes;
      bytes := bytes + EntryBytes(entries[i]);
      assert bytes + EntriesTail(entries[i + 1..]) == before + EntriesTail(entries[i..]);
    }
    assert entries[|entries|..] == [] && bytes == EntriesBytes(entries);
    text := HexText(bytes);
  }

  method HexText(bytes: ByteString) returns (out: string)
    ensures out == Hex(bytes)
  {
    hide HexDigit;
    out := "";
    for i := 0 to |bytes|
      invariant out + Hex(bytes[i..]) == Hex(bytes)
    {
      assert bytes[i..][1..] == bytes[i + 1..];
      ghost var before := out;
      out := out + [HexDigit(bytes[i] / 16), HexDigit(bytes[i] % 16)];
      assert out + Hex(bytes[i + 1..]) == before + Hex(bytes[i..]);
    }
  }

  /** Member insertion never meets a duplicate name, so the fingerprint always exists. */
  method CanonicalFingerprint(request: MutationRequest) returns (r: Result<ByteString, string>)
    ensures r == Ok(Preimage(request))
  {
    hide Hex;
    hide Encode;
    hide Utf8;
    hide EntriesBytes;
    var object' := new CanonicalObject();
    var entries := EncodeEntries(request.entries);
    var ok := object'.Insert("entries", CanonicalValue.Text(entries));
    if !ok { return Err("entries"); }
    ok := object'.Insert("canonicalForm", CanonicalValue.Text("VoxelCanonicalObjectV1"));
    if !ok { return Err("canonicalForm"); }
    ok := object'.Insert("txn_id", CanonicalValue.Text(request.txnId));
    if !ok { return Err("txn_id"); }
    ok := object'.Insert("world_id", CanonicalValue.Text(request.worldId));
    if !ok { return Err("world_id"); }
    ok := object'.Insert("generation", Uint(request.generation));
    if !ok { return Err("generation"); }
    assert object'.members == FingerprintMembers(request);
    var text := object'.EncodeText();
    r := Ok(Utf8(text));
  }
}
