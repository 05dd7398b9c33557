/** The preimage of a request fingerprint, written out: its text, and the bytes of each entry. */
module FingerprintText {
  import opened Wrappers
  import opened Text
  import opened Bytes
  import opened Canonical
  import opened CanonicalSpelling
  import opened Fingerprint
  import opened SectionFormat

  // ---- one entry

  lemma Behind(before: ByteString, rest: ByteString, low: nat, high: nat)
    requires low <= high <= |rest|
    ensures (before + rest)[|before| + low..|before| + high] == rest[low..high]
  {
  }

  lemma LongReads(n: U64, rest: ByteString)
    ensures FromLittleEndian((LittleEndian(8, n) + rest)[0..8]) == n
  {
    RadixValues();
    LittleEndianRoundTrip(8, n);
    assert (LittleEndian(8, n) + rest)[0..8] == LittleEndian(8, n);
  }

  lemma TailReads(e: MutationEntry)
    ensures var tail := LittleEndian(2, e.cellOffset)
        + (LittleEndian(4, e.blockId) + LittleEndian(8, e.expectedSectionRevision));
      && |tail| == 14 && HalfAt(tail, 0) == e.cellOffset && WordAt(tail, 2) == e.blockId
      && FromLittleEndian(tail[6..14]) == e.expectedSectionRevision
  {
    hide LittleEndian;
    hide FromLittleEndian;
    var two, four, eight :=
      LittleEndian(2, e.cellOffset), LittleEndian(4, e.blockId), LittleEndian(8, e.expectedSectionRevision);
    var tail := two + (four + eight);
    RadixValues();
    LittleEndianRoundTrip(2, e.cellOffset);
    LittleEndianRoundTrip(4, e.blockId);
    LittleEndianRoundTrip(8, e.expectedSectionRevision);
    assert tail[0..2] == two && tail[2..6] == four && tail[6..14] == eight;
    ReadHalf(tail, 0);
    ReadFour(tail, 2);
  }

  /**
   The bytes of one entry: the length of the key in eight bytes, the key in UTF-8, the cell in two bytes, the block in
   four and the expected revision in eight, each number with its low byte first.
   */
  lemma EntryReadsBack(e: MutationEntry)
    requires |Utf8(e.sectionKey)| < U64_LIMIT
    ensures var key, bytes := Utf8(e.sectionKey), EntryBytes(e);
      var n := |key|;
      && |bytes| == 22 + n
      && FromLittleEndian(bytes[0..8]) == n && bytes[8..8 + n] == key
      && HalfAt(bytes, 8 + n) == e.cellOffset && WordAt(bytes, 10 + n) == e.blockId
      && FromLittleEndian(bytes[14 + n..22 + n]) == e.expectedSectionRevision
  {
    hide LittleEndian;
    hide FromLittleEndian;
    hide Utf8;
    hide HalfAt;
    hide WordAt;
    var key, bytes := Utf8(e.sectionKey), EntryBytes(e);
    var tail := LittleEndian(2, e.cellOffset)
      + (LittleEndian(4, e.blockId) + LittleEndian(8, e.expectedSectionRevision));
    var front := LittleEndian(8, |key|) + key;
    assert bytes == LittleEndian(8, |key|) + (key + tail) && bytes == front + tail;
    LongReads(|key|, key + tail);
    TailReads(e);
    HalfBehind(front, tail, 0);
    WordBehind(front, tail, 2);
    Behind(front, tail, 6, 14);
  }

  // ---- the list of entries

  lemma {:induction false} TailOfTwo(a: seq<MutationEntry>, b: seq<MutationEntry>)
    ensures EntriesTail(a + b) == EntriesTail(a) + EntriesTail(b)
  {
    hide EntryBytes;
    if a == [] {
      assert a + b == b;
    } else {
      assert (a + b)[0] == a[0] && (a + b)[1..] == a[1..] + b;
      TailOfTwo(a[1..], b);
    }
  }

  /** The entries as bytes: their number in eight bytes, then each entry behind those before it, in request order. */
  lemma EntriesReadBack(entries: seq<MutationEntry>, k: nat)
    requires k < |entries| < U64_LIMIT
    ensures var bytes, at := EntriesBytes(entries), 8 + |EntriesTail(entries[..k])|;
      && |bytes| >= 8 && FromLittleEndian(bytes[0..8]) == |entries|
      && at + |EntryBytes(entries[k])| <= |bytes| && bytes[at..at + |EntryBytes(entries[k])|] == EntryBytes(entries[k])
  {
    hide LittleEndian;
    hide FromLittleEndian;
    hide EntryBytes;
    var before, one, after := EntriesTail(entries[..k]), EntryBytes(entries[k]), EntriesTail(entries[k + 1..]);
    TailOfTwo(entries[..k], entries[k..]);
    assert entries[..k] + entries[k..] == entries && entries[k..][1..] == entries[k + 1..];
    assert EntriesTail(entries) == before + (one + after);
    LongReads(|entries|, EntriesTail(entries));
    hide EntriesTail;
    var front := LittleEndian(8, |entries|) + before;
    assert EntriesBytes(entries) == front + (one + after);
    Behind(front, one + after, 0, |one|);
    assert (one + after)[0..|one|] == one;
  }

  // ---- the whole text

  const FIELDS: seq<string> := ["canonicalForm", "entries", "generation", "txn_id", "world_id"]

  lemma FieldsAreSorted(request: MutationRequest)
    ensures SortedNames(FingerprintMembers(request).Keys) == FIELDS
  {
    hide Hex;
    hide EntriesBytes;
    forall i, j | 0 <= i < j < 5 ensures Before(FIELDS[i], FIELDS[j]) {
      assert FIELDS[i][0] < FIELDS[j][0];
    }
    var keys := FingerprintMembers(request).Keys;
    assert keys == {"canonicalForm", "entries", "generation", "txn_id", "world_id"};
    hide Before;
    hide FingerprintMembers;
    assert FIELDS[0] in FIELDS && FIELDS[1] in FIELDS && FIELDS[2] in FIELDS;
    assert FIELDS[3] in FIELDS && FIELDS[4] in FIELDS;
    SortedNamesAreUnique(keys, FIELDS);
  }

  lemma ListingOfFive(a: string, b: string, c: string, d: string, e: string)
    ensures Listing([a, b, c, d, e]) == a + "," + b + "," + c + "," + d + "," + e
  {
    assert [a, b, c, d, e][1..] == [b, c, d, e] && [b, c, d, e][1..] == [c, d, e];
    assert [c, d, e][1..] == [d, e] && [d, e][1..] == [e];
    assert Listing([e]) == e;
    assert Listing([d, e]) == d + "," + e;
    assert Listing([c, d, e]) == c + "," + (d + "," + e);
    assert Listing([b, c, d, e]) == b + "," + (c + "," + (d + "," + e));
  }

  lemma HexIsPlain(bytes: ByteString)
    ensures Quoted(Hex(bytes)) == "\"" + Hex(bytes) + "\""
  {
    HexRoundTrip(bytes);
    forall i | 0 <= i < |Hex(bytes)| ensures IsPlain(Hex(bytes)[i]) {
      assert IsLowerHexDigit(Hex(bytes)[i]);
    }
    PlainTextIsItself(Hex(bytes));
  }

  /** A member name and its quoted spelling. */
  lemma PlainName(name: string, quoted: string)
    requires AllPlain(name) && quoted == "\"" + name + "\""
    ensures Quoted(name) == quoted
  {
    PlainTextIsItself(name);
  }

  lemma QuotedNames()
    ensures Quoted("canonicalForm") == "\"canonicalForm\"" && Quoted("entries") == "\"entries\""
    ensures Quoted("generation") == "\"generation\""
    ensures Quoted("txn_id") == "\"txn_id\"" && Quoted("world_id") == "\"world_id\""
  {
    hide Quoted;
    PlainName("canonicalForm", "\"canonicalForm\"");
    PlainName("entries", "\"entries\"");
    PlainName("generation", "\"generation\"");
    PlainName("txn_id", "\"txn_id\"");
    PlainName("world_id", "\"world_id\"");
  }

  lemma QuotedForm()
    ensures Quoted("VoxelCanonicalObjectV1") == "\"VoxelCanonicalObjectV1\""
  {
    hide Quoted;
    PlainName("VoxelCanonicalObjectV1", "\"VoxelCanonicalObjectV1\"");
  }

  lemma FieldValues(request: MutationRequest)
    ensures var members := FingerprintMembers(request);
      && (forall k :: k in FIELDS ==> k in members)
      && MemberTexts(FIELDS, members) == [
           Quoted("canonicalForm") + ":" + Quoted("VoxelCanonicalObjectV1"),
           Quoted("entries") + ":" + Quoted(Hex(EntriesBytes(request.entries))),
           Quoted("generation") + ":" + Decimal(request.generation),
           Quoted("txn_id") + ":" + Quoted(request.txnId),
           Quoted("world_id") + ":" + Quoted(request.worldId)]
  {
    hide Hex;
    hide EntriesBytes;
    hide Quoted;
    hide Decimal;
  }

  /** The text the request digest is taken over. */
  lemma PreimageIsWritten(request: MutationRequest)
    ensures Preimage(request) == Utf8(
      "{" + ("\"canonicalForm\"" + ":" + "\"VoxelCanonicalObjectV1\"") + ","
      + ("\"entries\"" + ":" + ("\"" + Hex(EntriesBytes(request.entries)) + "\"")) + ","
      + ("\"generation\"" + ":" + Decimal(request.generation)) + ","
      + ("\"txn_id\"" + ":" + Quoted(request.txnId)) + ","
      + ("\"world_id\"" + ":" + Quoted(request.worldId)) + "}")
  {
    hide Hex;
    hide EntriesBytes;
    hide Quoted;
    hide Decimal;
    hide Utf8;
    FieldsAreSorted(request);
    FieldValues(request);
    QuotedNames();
    QuotedForm();
    HexIsPlain(EntriesBytes(request.entries));
    var members := FingerprintMembers(request);
    hide FingerprintMembers;
    hide SortedNames;
    MembersAreListed(FIELDS, members);
    hide MemberTexts;
    hide MembersText;
    var t := MemberTexts(FIELDS, members);
    ListingOfFive(t[0], t[1], t[2], t[3], t[4]);
    hide Listing;
    assert t == [t[0], t[1], t[2], t[3], t[4]];
    Regrouped(t[0], t[1], t[2], t[3], t[4]);
  }

  lemma Regrouped(a: string, b: string, c: string, d: string, e: string)
    ensures "{" + (a + "," + b + "," + c + "," + d + "," + e) + "}"
         == "{" + a + "," + b + "," + c + "," + d + "," + e + "}"
  {
  }
}
