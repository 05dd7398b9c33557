/** Snapshot manifests: the canonical object of one captured cut, and its preflight. */
module Manifest {
  import opened Wrappers
  import opened Text
  import opened Bytes
  import opened Canonical

  const SECTION_REVISION_PREFIX: string := "sectionRevision."

  type Digest = bytes: ByteString | |bytes| == 32 witness seq(32, _ => 0)

  /** What a captured cut puts into its manifest; also what preflight recovers from one. */
  datatype Capture = Capture(
    worldId: string,
    contextId: string,
    generation: U64,
    worldRevision: U64,
    sectionRevisions: map<string, U64>,
    configHash: string,
    rootIdentity: Digest)

  datatype RestoreError =
    | InvalidHandle
    | ArtifactDigestMismatch
    | EvidenceDigestMismatch
    | ManifestUnsupportedVersion
    | SessionMismatch
    | StaleEpoch

  predicate IsHash256(s: string) {
    |s| == 64 && AllLowerHex(s)
  }

  // ---- encoding a capture

  type Pair = (string, CanonicalValue)

  /** The members every manifest has, in the order they are offered. */
  function FixedPairs(c: Capture): (pairs: seq<Pair>)
    ensures |pairs| == |KNOWN_FIELDS|
    ensures forall j :: 0 <= j < |pairs| ==> pairs[j].0 == KNOWN_FIELDS[j]
  {
    [("schemaId", CanonicalValue.Text("voxel-snapshot-payload")),
     ("headerSchemaId", CanonicalValue.Text("snapshot-header")),
     ("magic", CanonicalValue.Text("LUMIOSNP1")),
     ("schemaEpoch", Uint(1)),
     ("worldId", CanonicalValue.Text(c.worldId)),
     ("contextId", CanonicalValue.Text(c.contextId)),
     ("generation", Uint(c.generation)),
     ("worldRevision", Uint(c.worldRevision)),
     ("configHash", CanonicalValue.Text(c.configHash)),
     ("rootIdentity", CanonicalValue.Text(Hex(c.rootIdentity)))]
  }

  const KNOWN_FIELDS: seq<string> :=
    ["schemaId", "headerSchemaId", "magic", "schemaEpoch", "worldId", "contextId",
     "generation", "worldRevision", "configHash", "rootIdentity"]

  predicate IsKnownField(key: string) {
    key in KNOWN_FIELDS
  }

  /** What inserting these pairs one after another builds. */
  function PairsMap(pairs: seq<Pair>): Members {
    if pairs == [] then map[] else
    var last := pairs[|pairs| - 1];
    PairsMap(pairs[..|pairs| - 1])[last.0 := last.1]
  }

  function Names(pairs: seq<Pair>): (names: seq<string>)
    ensures |names| == |pairs|
  {
    seq(|pairs|, j requires 0 <= j < |pairs| => pairs[j].0)
  }

  /** `m` gives each of these pairs its value. */
  ghost predicate Carries(m: Members, pairs: seq<Pair>) {
    forall j :: 0 <= j < |pairs| ==> pairs[j].0 in m && m[pairs[j].0] == pairs[j].1
  }

  lemma {:induction false} PairsMapAt(pairs: seq<Pair>)
    ensures forall k :: k in PairsMap(pairs) <==> k in Names(pairs)
    ensures NoRepeats(Names(pairs)) ==> Carries(PairsMap(pairs), pairs)
  {
    if pairs != [] {
      var init, last := pairs[..|pairs| - 1], pairs[|pairs| - 1];
      PairsMapAt(init);
      assert Names(pairs) == Names(init) + [last.0];
      if NoRepeats(Names(pairs)) {
        forall i, j | 0 <= i < j < |init| ensures Names(init)[i] != Names(init)[j] {
          assert Names(pairs)[i] != Names(pairs)[j];
        }
        var m := PairsMap(init);
        forall j | 0 <= j < |init| ensures pairs[j].0 in m && m[pairs[j].0] == pairs[j].1 && pairs[j].0 != last.0 {
          assert init[j] == pairs[j] && Names(pairs)[j] != Names(pairs)[|init|];
        }
        assert PairsMap(pairs) == m[last.0 := last.1];
      }
    }
  }

  lemma KnownFieldsAreDistinct()
    ensures NoRepeats(KNOWN_FIELDS)
  {
    assert KNOWN_FIELDS[6][0] != KNOWN_FIELDS[8][0];
  }

  function FixedMembers(c: Capture): Members {
    PairsMap(FixedPairs(c))
  }

  lemma FixedMembersAt(c: Capture)
    ensures forall k :: k in FixedMembers(c) <==> IsKnownField(k)
    ensures Carries(FixedMembers(c), FixedPairs(c))
  {
    hide FixedPairs;
    hide PairsMap;
    KnownFieldsAreDistinct();
    assert Names(FixedPairs(c)) == KNOWN_FIELDS;
    PairsMapAt(FixedPairs(c));
  }

  /** The fixed fields, by name. */
  ghost predicate HasFixedFields(m: Members, c: Capture) {
    && "schemaId" in m && m["schemaId"] == CanonicalValue.Text("voxel-snapshot-payload")
    && "headerSchemaId" in m && m["headerSchemaId"] == CanonicalValue.Text("snapshot-header")
    && "magic" in m && m["magic"] == CanonicalValue.Text("LUMIOSNP1")
    && "schemaEpoch" in m && m["schemaEpoch"] == Uint(1)
    && "worldId" in m && m["worldId"] == CanonicalValue.Text(c.worldId)
    && "contextId" in m && m["contextId"] == CanonicalValue.Text(c.contextId)
    && "generation" in m && m["generation"] == Uint(c.generation)
    && "worldRevision" in m && m["worldRevision"] == Uint(c.worldRevision)
    && "configHash" in m && m["configHash"] == CanonicalValue.Text(c.configHash)
    && "rootIdentity" in m && m["rootIdentity"] == CanonicalValue.Text(Hex(c.rootIdentity))
  }

  lemma FixedFieldsByName(m: Members, c: Capture)
    ensures HasFixedFields(m, c) <==> Carries(m, FixedPairs(c))
  {
    hide Hex;
    var p := FixedPairs(c);
    if Carries(m, p) {
      assert p[0].0 in m && p[1].0 in m && p[2].0 in m && p[3].0 in m && p[4].0 in m;
      assert p[5].0 in m && p[6].0 in m && p[7].0 in m && p[8].0 in m && p[9].0 in m;
    }
  }

  /** A member name that starts with the section revision prefix. */
  predicate IsRevisionName(key: string) {
    SECTION_REVISION_PREFIX <= key
  }

  function RevisionName(section: string): (key: string)
    ensures IsRevisionName(key) && SectionOf(key) == section
    ensures !IsKnownField(key)
  {
    SECTION_REVISION_PREFIX + section
  }

  function SectionOf(key: string): (section: string)
    requires IsRevisionName(key)
    ensures SECTION_REVISION_PREFIX + section == key
  {
    key[|SECTION_REVISION_PREFIX|..]
  }

  function RevisionMembers(revisions: map<string, U64>): Members {
    map key | key in (set s | s in revisions :: RevisionName(s)) :: Uint(revisions[SectionOf(key)])
  }

  function ManifestMembers(c: Capture): Members {
    FixedMembers(c) + RevisionMembers(c.sectionRevisions)
  }

  function EncodeCapture(c: Capture): ByteString {
    Utf8(Encode(ManifestMembers(c)))
  }

  // ---- preflight

  /** UTF-8, then the canonical decoder; its refusals are mapped as the restore path maps them. */
  ghost function DecodeObject(bytes: ByteString): Result<Members, RestoreError> {
    var text := FromUtf8(bytes);
    if bytes == [] || text == None then Err(InvalidHandle) else
    match Decode(text.value)
    case Ok(members) => Ok(members)
    case Err(NotCanonical) => Err(ArtifactDigestMismatch)
    case Err(_) => Err(InvalidHandle)
  }

  function RequireText(fields: Members, key: string): Result<string, RestoreError> {
    if key in fields && fields[key].Text? then Ok(fields[key].text) else Err(InvalidHandle)
  }

  function RequireUint(fields: Members, key: string): Result<U64, RestoreError> {
    if key in fields && fields[key].Uint? then Ok(fields[key].n) else Err(InvalidHandle)
  }

  /** Section revisions of the members named, in that order, added to those found before. */
  function CollectFrom(names: seq<string>, fields: Members, found: map<string, U64>)
    : Result<map<string, U64>, RestoreError>
    requires forall k :: k in names ==> k in fields
  {
    if names == [] then Ok(found) else
    var key := names[0];
    if !IsRevisionName(key) then
      if IsKnownField(key) then CollectFrom(names[1..], fields, found) else Err(ManifestUnsupportedVersion)
    else if SectionOf(key) == "" || !fields[key].Uint? || SectionOf(key) in found then Err(InvalidHandle)
    else CollectFrom(names[1..], fields, found[SectionOf(key) := fields[key].n])
  }

  function CollectSectionRevisions(fields: Members): Result<map<string, U64>, RestoreError> {
    CollectFrom(SortedNames(fields.Keys), fields, map[])
  }

  function ParseDigest(text: string): Result<Digest, RestoreError> {
    if IsHash256(text) then Ok(FromHex(text)) else Err(ArtifactDigestMismatch)
  }

  /** Typed fields of a decoded object, checked in the order of the source. */
  function ValidateFields(fields: Members, worldId: string, generation: U64, configHash: string)
    : Result<Capture, RestoreError>
  {
    var schema :- RequireText(fields, "schemaId");
    var header :- RequireText(fields, "headerSchemaId");
    var magic :- RequireText(fields, "magic");
    var epoch :- RequireUint(fields, "schemaEpoch");
    :- Need(schema == "voxel-snapshot-payload" && header == "snapshot-header" && magic == "LUMIOSNP1" && epoch == 1,
            ManifestUnsupportedVersion);
    var world :- RequireText(fields, "worldId");
    var context :- RequireText(fields, "contextId");
    :- Need(world != "" && context != "", InvalidHandle);
    :- Need(world == worldId, SessionMismatch);
    var gen :- RequireUint(fields, "generation");
    :- Need(gen == generation, StaleEpoch);
    var worldRevision :- RequireUint(fields, "worldRevision");
    var config :- RequireText(fields, "configHash");
    :- Need(IsHash256(config) && config == configHash, EvidenceDigestMismatch);
    var rootHex :- RequireText(fields, "rootIdentity");
    var root :- ParseDigest(rootHex);
    var revisions :- CollectSectionRevisions(fields);
    Ok(Capture(world, context, gen, worldRevision, revisions, config, root))
  }

  ghost function Preflight(bytes: ByteString, worldId: string, generation: U64, configHash: string)
    : Result<Capture, RestoreError>
  {
    if worldId == "" then Err(InvalidHandle) else
    var fields :- DecodeObject(bytes);
    ValidateFields(fields, worldId, generation, configHash)
  }

  // ---- the decoder on bytes

  lemma DecodeObjectIsExact(bytes: ByteString, members: Members)
    ensures DecodeObject(bytes) == Ok(members) <==> bytes == Utf8(Encode(members))
  {
    hide Encode;
    hide Decode;
    hide Utf8;
    hide FromUtf8;
    var text := FromUtf8(bytes);
    EncodedIsNotEmpty(members);
    FromUtf8IsInverse(bytes, Encode(members));
    if text.Some? {
      FromUtf8IsInverse(bytes, text.value);
      DecodeIsExact(text.value, members);
    }
  }

  lemma EncodedIsNotEmpty(members: Members)
    ensures Utf8(Encode(members)) != []
  {
    assert Encode(members) != "";
  }

  // ---- section revisions are collected exactly

  /** Names and values a revision scan accepts. */
  ghost predicate Collectable(fields: Members, key: string)
    requires key in fields
  {
    if IsRevisionName(key) then SectionOf(key) != "" && fields[key].Uint? else IsKnownField(key)
  }

  /** The sections among the first members scanned. */
  ghost function Sections(names: seq<string>): set<string> {
    set k | k in names && IsRevisionName(k) :: SectionOf(k)
  }

  /** `m` holds exactly the revisions of the members `names`. */
  ghost predicate Holds(m: map<string, U64>, names: seq<string>, fields: Members) {
    && m.Keys == Sections(names)
    && forall k :: k in names && IsRevisionName(k) ==> k in fields && fields[k] == Uint(m[SectionOf(k)])
  }

  lemma {:induction false} CollectFromIsExact(names: seq<string>, fields: Members, found: map<string, U64>)
    requires NoRepeats(names)
    requires forall k :: k in names ==> k in fields
    requires Sections(names) !! found.Keys
    ensures CollectFrom(names, fields, found).Ok? <==> forall k :: k in names ==> Collectable(fields, k)
    ensures CollectFrom(names, fields, found).Ok? ==>
      var m := CollectFrom(names, fields, found).value;
      && m.Keys == found.Keys + Sections(names)
      && (forall s :: s in found ==> m[s] == found[s])
      && (forall k :: k in names && IsRevisionName(k) ==> fields[k] == Uint(m[SectionOf(k)]))
  {
    hide IsKnownField;
    hide IsRevisionName;
    hide SectionOf;
    if names != [] {
      var key, more := names[0], names[1..];
      assert forall k :: k in names <==> k == key || k in more;
      SectionsStep(names);
      if Collectable(fields, key) {
        var next := if IsRevisionName(key) then found[SectionOf(key) := fields[key].n] else found;
        CollectFromIsExact(more, fields, next);
      }
    }
  }

  lemma SectionsStep(names: seq<string>)
    requires names != [] && NoRepeats(names)
    ensures IsRevisionName(names[0])
      ==> (&& Sections(names) == Sections(names[1..]) + {SectionOf(names[0])}
           && SectionOf(names[0]) !in Sections(names[1..]))
    ensures !IsRevisionName(names[0]) ==> Sections(names) == Sections(names[1..])
  {
    hide IsRevisionName;
    hide SectionOf;
    var key, more := names[0], names[1..];
    assert forall k :: k in names <==> k == key || k in more;
    assert key !in more;
    forall k | k in more && IsRevisionName(k) && IsRevisionName(key) ensures SectionOf(k) != SectionOf(key) {
      assert RevisionName(SectionOf(k)) == k != key;
    }
  }

  lemma CollectAccepts(names: seq<string>, fields: Members)
    requires NoRepeats(names) && forall k :: k in names <==> k in fields
    ensures CollectFrom(names, fields, map[]).Ok? <==> forall k :: k in fields ==> Collectable(fields, k)
  {
    hide Collectable;
    hide CollectFrom;
    hide NoRepeats;
    CollectFromIsExact(names, fields, map[]);
  }

  lemma CollectHolds(names: seq<string>, fields: Members)
    requires NoRepeats(names) && forall k :: k in names <==> k in fields
    requires CollectFrom(names, fields, map[]).Ok?
    ensures Holds(CollectFrom(names, fields, map[]).value, names, fields)
  {
    hide Collectable;
    hide CollectFrom;
    hide NoRepeats;
    hide IsRevisionName;
    hide SectionOf;
    CollectFromIsExact(names, fields, map[]);
  }

  lemma CollectIsExact(fields: Members)
    ensures var r := CollectSectionRevisions(fields);
      && (r.Ok? <==> forall k :: k in fields ==> Collectable(fields, k))
      && (r.Ok? ==> Holds(r.value, SortedNames(fields.Keys), fields))
  {
    hide Collectable;
    hide CollectFrom;
    hide Holds;
    hide NoRepeats;
    var names := SortedNames(fields.Keys);
    hide SortedNames;
    SortedNamesAreDistinct(fields.Keys);
    CollectAccepts(names, fields);
    if CollectFrom(names, fields, map[]).Ok? {
      CollectHolds(names, fields);
    }
  }

  // ---- main results

  lemma MembersOfManifest(c: Capture, k: string)
    ensures k in ManifestMembers(c) <==> IsKnownField(k) || (IsRevisionName(k) && SectionOf(k) in c.sectionRevisions)
    ensures IsKnownField(k) ==>
      k in FixedMembers(c) && ManifestMembers(c)[k] == FixedMembers(c)[k] && !IsRevisionName(k)
    ensures k in ManifestMembers(c) && !IsKnownField(k) ==>
      ManifestMembers(c)[k] == Uint(c.sectionRevisions[SectionOf(k)])
  {
    KnownFieldsAreFixed(c, k);
    hide IsKnownField;
    hide IsRevisionName;
    hide SectionOf;
    hide FixedMembers;
    if IsRevisionName(k) {
      assert RevisionName(SectionOf(k)) == k;
    }
  }

  lemma KnownFieldsAreFixed(c: Capture, k: string)
    ensures IsKnownField(k) <==> k in FixedMembers(c)
    ensures IsKnownField(k) ==> !IsRevisionName(k)
  {
    FixedMembersAt(c);
    if IsRevisionName(k) {
      assert RevisionName(SectionOf(k)) == k;
    }
  }

  lemma RevisionsOfManifest(c: Capture)
    ensures var fields := ManifestMembers(c);
      && Sections(SortedNames(fields.Keys)) == c.sectionRevisions.Keys
      && (forall s :: s in c.sectionRevisions ==>
            RevisionName(s) in fields && fields[RevisionName(s)] == Uint(c.sectionRevisions[s]))
  {
    hide IsKnownField;
    hide FixedMembers;
    hide IsRevisionName;
    hide SectionOf;
    hide ManifestMembers;
    var fields := ManifestMembers(c);
    var names := SortedNames(fields.Keys);
    forall k | k in fields && IsRevisionName(k) ensures SectionOf(k) in c.sectionRevisions {
      MembersOfManifest(c, k);
    }
    forall s | s in c.sectionRevisions
      ensures RevisionName(s) in fields && s in Sections(names)
      ensures fields[RevisionName(s)] == Uint(c.sectionRevisions[s])
    {
      MembersOfManifest(c, RevisionName(s));
      assert RevisionName(s) in names && SectionOf(RevisionName(s)) == s && IsRevisionName(RevisionName(s));
    }
  }

  lemma CollectableManifest(c: Capture, k: string)
    requires k in ManifestMembers(c)
    ensures Collectable(ManifestMembers(c), k) <==> !IsRevisionName(k) || SectionOf(k) != ""
  {
    hide IsKnownField;
    hide FixedMembers;
    hide IsRevisionName;
    hide SectionOf;
    hide ManifestMembers;
    MembersOfManifest(c, k);
  }

  lemma CollectableRevisions(c: Capture)
    ensures (forall k :: k in ManifestMembers(c) ==> Collectable(ManifestMembers(c), k)) <==> "" !in c.sectionRevisions
  {
    hide Collectable;
    hide IsRevisionName;
    hide SectionOf;
    hide ManifestMembers;
    var fields := ManifestMembers(c);
    var names := SortedNames(fields.Keys);
    RevisionsOfManifest(c);
    hide SortedNames;
    if "" in c.sectionRevisions {
      CollectableManifest(c, RevisionName(""));
    } else {
      forall k | k in fields ensures Collectable(fields, k) {
        CollectableManifest(c, k);
        if IsRevisionName(k) {
          assert SectionOf(k) in Sections(names);
        }
      }
    }
  }

  lemma RecoverRevisions(c: Capture)
    ensures CollectSectionRevisions(ManifestMembers(c)).Ok? <==> "" !in c.sectionRevisions
    ensures "" !in c.sectionRevisions ==> CollectSectionRevisions(ManifestMembers(c)).value == c.sectionRevisions
  {
    hide Collectable;
    hide CollectSectionRevisions;
    hide IsRevisionName;
    hide SectionOf;
    hide ManifestMembers;
    var fields := ManifestMembers(c);
    var names := SortedNames(fields.Keys);
    hide SortedNames;
    CollectIsExact(fields);
    CollectableRevisions(c);
    RevisionsOfManifest(c);
    if "" !in c.sectionRevisions {
      var m := CollectSectionRevisions(fields).value;
      forall s | s in c.sectionRevisions ensures m[s] == c.sectionRevisions[s] {
        assert RevisionName(s) in names && fields[RevisionName(s)] == Uint(m[s]);
      }
    }
  }

  lemma FixedFieldsAreKept(c: Capture)
    ensures HasFixedFields(ManifestMembers(c), c)
  {
    hide FixedMembers;
    hide FixedPairs;
    hide HasFixedFields;
    var m, p := ManifestMembers(c), FixedPairs(c);
    FixedMembersAt(c);
    forall j | 0 <= j < |p| ensures p[j].0 in m && m[p[j].0] == p[j].1 {
      assert KNOWN_FIELDS[j] == p[j].0 && IsKnownField(p[j].0);
      MembersOfManifest(c, p[j].0);
    }
    FixedFieldsByName(m, c);
  }

  lemma RecoverFields(c: Capture)
    ensures ValidateFields(ManifestMembers(c), c.worldId, c.generation, c.configHash) == Ok(c)
       <==> c.worldId != "" && c.contextId != "" && IsHash256(c.configHash) && "" !in c.sectionRevisions
  {
    hide CollectSectionRevisions;
    hide Hex;
    hide FromHex;
    hide AllLowerHex;
    hide ManifestMembers;
    RecoverRevisions(c);
    HexRoundTrip(c.rootIdentity);
    var fields := ManifestMembers(c);
    hide FixedMembers;
    hide IsKnownField;
    FixedFieldsAreKept(c);
  }

  /** A capture is recovered from its own manifest exactly when its identity fields are well formed. */
  lemma CaptureIsRecovered(c: Capture)
    ensures Preflight(EncodeCapture(c), c.worldId, c.generation, c.configHash) == Ok(c)
       <==> c.worldId != "" && c.contextId != "" && IsHash256(c.configHash) && "" !in c.sectionRevisions
  {
    hide Utf8;
    hide Encode;
    hide DecodeObject;
    hide ValidateFields;
    hide ManifestMembers;
    hide IsHash256;
    DecodeObjectIsExact(EncodeCapture(c), ManifestMembers(c));
    RecoverFields(c);
  }

  lemma AcceptedFields(fields: Members, worldId: string, generation: U64, configHash: string)
    requires ValidateFields(fields, worldId, generation, configHash).Ok?
    ensures var c := ValidateFields(fields, worldId, generation, configHash).value;
      && c.worldId == worldId && c.generation == generation && c.configHash == configHash
      && CollectSectionRevisions(fields) == Ok(c.sectionRevisions)
      && HasFixedFields(fields, c)
  {
    hide CollectSectionRevisions;
    hide Hex;
    hide FromHex;
    hide AllLowerHex;
    FromHexRoundTrip(fields["rootIdentity"].text);
  }

  lemma KnownFieldIndex(c: Capture, k: string, fields: Members)
    requires IsKnownField(k)
    requires Carries(fields, FixedPairs(c))
    ensures k in fields && k in FixedMembers(c) && fields[k] == FixedMembers(c)[k]
  {
    FixedMembersAt(c);
    hide FixedMembers;
    hide FixedPairs;
    var j :| 0 <= j < |KNOWN_FIELDS| && KNOWN_FIELDS[j] == k;
    assert FixedPairs(c)[j].0 == k;
  }

  lemma SameMembers(c: Capture, fields: Members)
    requires CollectSectionRevisions(fields) == Ok(c.sectionRevisions)
    requires HasFixedFields(fields, c)
    ensures fields == ManifestMembers(c)
  {
    FixedFieldsByName(fields, c);
    FixedMembersAt(c);
    hide HasFixedFields;
    hide FixedMembers;
    hide FixedPairs;
    hide IsKnownField;
    hide CollectSectionRevisions;
    hide IsRevisionName;
    hide SectionOf;
    hide ManifestMembers;
    CollectIsExact(fields);
    var names := SortedNames(fields.Keys);
    forall k
      ensures k in fields <==> k in ManifestMembers(c)
      ensures k in fields ==> fields[k] == ManifestMembers(c)[k]
    {
      MembersOfManifest(c, k);
      KnownFieldsAreFixed(c, k);
      if IsKnownField(k) {
        KnownFieldIndex(c, k, fields);
      }
      if k in fields {
        assert Collectable(fields, k);
        if IsRevisionName(k) {
          assert k in names && SectionOf(k) in Sections(names);
        }
      }
      if IsRevisionName(k) && SectionOf(k) in Sections(names) {
        var j :| j in names && IsRevisionName(j) && SectionOf(j) == SectionOf(k);
        assert RevisionName(SectionOf(j)) == j;
      }
    }
  }

  /** Any accepted bytes are exactly the manifest of the fields recovered from them. */
  lemma AcceptedBytesAreTheManifest(bytes: ByteString, worldId: string, generation: U64, configHash: string)
    requires Preflight(bytes, worldId, generation, configHash).Ok?
    ensures var c := Preflight(bytes, worldId, generation, configHash).value;
      && bytes == EncodeCapture(c)
      && c.worldId == worldId && c.generation == generation && c.configHash == configHash
  {
    hide ValidateFields;
    hide DecodeObject;
    hide FixedMembers;
    hide IsKnownField;
    hide Utf8;
    hide Encode;
    hide CollectSectionRevisions;
    var fields := DecodeObject(bytes).value;
    var c := Preflight(bytes, worldId, generation, configHash).value;
    AcceptedFields(fields, worldId, generation, configHash);
    CollectIsExact(fields);
    SameMembers(c, fields);
    DecodeObjectIsExact(bytes, fields);
  }

  // ---- as computed in the source

  /** Every member of the manifest, in the order it is offered. */
  function OfferedPairs(c: Capture, sections: seq<string>): (pairs: seq<Pair>)
    requires forall s :: s in sections ==> s in c.sectionRevisions
    ensures |pairs| == |KNOWN_FIELDS| + |sections|
  {
    FixedPairs(c)[..8] + RevisionPairs(c.sectionRevisions, sections) + FixedPairs(c)[8..]
  }

  function RevisionPairs(revisions: map<string, U64>, sections: seq<string>): (pairs: seq<Pair>)
    requires forall s :: s in sections ==> s in revisions
    ensures |pairs| == |sections|
  {
    seq(|sections|, j requires 0 <= j < |sections| => (RevisionName(sections[j]), Uint(revisions[sections[j]])))
  }

  /** Collect the members, then insert each; a repeated name would be refused, and none is. */
  method ManifestObject(c: Capture) returns (r: Result<Members, RestoreError>)
    ensures r == Ok(ManifestMembers(c))
  {
    hide OfferedPairs;
    hide ManifestMembers;
    var members := OfferMembers(c);
    OfferedBuildManifest(c);
    var object' := InsertAll(members);
    r := if object'.Some? then Ok(object'.value) else Err(InvalidHandle);
  }

  method OfferMembers(c: Capture) returns (members: seq<Pair>)
    ensures members == OfferedPairs(c, SortedNames(c.sectionRevisions.Keys))
  {
    hide FixedPairs;
    hide RevisionPairs;
    hide RevisionName;
    var fixed := FixedPairs(c);
    members := fixed[..8];
    var sections := SortedNames(c.sectionRevisions.Keys);
    hide SortedNames;
    NoRevisionPairs(c.sectionRevisions, sections[..0]);
    assert members == fixed[..8] + [];
    for i := 0 to |sections|
      invariant members == fixed[..8] + RevisionPairs(c.sectionRevisions, sections[..i])
    {
      assert sections[i] in c.sectionRevisions;
      RevisionPairsStep(c.sectionRevisions, sections, i);
      members := members + [(RevisionName(sections[i]), Uint(c.sectionRevisions[sections[i]]))];
    }
    assert sections[..|sections|] == sections;
    members := members + fixed[8..];
  }

  lemma RevisionPairsStep(revisions: map<string, U64>, sections: seq<string>, i: nat)
    requires forall s :: s in sections ==> s in revisions
    requires i < |sections|
    ensures RevisionPairs(revisions, sections[..i + 1])
         == RevisionPairs(revisions, sections[..i]) + [(RevisionName(sections[i]), Uint(revisions[sections[i]]))]
  {
    hide RevisionName;
  }

  lemma NoRevisionPairs(revisions: map<string, U64>, none: seq<string>)
    requires none == []
    ensures RevisionPairs(revisions, none) == []
  {
  }

  lemma InsertOneMore(pairs: seq<Pair>, i: nat)
    requires i < |pairs| && NoRepeats(Names(pairs[..i]))
    ensures pairs[i].0 in PairsMap(pairs[..i]) <==> pairs[i].0 in Names(pairs[..i])
    ensures PairsMap(pairs[..i + 1]) == PairsMap(pairs[..i])[pairs[i].0 := pairs[i].1]
    ensures NoRepeats(Names(pairs[..i + 1])) <==> pairs[i].0 !in Names(pairs[..i])
  {
    PairsMapAt(pairs[..i]);
    assert pairs[..i + 1][..i] == pairs[..i];
    assert Names(pairs[..i + 1]) == Names(pairs[..i]) + [pairs[i].0];
    SnocNoRepeats(Names(pairs[..i]), pairs[i].0);
  }

  lemma RepeatedName(pairs: seq<Pair>, i: nat)
    requires i < |pairs| && pairs[i].0 in Names(pairs[..i])
    ensures !NoRepeats(Names(pairs))
  {
    var j :| 0 <= j < i && Names(pairs[..i])[j] == pairs[i].0;
    assert Names(pairs)[j] == Names(pairs)[i];
  }

  method InsertAll(pairs: seq<Pair>) returns (r: Option<Members>)
    ensures r == if NoRepeats(Names(pairs)) then Some(PairsMap(pairs)) else None
  {
    hide PairsMap;
    hide NoRepeats;
    var object' := new CanonicalObject();
    NothingInserted(pairs[..0]);
    for i := 0 to |pairs|
      invariant object'.members == PairsMap(pairs[..i])
      invariant NoRepeats(Names(pairs[..i]))
    {
      InsertOneMore(pairs, i);
      var ok := object'.Insert(pairs[i].0, pairs[i].1);
      if !ok {
        RepeatedName(pairs, i);
        return None;
      }
    }
    assert pairs[..|pairs|] == pairs;
    r := Some(object'.members);
  }

  lemma NothingInserted(none: seq<Pair>)
    requires none == []
    ensures PairsMap(none) == map[] && NoRepeats(Names(none))
  {
  }

  /** The offered members have distinct names and build the manifest. */
  lemma OfferedBuildManifest(c: Capture)
    ensures var pairs := OfferedPairs(c, SortedNames(c.sectionRevisions.Keys));
      NoRepeats(Names(pairs)) && PairsMap(pairs) == ManifestMembers(c)
  {
    hide FixedPairs;
    hide PairsMap;
    hide FixedMembers;
    hide RevisionName;
    hide IsKnownField;
    hide ManifestMembers;
    var sections := SortedNames(c.sectionRevisions.Keys);
    var pairs := OfferedPairs(c, sections);
    OfferedAreDistinct(c, sections);
    PairsMapAt(pairs);
    forall k ensures k in PairsMap(pairs) <==> k in ManifestMembers(c)
      ensures k in PairsMap(pairs) ==> PairsMap(pairs)[k] == ManifestMembers(c)[k]
    {
      MembersOfManifest(c, k);
      OfferedAt(c, sections, k);
    }
  }

  lemma OfferedAreDistinct(c: Capture, sections: seq<string>)
    requires sections == SortedNames(c.sectionRevisions.Keys)
    ensures NoRepeats(Names(OfferedPairs(c, sections)))
  {
    hide FixedPairs;
    hide RevisionName;
    hide IsRevisionName;
    hide SectionOf;
    hide IsKnownField;
    var n := |sections|;
    var names := Names(OfferedPairs(c, sections));
    KnownFieldsAreDistinct();
    SortedNamesAreDistinct(c.sectionRevisions.Keys);
    forall i, j | 0 <= i < j < |names| ensures names[i] != names[j] {
      OfferedName(c, sections, i);
      OfferedName(c, sections, j);
      if 8 <= i && j < 8 + n {
        assert sections[i - 8] != sections[j - 8];
      }
    }
  }

  /** The `i`-th offered name: a known field or a section's revision. */
  lemma OfferedName(c: Capture, sections: seq<string>, i: nat)
    requires forall s :: s in sections ==> s in c.sectionRevisions
    requires i < |OfferedPairs(c, sections)|
    ensures var n, pair := |sections|, OfferedPairs(c, sections)[i];
      if 8 <= i < 8 + n then pair == (RevisionName(sections[i - 8]), Uint(c.sectionRevisions[sections[i - 8]]))
      else
        var j := if i < 8 then i else i - n;
        j < |KNOWN_FIELDS| && pair == FixedPairs(c)[j] && pair.0 == KNOWN_FIELDS[j] && IsKnownField(pair.0)
  {
    hide FixedPairs;
    hide RevisionName;
  }

  lemma OfferedAt(c: Capture, sections: seq<string>, k: string)
    requires sections == SortedNames(c.sectionRevisions.Keys)
    ensures k in Names(OfferedPairs(c, sections)) <==> k in ManifestMembers(c)
    ensures Carries(ManifestMembers(c), OfferedPairs(c, sections))
  {
    hide FixedPairs;
    hide RevisionName;
    hide IsRevisionName;
    hide SectionOf;
    hide IsKnownField;
    hide FixedMembers;
    hide ManifestMembers;
    var pairs := OfferedPairs(c, sections);
    FixedMembersAt(c);
    forall i | 0 <= i < |pairs|
      ensures pairs[i].0 in ManifestMembers(c) && ManifestMembers(c)[pairs[i].0] == pairs[i].1
    {
      OfferedName(c, sections, i);
      MembersOfManifest(c, pairs[i].0);
    }
    if k in ManifestMembers(c) {
      MembersOfManifest(c, k);
      var i := OfferedIndex(c, sections, k);
      assert Names(pairs)[i] == k;
    }
  }

  lemma OfferedIndex(c: Capture, sections: seq<string>, k: string) returns (i: nat)
    requires sections == SortedNames(c.sectionRevisions.Keys)
    requires IsKnownField(k) || (IsRevisionName(k) && SectionOf(k) in c.sectionRevisions)
    ensures i < |OfferedPairs(c, sections)| && OfferedPairs(c, sections)[i].0 == k
  {
    hide OfferedPairs;
    hide FixedPairs;
    hide RevisionName;
    hide IsRevisionName;
    hide SectionOf;
    assert forall s :: s in sections <==> s in c.sectionRevisions;
    hide SortedNames;
    if IsKnownField(k) {
      var j :| 0 <= j < |KNOWN_FIELDS| && KNOWN_FIELDS[j] == k;
      i := if j < 8 then j else j + |sections|;
    } else {
      var j :| 0 <= j < |sections| && sections[j] == SectionOf(k);
      i := j + 8;
      RevisionNameOfSection(k);
    }
    OfferedName(c, sections, i);
  }

  lemma RevisionNameOfSection(k: string)
    requires IsRevisionName(k)
    ensures RevisionName(SectionOf(k)) == k
  {
  }

  lemma CollectUnfolds(names: seq<string>, fields: Members, i: nat, found: map<string, U64>)
    requires i < |names| && forall k :: k in names ==> k in fields
    ensures var key := names[i];
      CollectFrom(names[i..], fields, found) ==
        if !IsRevisionName(key)
        then if IsKnownField(key) then CollectFrom(names[i + 1..], fields, found) else Err(ManifestUnsupportedVersion)
        else if SectionOf(key) == "" || !fields[key].Uint? || SectionOf(key) in found then Err(InvalidHandle)
        else CollectFrom(names[i + 1..], fields, found[SectionOf(key) := fields[key].n])
  {
    hide IsKnownField;
    hide IsRevisionName;
    hide SectionOf;
    var rest := names[i..];
    assert rest[0] == names[i] && rest[1..] == names[i + 1..];
  }

  lemma NothingToCollect(fields: Members, found: map<string, U64>)
    ensures CollectFrom([], fields, found) == Ok(found)
  {
  }

  method CollectRevisions(fields: Members) returns (r: Result<map<string, U64>, RestoreError>)
    ensures r == CollectSectionRevisions(fields)
  {
    hide IsKnownField;
    hide IsRevisionName;
    hide SectionOf;
    hide CollectFrom;
    var names := SortedNames(fields.Keys);
    hide SortedNames;
    var sections: map<string, U64> := map[];
    ghost var goal := CollectFrom(names, fields, map[]);
    assert names[0..] == names;
    for i := 0 to |names|
      invariant CollectFrom(names[i..], fields, sections) == goal
    {
      var key := names[i];
      assert key in fields;
      CollectUnfolds(names, fields, i, sections);
      if !IsRevisionName(key) {
        if !IsKnownField(key) {
          return Err(ManifestUnsupportedVersion);
        }
        continue;
      }
      var section := SectionOf(key);
      if section == "" || !fields[key].Uint? || section in sections {
        return Err(InvalidHandle);
      }
      sections := sections[section := fields[key].n];
    }
    assert names[|names|..] == [];
    NothingToCollect(fields, sections);
    r := Ok(sections);
  }

  lemma HexPair(text: string, i: nat)
    requires AllLowerHex(text) && |text| % 2 == 0 && 2 * i + 1 < |text|
    ensures IsLowerHexDigit(text[2 * i]) && IsLowerHexDigit(text[2 * i + 1])
    ensures AllLowerHex(text[2 * i..]) && AllLowerHex(text[2 * i + 2..])
    ensures FromHex(text[2 * i..])
        == [16 * HexValue(text[2 * i]) + HexValue(text[2 * i + 1])] + FromHex(text[2 * i + 2..])
  {
    hide HexValue;
    hide IsLowerHexDigit;
    var rest := text[2 * i..];
    assert rest[0] == text[2 * i] && rest[1] == text[2 * i + 1] && rest[2..] == text[2 * i + 2..];
  }

  lemma HexEnds(text: string)
    requires IsHash256(text)
    ensures text[0..] == text && text[64..] == "" && FromHex("") == []
  {
  }

  method ParseHex32(text: string) returns (r: Result<Digest, RestoreError>)
    ensures r == ParseDigest(text)
  {
    hide HexValue;
    hide IsLowerHexDigit;
    hide AllLowerHex;
    hide FromHex;
    if !IsHash256(text) {
      return Err(ArtifactDigestMismatch);
    }
    HexEnds(text);
    var out: ByteString := [];
    for i := 0 to 32
      invariant AllLowerHex(text[2 * i..])
      invariant out + FromHex(text[2 * i..]) == FromHex(text)
    {
      HexPair(text, i);
      assert 2 * (i + 1) == 2 * i + 2;
      out := out + [16 * HexValue(text[2 * i]) + HexValue(text[2 * i + 1])];
    }
    assert out + FromHex("") == out;
    r := Ok(out);
  }
}
