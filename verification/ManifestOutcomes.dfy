/** Which bytes a restore accepts as a manifest, and what it says of the manifest of another world or configuration. */
module ManifestOutcomes {
  import opened Wrappers
  import opened Text
  import opened Bytes
  import opened Canonical
  import opened Manifest

  /** The identity fields of a capture that can be recovered. */
  predicate IsRecoverable(c: Capture) {
    c.worldId != "" && c.contextId != "" && IsHash256(c.configHash) && "" !in c.sectionRevisions
  }

  /**
   Restore accepts exactly the manifests of recoverable captures of the expected world, generation and configuration,
   and recovers the capture.
   */
  lemma PreflightIsExact(bytes: ByteString, worldId: string, generation: U64, configHash: string, c: Capture)
    ensures Preflight(bytes, worldId, generation, configHash) == Ok(c) <==>
      && bytes == EncodeCapture(c) && IsRecoverable(c)
      && c.worldId == worldId && c.generation == generation && c.configHash == configHash
  {
    CaptureIsRecovered(c);
    if Preflight(bytes, worldId, generation, configHash) == Ok(c) {
      AcceptedBytesAreTheManifest(bytes, worldId, generation, configHash);
    }
    hide Preflight;
    hide EncodeCapture;
    hide IsHash256;
  }

  lemma FieldsOf(c: Capture, worldId: string, generation: U64, configHash: string)
    requires IsRecoverable(c)
    ensures ValidateFields(ManifestMembers(c), worldId, generation, configHash) ==
      if c.worldId != worldId then Err(SessionMismatch)
      else if c.generation != generation then Err(StaleEpoch)
      else if c.configHash != configHash then Err(EvidenceDigestMismatch)
      else Ok(c)
  {
    hide CollectSectionRevisions;
    hide Hex;
    hide FromHex;
    hide IsHash256;
    hide ManifestMembers;
    hide ParseDigest;
    RecoverFields(c);
    FixedFieldsAreKept(c);
  }

  /** The manifest of another world, generation or configuration is refused by the first of these that differs. */
  lemma MismatchIsNamed(c: Capture, worldId: string, generation: U64, configHash: string)
    requires IsRecoverable(c)
    ensures Preflight(EncodeCapture(c), worldId, generation, configHash) ==
      if worldId == "" then Err(InvalidHandle)
      else if c.worldId != worldId then Err(SessionMismatch)
      else if c.generation != generation then Err(StaleEpoch)
      else if c.configHash != configHash then Err(EvidenceDigestMismatch)
      else Ok(c)
  {
    DecodeObjectIsExact(EncodeCapture(c), ManifestMembers(c));
    hide DecodeObject;
    hide Utf8;
    hide Encode;
    hide ManifestMembers;
    hide IsHash256;
    FieldsOf(c, worldId, generation, configHash);
    hide ValidateFields;
  }

  /** Bytes that are no text, no object or no canonical text are told apart from a wrong manifest. */
  lemma UndecodableIsNamed(bytes: ByteString, worldId: string, generation: U64, configHash: string)
    requires worldId != ""
    ensures FromUtf8(bytes).None? ==> Preflight(bytes, worldId, generation, configHash) == Err(InvalidHandle)
    ensures FromUtf8(bytes).Some? && Decode(FromUtf8(bytes).value) == Err(NotCanonical) && bytes != []
      ==> Preflight(bytes, worldId, generation, configHash) == Err(ArtifactDigestMismatch)
    ensures FromUtf8(bytes).Some? && (Decode(FromUtf8(bytes).value) == Err(Malformed)
                                      || Decode(FromUtf8(bytes).value) == Err(DuplicateMember))
      ==> Preflight(bytes, worldId, generation, configHash) == Err(InvalidHandle)
  {
    hide Decode;
    hide ValidateFields;
    hide FromUtf8;
  }

  // ---- one member changed

  /** The fields a restore reads before it collects section revisions, as the source checks them. */
  predicate FieldsMatch(fields: Members, c: Capture) {
    && RequireText(fields, "schemaId") == Ok("voxel-snapshot-payload")
    && RequireText(fields, "headerSchemaId") == Ok("snapshot-header")
    && RequireText(fields, "magic") == Ok("LUMIOSNP1") && RequireUint(fields, "schemaEpoch") == Ok(1)
    && RequireText(fields, "worldId") == Ok(c.worldId) && RequireText(fields, "contextId") == Ok(c.contextId)
    && RequireUint(fields, "generation") == Ok(c.generation)
    && RequireUint(fields, "worldRevision") == Ok(c.worldRevision)
    && RequireText(fields, "configHash") == Ok(c.configHash)
    && RequireText(fields, "rootIdentity") == Ok(Hex(c.rootIdentity))
  }

  lemma ManifestMatches(c: Capture)
    ensures FieldsMatch(ManifestMembers(c), c)
  {
    hide Hex;
    hide ManifestMembers;
    FixedFieldsAreKept(c);
  }

  lemma RequiredStays(fields: Members, key: string, v: CanonicalValue, name: string)
    requires name != key
    ensures RequireText(fields[key := v], name) == RequireText(fields, name)
    ensures RequireUint(fields[key := v], name) == RequireUint(fields, name)
  {
  }

  lemma OtherFieldsStay(c: Capture, key: string, v: CanonicalValue)
    requires !IsKnownField(key)
    ensures FieldsMatch(ManifestMembers(c)[key := v], c)
  {
    hide Hex;
    hide ManifestMembers;
    hide IsKnownField;
    hide RequireText;
    hide RequireUint;
    ManifestMatches(c);
    KnownNames();
    forall name | name in KNOWN_FIELDS
      ensures RequireText(ManifestMembers(c)[key := v], name) == RequireText(ManifestMembers(c), name)
      ensures RequireUint(ManifestMembers(c)[key := v], name) == RequireUint(ManifestMembers(c), name)
    {
      KnownName(name);
      RequiredStays(ManifestMembers(c), key, v, name);
    }
  }

  lemma KnownName(k: string)
    requires k in KNOWN_FIELDS
    ensures IsKnownField(k)
  {
  }

  lemma KnownNames()
    ensures "schemaId" in KNOWN_FIELDS && "headerSchemaId" in KNOWN_FIELDS && "magic" in KNOWN_FIELDS
    ensures "schemaEpoch" in KNOWN_FIELDS && "worldId" in KNOWN_FIELDS && "contextId" in KNOWN_FIELDS
    ensures "generation" in KNOWN_FIELDS && "worldRevision" in KNOWN_FIELDS && "configHash" in KNOWN_FIELDS
    ensures "rootIdentity" in KNOWN_FIELDS
  {
    assert KNOWN_FIELDS[0] in KNOWN_FIELDS && KNOWN_FIELDS[1] in KNOWN_FIELDS && KNOWN_FIELDS[2] in KNOWN_FIELDS;
    assert KNOWN_FIELDS[3] in KNOWN_FIELDS && KNOWN_FIELDS[4] in KNOWN_FIELDS && KNOWN_FIELDS[5] in KNOWN_FIELDS;
    assert KNOWN_FIELDS[6] in KNOWN_FIELDS && KNOWN_FIELDS[7] in KNOWN_FIELDS && KNOWN_FIELDS[8] in KNOWN_FIELDS;
    assert KNOWN_FIELDS[9] in KNOWN_FIELDS;
  }

  lemma {:induction false} CollectRefusal(names: seq<string>, fields: Members, found: map<string, U64>, bad: string)
    requires forall k :: k in names ==> k in fields
    requires NoRepeats(names) && Sections(names) !! found.Keys
    requires bad in names && !Collectable(fields, bad)
    requires forall k :: k in names && k != bad ==> Collectable(fields, k)
    ensures CollectFrom(names, fields, found)
         == Err(if IsRevisionName(bad) then InvalidHandle else ManifestUnsupportedVersion)
  {
    hide IsKnownField;
    hide IsRevisionName;
    hide SectionOf;
    assert names != [];
    var key, more := names[0], names[1..];
    assert forall k :: k in names <==> k == key || k in more;
    if key == bad {
      assert CollectFrom(names, fields, found).Err?;
    } else {
      SectionsStep(names);
      assert Collectable(fields, key) && (IsRevisionName(key) ==> SectionOf(key) in Sections(names));
      var next := if IsRevisionName(key) then found[SectionOf(key) := fields[key].n] else found;
      assert CollectFrom(names, fields, found) == CollectFrom(more, fields, next);
      CollectRefusal(more, fields, next, bad);
    }
  }

  lemma OneBadMember(c: Capture, key: string, v: CanonicalValue)
    requires IsRecoverable(c) && !IsKnownField(key)
    requires IsRevisionName(key) ==> SectionOf(key) == "" || !v.Uint?
    ensures CollectSectionRevisions(ManifestMembers(c)[key := v])
         == Err(if IsRevisionName(key) then InvalidHandle else ManifestUnsupportedVersion)
  {
    hide Collectable;
    hide IsKnownField;
    hide IsRevisionName;
    hide SectionOf;
    hide ManifestMembers;
    hide IsHash256;
    var fields := ManifestMembers(c)[key := v];
    CollectableRevisions(c);
    var names := SortedNames(fields.Keys);
    SortedNamesAreDistinct(fields.Keys);
    hide SortedNames;
    forall k | k in names && k != key ensures Collectable(fields, k) {
      SameCollectable(ManifestMembers(c), fields, k);
    }
    NotCollectable(fields, key);
    CollectRefusal(names, fields, map[], key);
  }

  lemma SameCollectable(a: Members, b: Members, k: string)
    requires k in a && k in b && a[k] == b[k]
    ensures Collectable(a, k) <==> Collectable(b, k)
  {
  }

  lemma NotCollectable(fields: Members, key: string)
    requires key in fields && !IsKnownField(key)
    requires IsRevisionName(key) ==> SectionOf(key) == "" || !fields[key].Uint?
    ensures !Collectable(fields, key)
  {
  }

  /**
   A manifest with one member more is refused: a name that is no known field is an unsupported version, a section
   revision without a section or that is no number an invalid handle.
   */
  lemma ExtraMemberIsNamed(c: Capture, key: string, v: CanonicalValue)
    requires IsRecoverable(c) && !IsKnownField(key)
    requires IsRevisionName(key) ==> SectionOf(key) == "" || !v.Uint?
    ensures ValidateFields(ManifestMembers(c)[key := v], c.worldId, c.generation, c.configHash)
         == Err(if IsRevisionName(key) then InvalidHandle else ManifestUnsupportedVersion)
  {
    hide ValidateFields;
    hide ManifestMembers;
    hide FieldsMatch;
    hide CollectSectionRevisions;
    hide IsHash256;
    OneBadMember(c, key, v);
    OtherFieldsStay(c, key, v);
    ValidatedFields(ManifestMembers(c)[key := v], c);
    hide IsKnownField;
    hide IsRevisionName;
    hide SectionOf;
  }

  lemma DigestReads(c: Capture)
    ensures ParseDigest(Hex(c.rootIdentity)) == Ok(c.rootIdentity)
  {
    hide Hex;
    hide FromHex;
    HexRoundTrip(c.rootIdentity);
  }

  /** With every fixed field as captured, only the section revisions are left to refuse. */
  lemma ValidatedFields(fields: Members, c: Capture)
    requires IsRecoverable(c) && FieldsMatch(fields, c)
    ensures ValidateFields(fields, c.worldId, c.generation, c.configHash) ==
      match CollectSectionRevisions(fields)
      case Err(e) => Err(e)
      case Ok(revisions) => Ok(c.(sectionRevisions := revisions))
  {
    DigestReads(c);
    hide CollectSectionRevisions;
    hide RequireText;
    hide RequireUint;
    hide ParseDigest;
    hide Hex;
    hide IsHash256;
  }
}
