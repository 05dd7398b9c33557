/** Sealed section pages and the storage sidecar that has to match them. */
module SectionPages {
  import opened Wrappers
  import opened Blocks
  import opened Bytes
  import opened Keys
  import opened PaletteStorage
  import opened SectionCodec

  datatype PageError = InvalidPage | PageDigestMismatch | SidecarMismatch

  /** A page before sealing; `digestOf` is what its declared digest was taken over. */
  datatype SectionPage = SectionPage(encoding: string, compression: string, bytes: ByteString, digestOf: ByteString)

  /** Only dense, uncompressed pages are sealed, and only under the digest of their own bytes. */
  function SealPage(page: SectionPage): Result<ByteString, PageError> {
    if page.encoding != "Dense" && page.encoding != "Sparse" then Err(InvalidPage)
    else if page.compression != "None" && page.compression != "Zstd" && page.compression != "Lz4" then Err(InvalidPage)
    else if page.encoding != "Dense" || page.compression != "None" then Err(InvalidPage)
    else if page.bytes != page.digestOf then Err(PageDigestMismatch)
    else Ok(page.bytes)
  }

  function SealPages(pages: seq<SectionPage>): (r: Result<seq<ByteString>, PageError>)
    ensures r.Ok? ==> |r.value| == |pages|
  {
    if pages == [] then Ok([]) else
    var before :- SealPages(pages[..|pages| - 1]);
    var last :- SealPage(pages[|pages| - 1]);
    Ok(before + [last])
  }

  /** A payload with a sidecar has one page, and that page is the canonical payload of the sidecar's cells. */
  function FromPages(pages: seq<SectionPage>, sidecar: Option<Cells>): Result<seq<ByteString>, PageError> {
    var sealed := SealPages(pages);
    if sealed.Ok? && sidecar.Some? && sealed.value != [Payload(sidecar.value)] then Err(SidecarMismatch) else sealed
  }

  function DensePage(bytes: ByteString): SectionPage {
    SectionPage("Dense", "None", bytes, bytes)
  }

  lemma OnePage(page: SectionPage)
    ensures SealPages([page]) == if SealPage(page).Ok? then Ok([page.bytes]) else Err(SealPage(page).error)
  {
    var none: seq<ByteString> := [];
    assert [page][..0] == [] && SealPages([]) == Ok(none);
    assert none + [page.bytes] == [page.bytes];
  }

  /** A page is sealed exactly when it is dense, uncompressed and under the digest of its own bytes. */
  lemma PageIsSealed(page: SectionPage)
    ensures SealPage(page).Ok? <==>
      page.encoding == "Dense" && page.compression == "None" && page.digestOf == page.bytes
    ensures SealPage(page).Ok? ==> SealPage(page).value == page.bytes
    ensures SealPage(page) == Err(PageDigestMismatch)
        <==> page.encoding == "Dense" && page.compression == "None" && page.digestOf != page.bytes
  {
  }

  /** Without a sidecar any list of such pages is accepted, in its order. */
  lemma {:induction false} PagesAreSealed(pages: seq<SectionPage>)
    ensures FromPages(pages, None).Ok? <==> forall i :: 0 <= i < |pages| ==> pages[i] == DensePage(pages[i].bytes)
    ensures FromPages(pages, None).Ok? ==>
      forall i :: 0 <= i < |pages| ==> FromPages(pages, None).value[i] == pages[i].bytes
  {
    if pages != [] {
      var init, last := pages[..|pages| - 1], pages[|pages| - 1];
      PagesAreSealed(init);
      PageIsSealed(last);
      hide SealPage;
      assert forall i :: 0 <= i < |init| ==> init[i] == pages[i];
    }
  }

  /** The first page that cannot be sealed decides the refusal. */
  lemma FirstBadPageDecides(pages: seq<SectionPage>, i: nat, sidecar: Option<Cells>)
    requires i < |pages| && SealPage(pages[i]).Err? && forall k :: 0 <= k < i ==> SealPage(pages[k]).Ok?
    ensures FromPages(pages, sidecar) == Err(SealPage(pages[i]).error)
  {
    hide SealPage;
    hide Payload;
    GoodPages(pages[..i]);
    assert pages[..i + 1][..i] == pages[..i];
    SealStops(pages, i + 1);
  }

  lemma {:induction false} GoodPages(pages: seq<SectionPage>)
    requires forall k :: 0 <= k < |pages| ==> SealPage(pages[k]).Ok?
    ensures SealPages(pages).Ok?
  {
    hide SealPage;
    if pages != [] {
      GoodPages(pages[..|pages| - 1]);
    }
  }

  /** Pages are accepted beside a sidecar exactly when they are the one dense page of its cells. */
  lemma SidecarIsExact(pages: seq<SectionPage>, cells: Cells)
    ensures FromPages(pages, Some(cells)).Ok? <==> pages == [DensePage(Payload(cells))]
    ensures FromPages(pages, None).Ok? && FromPages(pages, Some(cells)).Err?
      ==> FromPages(pages, Some(cells)) == Err(SidecarMismatch)
  {
    hide Payload;
    if |pages| == 1 {
      assert pages == [pages[0]];
      OnePage(pages[0]);
    }
  }

  /** One page is a valid sidecar page of at most one section content. */
  lemma SidecarDeterminesCells(pages: seq<SectionPage>, a: Cells, b: Cells)
    requires FromPages(pages, Some(a)).Ok? && FromPages(pages, Some(b)).Ok?
    ensures a == b
  {
    hide FromPages;
    hide Payload;
    SidecarIsExact(pages, a);
    SidecarIsExact(pages, b);
    PayloadCharacterisesContent(a, b);
  }

  /** The page that prepare takes from the full envelope of any valid storage is always accepted beside it. */
  lemma StagedPageIsAccepted(id: SectionId, revision: U64, storage: StorageState)
    requires ValidState(storage)
    ensures FromPages([DensePage(EncodeFull(id, revision, Content(storage)).payload)], Some(Content(storage)))
        == Ok([Payload(Content(storage))])
  {
    hide Payload;
    hide ValidState;
    hide Content;
    OnePage(DensePage(Payload(Content(storage))));
  }

  lemma SealStops(pages: seq<SectionPage>, i: nat)
    requires i <= |pages| && SealPages(pages[..i]).Err?
    ensures SealPages(pages) == Err(SealPages(pages[..i]).error)
    decreases |pages|
  {
    hide SealPage;
    if i == |pages| {
      assert pages[..i] == pages;
    } else {
      assert pages[..|pages| - 1][..i] == pages[..i];
      SealStops(pages[..|pages| - 1], i);
    }
  }

  method SealAll(pages: seq<SectionPage>) returns (r: Result<seq<ByteString>, PageError>)
    ensures r == SealPages(pages)
  {
    hide SealPage;
    var sealed: seq<ByteString> := [];
    for i := 0 to |pages|
      invariant SealPages(pages[..i]) == Ok(sealed)
    {
      assert pages[..i + 1][..i] == pages[..i];
      var page := SealPage(pages[i]);
      if page.Err? {
        SealStops(pages, i + 1);
        return Err(page.error);
      }
      sealed := sealed + [page.value];
    }
    assert pages[..|pages|] == pages;
    r := Ok(sealed);
  }

  /** Seal every page, then compare the only page with the bytes the sidecar encodes to. */
  method FromPagesWithStorage(pages: seq<SectionPage>, storage: SectionStorage)
    returns (r: Result<seq<ByteString>, PageError>)
    requires storage.Valid()
    ensures r == FromPages(pages, Some(Content(storage.state)))
  {
    hide Payload;
    hide Content;
    r := SealAll(pages);
    if r.Err? {
      return;
    }
    var encoded := EncodedPayload(storage);
    if |r.value| != 1 || r.value[0] != encoded {
      return Err(SidecarMismatch);
    }
    assert r.value == [encoded];
  }
}
