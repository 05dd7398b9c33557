/** Canonical keys of the two addressed layers: `s:<x>:<y>:<z>` sections and `c:<x>:<z>` chunks. */
module Keys {
  import opened Wrappers
  import opened Text

  const COORD_MIN: int := -0x8000_0000
  const COORD_MAX: int := 0x7FFF_FFFF
  const SECTION_Y_MAX: int := 15
  const SECTION_ARITY: nat := 3
  const CHUNK_ARITY: nat := 2

  type Coord = n: int | COORD_MIN <= n <= COORD_MAX witness 0
  type Layer = n: nat | n <= SECTION_Y_MAX witness 0

  datatype KeyRejection =
    | LegacyThreeCoordinateChunkKey
    | WrongPrefix
    | WrongArity
    | EmptyComponent
    | NonCanonicalCoordinate
    | SectionYOutOfRange
    | CoordinateOutOfBounds

  datatype KeyKind = SectionKind | ChunkKind

  datatype SectionId = SectionId(x: Coord, y: Layer, z: Coord)

  datatype ChunkId = ChunkId(x: Coord, z: Coord)

  // ---- printing

  function Signed(n: int): string {
    if n < 0 then "-" + Decimal(-n) else Decimal(n)
  }

  /** Prefix and coordinates separated by colons. */
  function Join(parts: seq<string>): string
    requires parts != []
  {
    if |parts| == 1 then parts[0] else parts[0] + ":" + Join(parts[1..])
  }

  function SectionKey(id: SectionId): string {
    Join(["s", Signed(id.x), Signed(id.y), Signed(id.z)])
  }

  function ChunkKey(id: ChunkId): string {
    Join(["c", Signed(id.x), Signed(id.z)])
  }

  // ---- parsing

  /** The segments between colons; always at least one. */
  function Split(raw: string): (parts: seq<string>)
    ensures parts != []
  {
    if raw == [] then [""]
    else if raw[0] == ':' then [""] + Split(raw[1..])
    else
      var more := Split(raw[1..]);
      [[raw[0]] + more[0]] + more[1..]
  }

  /** Coordinate segments after the required prefix. */
  function SplitKey(raw: string, prefix: string, kind: KeyKind): Result<seq<string>, KeyRejection> {
    var parts := Split(raw);
    var components := parts[1..];
    if parts[0] == prefix then Ok(components)
    else if kind == SectionKind && parts[0] == "c" && |components| == SECTION_ARITY
    then Err(LegacyThreeCoordinateChunkKey)
    else Err(WrongPrefix)
  }

  function Unsigned(raw: string): string {
    if raw != "" && raw[0] == '-' then raw[1..] else raw
  }

  /** Canonical decimal within `i64`. */
  function ParseDecimal(raw: string): Result<int, KeyRejection> {
    var negative := raw != "" && raw[0] == '-';
    var digits := Unsigned(raw);
    if raw == "" then Err(EmptyComponent)
    else if digits == "" || !AllDigits(digits) then Err(NonCanonicalCoordinate)
    else if |digits| > 1 && digits[0] == '0' then Err(NonCanonicalCoordinate)
    else if negative && digits == "0" then Err(NonCanonicalCoordinate)
    else
      var n := if negative then -(DecimalValue(digits) as int) else DecimalValue(digits);
      if -0x8000_0000_0000_0000 <= n <= 0x7FFF_FFFF_FFFF_FFFF then Ok(n) else Err(CoordinateOutOfBounds)
  }

  function ParseCoord(raw: string): Result<Coord, KeyRejection> {
    if |Unsigned(raw)| > 10 then Err(NonCanonicalCoordinate) else
    match ParseDecimal(raw)
    case Err(e) => Err(e)
    case Ok(n) => if COORD_MIN <= n <= COORD_MAX then Ok(n) else Err(CoordinateOutOfBounds)
  }

  function ParseLayer(raw: string): Result<Layer, KeyRejection> {
    match ParseDecimal(raw)
    case Err(e) => Err(e)
    case Ok(n) => if 0 <= n <= SECTION_Y_MAX then Ok(n) else Err(SectionYOutOfRange)
  }

  function ParseSection(raw: string): Result<SectionId, KeyRejection> {
    match SplitKey(raw, "s", SectionKind)
    case Err(e) => Err(e)
    case Ok(parts) =>
      if |parts| != SECTION_ARITY then Err(WrongArity) else
      match ParseCoord(parts[0])
      case Err(e) => Err(e)
      case Ok(x) =>
        match ParseLayer(parts[1])
        case Err(e) => Err(e)
        case Ok(y) =>
          match ParseCoord(parts[2])
          case Err(e) => Err(e)
          case Ok(z) => Ok(SectionId(x, y, z))
  }

  function ParseChunk(raw: string): Result<ChunkId, KeyRejection> {
    match SplitKey(raw, "c", ChunkKind)
    case Err(e) => Err(e)
    case Ok(parts) =>
      if |parts| != CHUNK_ARITY
      then Err(if |parts| == SECTION_ARITY then LegacyThreeCoordinateChunkKey else WrongArity) else
      match ParseCoord(parts[0])
      case Err(e) => Err(e)
      case Ok(x) =>
        match ParseCoord(parts[1])
        case Err(e) => Err(e)
        case Ok(z) => Ok(ChunkId(x, z))
  }

  /** A text that names a section. */
  predicate IsSectionKey(raw: string) {
    ParseSection(raw).Ok?
  }

  // ---- splitting undoes joining

  predicate HasColon(s: string) {
    exists i :: 0 <= i < |s| && s[i] == ':'
  }

  lemma SplitUnfolds(raw: string)
    requires raw != []
    ensures var more := Split(raw[1..]);
      Split(raw) == if raw[0] == ':' then [""] + more else [[raw[0]] + more[0]] + more[1..]
  {
  }

  lemma NoColonBefore(c: char, s: string)
    requires c != ':' && !HasColon(s)
    ensures !HasColon([c] + s)
  {
    var all := [c] + s;
    forall i | 0 <= i < |all| ensures all[i] != ':' {
      assert i == 0 || all[i] == s[i - 1];
    }
  }

  lemma JoinFirst(first: string, more: seq<string>)
    ensures Join([first] + more) == if more == [] then first else first + ":" + Join(more)
  {
    assert ([first] + more)[1..] == more;
  }

  lemma {:induction false} JoinSplit(raw: string)
    ensures Join(Split(raw)) == raw
    ensures forall i :: 0 <= i < |Split(raw)| ==> !HasColon(Split(raw)[i])
  {
    if raw != [] {
      JoinSplit(raw[1..]);
      SplitUnfolds(raw);
      hide Split;
      hide Join;
      hide HasColon;
      var more := Split(raw[1..]);
      assert raw == [raw[0]] + raw[1..];
      assert more == [more[0]] + more[1..];
      JoinFirst(more[0], more[1..]);
      if raw[0] == ':' {
        JoinFirst("", more);
        assert !HasColon("") by { EmptyHasNoColon(); }
      } else {
        JoinFirst([raw[0]] + more[0], more[1..]);
        NoColonBefore(raw[0], more[0]);
      }
    }
  }

  lemma EmptyHasNoColon()
    ensures !HasColon("")
  {
  }

  lemma {:induction false} SplitSegment(part: string, rest: string)
    requires !HasColon(part)
    ensures Split(part + ":" + rest) == [part] + Split(rest)
    ensures Split(part) == [part]
  {
    var s := part + ":" + rest;
    if part == "" {
      assert s[1..] == rest;
    } else {
      forall i | 0 <= i < |part[1..]| ensures part[1..][i] != ':' {
        assert part[i + 1] != ':';
      }
      SplitSegment(part[1..], rest);
      assert s[1..] == part[1..] + ":" + rest;
      assert part == [part[0]] + part[1..];
      assert part[0] != ':';
    }
  }

  lemma {:induction false} SplitJoin(parts: seq<string>)
    requires parts != []
    requires forall i :: 0 <= i < |parts| ==> !HasColon(parts[i])
    ensures Split(Join(parts)) == parts
  {
    if |parts| == 1 {
      SplitSegment(parts[0], "");
    } else {
      SplitJoin(parts[1..]);
      SplitSegment(parts[0], Join(parts[1..]));
    }
  }

  // ---- coordinates

  lemma SignedHasNoColon(n: int)
    ensures !HasColon(Signed(n))
  {
    DecimalRoundTrip(Magnitude(n));
  }

  lemma {:induction false} ManyDigitsAreLarge(s: string, bound: nat)
    requires IsMinimalDecimal(s) && s != "0"
    requires |s| > bound
    ensures DecimalValue(s) >= Power10(bound)
  {
    var p := s[..|s| - 1];
    if bound > 0 {
      NumeralRoundTrip(s);
      if |p| == 1 {
        assert p[..0] == [] && DecimalValue(p) == DigitValue(p[0]) > 0;
      }
      ManyDigitsAreLarge(p, bound - 1);
    } else {
      NumeralRoundTrip(s);
    }
  }

  function Power10(k: nat): nat {
    if k == 0 then 1 else 10 * Power10(k - 1)
  }

  /** Ten digits suffice for every 32-bit magnitude. */
  lemma CoordDigits(n: nat)
    requires n <= 0x8000_0000
    ensures |Decimal(n)| <= 10
  {
    DecimalRoundTrip(n);
    if |Decimal(n)| > 10 {
      ManyDigitsAreLarge(Decimal(n), 10);
      PowerTen();
    }
  }

  lemma PowerTen()
    ensures Power10(10) == 10000000000
  {
    assert Power10(2) == 100 && Power10(4) == 10000 && Power10(6) == 1000000 && Power10(8) == 100000000;
  }

  function Magnitude(n: int): nat {
    if n < 0 then -n else n
  }

  /** A decimal text is accepted with value `n` exactly when it is the shortest spelling of `n`. */
  lemma ParseDecimalIsExact(raw: string, n: int)
    requires -0x8000_0000_0000_0000 <= n <= 0x7FFF_FFFF_FFFF_FFFF
    ensures ParseDecimal(raw) == Ok(n) <==> raw == Signed(n)
  {
    hide Decimal;
    hide DecimalValue;
    if raw == Signed(n) {
      SignedParses(n);
    } else if ParseDecimal(raw) == Ok(n) {
      ParsedIsSigned(raw, n);
    }
  }

  lemma ParsedIsSigned(raw: string, n: int)
    requires ParseDecimal(raw) == Ok(n)
    ensures raw == Signed(n)
  {
    hide Decimal;
    hide DecimalValue;
    var digits := Unsigned(raw);
    NumeralRoundTrip(digits);
    assert Decimal(DecimalValue(digits)) == digits;
    if raw[0] == '-' {
      assert raw == "-" + digits;
    } else {
      assert raw == digits;
    }
  }

  lemma SignedParses(n: int)
    requires -0x8000_0000_0000_0000 <= n <= 0x7FFF_FFFF_FFFF_FFFF
    ensures ParseDecimal(Signed(n)) == Ok(n)
  {
    hide Decimal;
    hide DecimalValue;
    DecimalRoundTrip(Magnitude(n));
    var digits := Decimal(Magnitude(n));
    assert IsDigit(digits[0]);
    if n < 0 {
      assert Signed(n)[1..] == digits;
    }
  }

  lemma ParseCoordIsExact(raw: string, n: Coord)
    ensures ParseCoord(raw) == Ok(n) <==> raw == Signed(n)
  {
    hide ParseDecimal;
    hide Signed;
    ParseDecimalIsExact(raw, n);
    if raw == Signed(n) {
      CoordDigits(Magnitude(n));
      UnsignedOfSigned(n);
    }
  }

  lemma UnsignedOfSigned(n: int)
    ensures Unsigned(Signed(n)) == Decimal(Magnitude(n))
  {
    DecimalRoundTrip(Magnitude(n));
    if n < 0 {
      assert Signed(n)[1..] == Decimal(-n);
    }
  }

  lemma ParseLayerIsExact(raw: string, n: Layer)
    ensures ParseLayer(raw) == Ok(n) <==> raw == Signed(n)
  {
    ParseDecimalIsExact(raw, n);
  }

  // ---- main results

  /** A section key is accepted exactly when it is the canonical text of the section returned. */
  lemma ParseSectionIsExact(raw: string, id: SectionId)
    ensures ParseSection(raw) == Ok(id) <==> raw == SectionKey(id)
  {
    hide Signed;
    hide ParseCoord;
    hide ParseLayer;
    hide Join;
    hide Split;
    var parts := Split(raw);
    JoinSplit(raw);
    if |parts| == 4 {
      ParseCoordIsExact(parts[1], id.x);
      ParseLayerIsExact(parts[2], id.y);
      ParseCoordIsExact(parts[3], id.z);
      assert parts == [parts[0], parts[1], parts[2], parts[3]];
    }
    SignedHasNoColon(id.x);
    SignedHasNoColon(id.y);
    SignedHasNoColon(id.z);
    SplitJoin(["s", Signed(id.x), Signed(id.y), Signed(id.z)]);
  }

  /** The chunk key has exactly two coordinates; the same exactness holds for it. */
  lemma ParseChunkIsExact(raw: string, id: ChunkId)
    ensures ParseChunk(raw) == Ok(id) <==> raw == ChunkKey(id)
  {
    hide Signed;
    hide ParseCoord;
    hide Join;
    hide Split;
    var parts := Split(raw);
    JoinSplit(raw);
    if |parts| == 3 {
      ParseCoordIsExact(parts[1], id.x);
      ParseCoordIsExact(parts[2], id.z);
      assert parts == [parts[0], parts[1], parts[2]];
    }
    SignedHasNoColon(id.x);
    SignedHasNoColon(id.z);
    SplitJoin(["c", Signed(id.x), Signed(id.z)]);
  }

  /** A coordinate is written as its shortest decimal, with a minus sign when it is negative. */
  lemma SignedIsWritten(n: int)
    ensures n >= 0 ==> IsMinimalDecimal(Signed(n)) && DecimalValue(Signed(n)) == n
    ensures n < 0 ==>
      Signed(n)[..1] == "-" && IsMinimalDecimal(Signed(n)[1..]) && DecimalValue(Signed(n)[1..]) == -n
  {
    hide Decimal;
    hide DecimalValue;
    DecimalRoundTrip(Magnitude(n));
    if n < 0 {
      assert Signed(n)[1..] == Decimal(-n);
    }
  }

  lemma JoinThree(a: string, b: string, c: string)
    ensures Join([a, b, c]) == a + ":" + (b + ":" + c)
  {
    assert [a, b, c][1..] == [b, c] && [b, c][1..] == [c];
    assert Join([c]) == c;
    assert Join([b, c]) == b + ":" + c;
  }

  lemma JoinFour(a: string, b: string, c: string, d: string)
    ensures Join([a, b, c, d]) == a + ":" + (b + ":" + (c + ":" + d))
  {
    JoinThree(b, c, d);
    assert [a, b, c, d][1..] == [b, c, d];
    assert Join([a, b, c, d]) == a + ":" + Join([b, c, d]);
  }

  lemma FourParts(a: string, b: string, c: string, d: string)
    ensures a + ":" + (b + ":" + (c + ":" + d)) == a + ":" + b + ":" + c + ":" + d
    ensures a + ":" + (b + ":" + c) == a + ":" + b + ":" + c
  {
  }

  /** The keys as texts. */
  lemma KeysAreWritten(section: SectionId, chunk: ChunkId)
    ensures SectionKey(section) == "s" + ":" + Signed(section.x) + ":" + Signed(section.y) + ":" + Signed(section.z)
    ensures ChunkKey(chunk) == "c" + ":" + Signed(chunk.x) + ":" + Signed(chunk.z)
  {
    hide Signed;
    hide Join;
    var x, y, z := Signed(section.x), Signed(section.y), Signed(section.z);
    JoinFour("s", x, y, z);
    FourParts("s", x, y, z);
    JoinThree("c", Signed(chunk.x), Signed(chunk.z));
    FourParts("c", Signed(chunk.x), Signed(chunk.z), "");
  }

  /** Distinct sections have distinct keys. */
  lemma SectionKeyIsInjective(a: SectionId, b: SectionId)
    requires SectionKey(a) == SectionKey(b)
    ensures a == b
  {
    ParseSectionIsExact(SectionKey(a), a);
    ParseSectionIsExact(SectionKey(b), b);
  }

  // ---- which refusal a key gets

  /** The text is the shortest spelling of some number. */
  ghost predicate IsCanonicalNumber(raw: string) {
    exists n: int :: raw == Signed(n)
  }

  lemma CanonicalNumber(raw: string)
    ensures ParseDecimal(raw) == Err(EmptyComponent) <==> raw == ""
    ensures ParseDecimal(raw).Err? && IsCanonicalNumber(raw) ==> ParseDecimal(raw) == Err(CoordinateOutOfBounds)
    ensures raw != "" && !IsCanonicalNumber(raw) ==> ParseDecimal(raw) == Err(NonCanonicalCoordinate)
  {
    hide Decimal;
    hide DecimalValue;
    if n: int :| raw == Signed(n) {
      DecimalRoundTrip(Magnitude(n));
      UnsignedOfSigned(n);
      assert IsDigit(Decimal(Magnitude(n))[0]);
    }
    if raw != "" && ParseDecimal(raw) != Err(NonCanonicalCoordinate) {
      SpelledNumber(raw);
    }
  }

  lemma SpelledNumber(raw: string)
    requires raw != "" && ParseDecimal(raw) != Err(NonCanonicalCoordinate)
    ensures IsCanonicalNumber(raw)
  {
    hide Decimal;
    hide DecimalValue;
    var digits := Unsigned(raw);
    NumeralRoundTrip(digits);
    var value: int := DecimalValue(digits);
    if raw[0] == '-' {
      assert raw == "-" + digits && raw == Signed(-value);
    } else {
      assert raw == digits && raw == Signed(value);
    }
  }

  /**
   Which refusal a coordinate gets: an empty text, a number out of range in its shortest spelling of at most ten
   digits, and anything else that is refused, longer spellings included.
   */
  lemma CoordRefusals(raw: string)
    requires ParseCoord(raw).Err?
    ensures ParseCoord(raw).error ==
      if raw == "" then EmptyComponent
      else if IsCanonicalNumber(raw) && |Unsigned(raw)| <= 10 then CoordinateOutOfBounds
      else NonCanonicalCoordinate
  {
    hide ParseDecimal;
    hide IsCanonicalNumber;
    CanonicalNumber(raw);
  }

  /** Which refusal a layer gets: a number beyond 64 bits is out of bounds, another outside 0 to 15 no layer. */
  lemma LayerRefusals(raw: string)
    requires ParseLayer(raw).Err?
    ensures ParseLayer(raw).error ==
      if raw == "" then EmptyComponent
      else if !IsCanonicalNumber(raw) then NonCanonicalCoordinate
      else if ParseDecimal(raw).Ok? then SectionYOutOfRange else CoordinateOutOfBounds
  {
    CanonicalNumber(raw);
    if ParseDecimal(raw).Ok? {
      SpelledNumber(raw);
    }
    hide ParseDecimal;
    hide IsCanonicalNumber;
  }

  /**
   Which refusal a key gets, said of the segments it joins: the retired form, another prefix, the number of segments,
   then the first segment that is refused.
   */
  lemma KeyRefusals(parts: seq<string>)
    requires parts != [] && forall i :: 0 <= i < |parts| ==> !HasColon(parts[i])
    ensures ParseSection(Join(parts)).Err? ==>
      ParseSection(Join(parts)).error ==
      if parts[0] == "c" && |parts| == 4 then LegacyThreeCoordinateChunkKey
      else if parts[0] != "s" then WrongPrefix
      else if |parts| != 4 then WrongArity
      else if ParseCoord(parts[1]).Err? then ParseCoord(parts[1]).error
      else if ParseLayer(parts[2]).Err? then ParseLayer(parts[2]).error
      else if ParseCoord(parts[3]).Err? then ParseCoord(parts[3]).error
      else WrongArity
    ensures ParseChunk(Join(parts)).Err? ==>
      ParseChunk(Join(parts)).error ==
      if parts[0] != "c" then WrongPrefix
      else if |parts| == 4 then LegacyThreeCoordinateChunkKey
      else if |parts| != 3 then WrongArity
      else if ParseCoord(parts[1]).Err? then ParseCoord(parts[1]).error
      else if ParseCoord(parts[2]).Err? then ParseCoord(parts[2]).error
      else WrongArity
    ensures ParseSection(Join(parts)).Ok? <==>
      && parts[0] == "s" && |parts| == 4
      && ParseCoord(parts[1]).Ok? && ParseLayer(parts[2]).Ok? && ParseCoord(parts[3]).Ok?
  {
    hide Join;
    hide Split;
    hide ParseCoord;
    hide ParseLayer;
    SplitJoin(parts);
  }

  /** The retired `c:x:y:z` form is refused by name on both parsers, whatever its coordinates. */
  lemma LegacyKeyIsRefused(x: string, y: string, z: string)
    requires !HasColon(x) && !HasColon(y) && !HasColon(z)
    ensures ParseSection(Join(["c", x, y, z])) == Err(LegacyThreeCoordinateChunkKey)
    ensures ParseChunk(Join(["c", x, y, z])) == Err(LegacyThreeCoordinateChunkKey)
  {
    hide Join;
    hide Split;
    SplitJoin(["c", x, y, z]);
  }
}
