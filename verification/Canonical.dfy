/**
 Canonical object texts: how they are printed, what the parser makes of a text, and that the two undo each other.

 The parser class follows the source's cursor over an immutable text. Each of its methods is
 proved to compute the same thing as a grammar function over the remaining text; what the format
 promises is then proved about those functions.
 */
module Canonical {
  import opened Wrappers
  import opened Text

  datatype CanonicalValue =
    | Text(text: string)
    | Uint(n: U64)
    | TextArray(items: seq<string>)

  type Members = map<string, CanonicalValue>

  datatype DecodeError = Malformed | DuplicateMember | NotCanonical

  // ---- the encoder, as functions

  function HexDigit(d: nat): (c: char)
    requires d < 16
    ensures IsHexDigit(c) && HexValue(c) == d
  {
    "0123456789abcdef"[d]
  }

  predicate IsHexDigit(c: char) {
    '0' <= c <= '9' || 'a' <= c <= 'f' || 'A' <= c <= 'F'
  }

  function HexValue(c: char): (d: nat)
    requires IsHexDigit(c)
    ensures d < 16
  {
    if c <= '9' then c as int - '0' as int
    else if c <= 'F' then c as int - 'A' as int + 10
    else c as int - 'a' as int + 10
  }

  function EscapedChar(c: char): string {
    if c == '"' then "\\\""
    else if c == '\\' then "\\\\"
    else if c as int < 0x20 then ['\\', 'u', '0', '0', HexDigit(c as int / 16), HexDigit(c as int % 16)]
    else [c]
  }

  function Escaped(raw: string): string {
    if raw == [] then [] else EscapedChar(raw[0]) + Escaped(raw[1..])
  }

  function Quoted(raw: string): string {
    "\"" + Escaped(raw) + "\""
  }

  /** Array items after the first, each with its separator, then the closing bracket. */
  function ItemsTail(items: seq<string>): string {
    if items == [] then "]" else "," + (Quoted(items[0]) + ItemsTail(items[1..]))
  }

  function ItemsText(items: seq<string>): string {
    if items == [] then "[]" else "[" + (Quoted(items[0]) + ItemsTail(items[1..]))
  }

  function EncodedValue(v: CanonicalValue): string {
    match v
    case Text(text) => Quoted(text)
    case Uint(n) => Decimal(n)
    case TextArray(items) => ItemsText(items)
  }

  function EncodedMember(key: string, v: CanonicalValue): string {
    Quoted(key) + (":" + EncodedValue(v))
  }

  /** Members after the first, each with its separator, then the closing brace. */
  function MembersTail(names: seq<string>, members: Members): string
    requires forall k :: k in names ==> k in members
  {
    if names == [] then "}"
    else "," + (EncodedMember(names[0], members[names[0]]) + MembersTail(names[1..], members))
  }

  /** The members listed in the order `names`. */
  function MembersText(names: seq<string>, members: Members): string
    requires forall k :: k in names ==> k in members
  {
    if names == [] then "{}"
    else "{" + (EncodedMember(names[0], members[names[0]]) + MembersTail(names[1..], members))
  }

  /** Canonical text of an object: members ascending by name. */
  function Encode(members: Members): string {
    MembersText(SortedNames(members.Keys), members)
  }

  // ---- the grammar, as functions of the remaining text

  datatype Parsed<T> = Parsed(value: T, rest: string) | Failed(error: DecodeError)

  function ParseEscape(s: string): (r: Parsed<char>)
    ensures r.Parsed? ==> |r.rest| < |s|
  {
    if s == [] then Failed(Malformed)
    else if s[0] == '"' || s[0] == '\\' then Parsed(s[0], s[1..])
    else if s[0] == 'u' then
      if |s| < 5 || !IsHexDigit(s[1]) || !IsHexDigit(s[2]) || !IsHexDigit(s[3]) || !IsHexDigit(s[4])
      then Failed(Malformed)
      else
        var code := 0x1000 * HexValue(s[1]) + 0x100 * HexValue(s[2]) + 0x10 * HexValue(s[3]) + HexValue(s[4]);
        if 0xD800 <= code <= 0xDFFF then Failed(Malformed) else Parsed(code as char, s[5..])
    else Failed(Malformed)
  }

  /** The body of a string after its opening quote; `out` holds the scalars read so far. */
  function ParseStringTail(s: string, out: string): (r: Parsed<string>)
    ensures r.Parsed? ==> |r.rest| < |s|
    decreases |s|
  {
    if s == [] then Failed(Malformed)
    else if s[0] == '"' then Parsed(out, s[1..])
    else if s[0] == '\\' then
      match ParseEscape(s[1..])
      case Failed(e) => Failed(e)
      case Parsed(c, rest) => ParseStringTail(rest, out + [c])
    else if s[0] as int < 0x20 then Failed(Malformed)
    else ParseStringTail(s[1..], out + [s[0]])
  }

  function ParseString(s: string): (r: Parsed<string>)
    ensures r.Parsed? ==> |r.rest| < |s|
  {
    if s == [] || s[0] != '"' then Failed(Malformed) else ParseStringTail(s[1..], "")
  }

  /** Number of leading digits. */
  function DigitRun(s: string): (k: nat)
    ensures k <= |s| && AllDigits(s[..k])
    ensures k < |s| ==> !IsDigit(s[k])
  {
    if s == [] || !IsDigit(s[0]) then 0
    else
      var k := DigitRun(s[1..]);
      assert s[..1 + k] == [s[0]] + s[1..][..k];
      1 + k
  }

  function ParseUint(s: string): (r: Parsed<U64>)
    ensures r.Parsed? ==> |r.rest| < |s|
  {
    var digits := s[..DigitRun(s)];
    if !IsMinimalDecimal(digits) || DecimalValue(digits) >= U64_LIMIT then Failed(Malformed)
    else Parsed(DecimalValue(digits), s[DigitRun(s)..])
  }

  function ParseItems(s: string, items: seq<string>): (r: Parsed<CanonicalValue>)
    ensures r.Parsed? ==> |r.rest| < |s|
    decreases |s|
  {
    match ParseString(s)
    case Failed(e) => Failed(e)
    case Parsed(item, rest) =>
      if rest == [] then Failed(Malformed)
      else if rest[0] == ',' then ParseItems(rest[1..], items + [item])
      else if rest[0] == ']' then Parsed(TextArray(items + [item]), rest[1..])
      else Failed(Malformed)
  }

  function ParseArray(s: string): (r: Parsed<CanonicalValue>)
    ensures r.Parsed? ==> |r.rest| < |s|
  {
    if s == [] || s[0] != '[' then Failed(Malformed)
    else if |s| > 1 && s[1] == ']' then Parsed(TextArray([]), s[2..])
    else ParseItems(s[1..], [])
  }

  function ParseValue(s: string): (r: Parsed<CanonicalValue>)
    ensures r.Parsed? ==> |r.rest| < |s|
  {
    if s == [] then Failed(Malformed)
    else if s[0] == '"' then
      match ParseString(s) case Failed(e) => Failed(e) case Parsed(t, rest) => Parsed(Text(t), rest)
    else if s[0] == '[' then ParseArray(s)
    else if IsDigit(s[0]) then
      match ParseUint(s) case Failed(e) => Failed(e) case Parsed(n, rest) => Parsed(Uint(n), rest)
    else Failed(Malformed)
  }

  /** Members after an opening brace or a comma; `members` holds those read so far. */
  function ParseMembers(s: string, members: Members): (r: Parsed<Members>)
    ensures r.Parsed? ==> |r.rest| < |s|
    decreases |s|
  {
    match ParseString(s)
    case Failed(e) => Failed(e)
    case Parsed(key, afterKey) =>
      if afterKey == [] || afterKey[0] != ':' then Failed(Malformed) else
      match ParseValue(afterKey[1..])
      case Failed(e) => Failed(e)
      case Parsed(v, rest) =>
        if key in members then Failed(DuplicateMember)
        else if rest == [] then Failed(Malformed)
        else if rest[0] == ',' then ParseMembers(rest[1..], members[key := v])
        else if rest[0] == '}' then Parsed(members[key := v], rest[1..])
        else Failed(Malformed)
  }

  function ParseObject(s: string): (r: Parsed<Members>)
    ensures r.Parsed? ==> |r.rest| < |s|
  {
    if s == [] || s[0] != '{' then Failed(Malformed)
    else if |s| > 1 && s[1] == '}' then Parsed(map[], s[2..])
    else ParseMembers(s[1..], map[])
  }

  function WithNothingLeft(parsed: Parsed<Members>): Result<Members, DecodeError> {
    match parsed
    case Failed(e) => Err(e)
    case Parsed(members, rest) => if rest != [] then Err(Malformed) else Ok(members)
  }

  /** One object and nothing after it. */
  function Parse(s: string): Result<Members, DecodeError> {
    WithNothingLeft(ParseObject(s))
  }

  /** Parse, then require the canonical spelling of what was parsed. */
  function Decode(s: string): Result<Members, DecodeError> {
    var parsed := Parse(s);
    if parsed.Ok? && Encode(parsed.value) != s then Err(NotCanonical) else parsed
  }

  // ---- the parser accepts everything the encoder emits

  lemma ParseEscapedChar(c: char, rest: string, out: string)
    ensures ParseStringTail(EscapedChar(c) + rest, out) == ParseStringTail(rest, out + [c])
  {
    var e := EscapedChar(c);
    var s := e + rest;
    if |e| == 1 {
      assert s[1..] == rest;
    } else {
      assert s[1..] == e[1..] + rest;
      assert s[1..][|e| - 1..] == rest;
      if c != '"' && c != '\\' {
        assert s[1..][1] == '0' && s[1..][2] == '0';
        assert s[1..][3] == HexDigit(c as int / 16) && s[1..][4] == HexDigit(c as int % 16);
      }
    }
  }

  lemma {:induction false} ParseEscaped(raw: string, rest: string, out: string)
    ensures ParseStringTail(Escaped(raw) + "\"" + rest, out) == Parsed(out + raw, rest)
    decreases |raw|
  {
    hide EscapedChar;
    hide ParseEscape;
    var s := Escaped(raw) + "\"" + rest;
    if raw == [] {
      assert s == "\"" + rest && s[1..] == rest;
      assert out + raw == out;
    } else {
      hide ParseStringTail;
      var tail := Escaped(raw[1..]) + "\"" + rest;
      assert s == EscapedChar(raw[0]) + tail;
      ParseEscapedChar(raw[0], tail, out);
      ParseEscaped(raw[1..], rest, out + [raw[0]]);
      assert out + [raw[0]] + raw[1..] == out + raw;
    }
  }

  lemma ParseQuoted(raw: string, rest: string)
    ensures ParseString(Quoted(raw) + rest) == Parsed(raw, rest)
  {
    var s := Quoted(raw) + rest;
    assert s[1..] == Escaped(raw) + "\"" + rest;
    ParseEscaped(raw, rest, "");
    assert "" + raw == raw;
  }

  lemma {:induction false} DigitRunOfPrefix(digits: string, rest: string)
    requires AllDigits(digits)
    requires rest != [] ==> !IsDigit(rest[0])
    ensures DigitRun(digits + rest) == |digits|
  {
    if digits == [] {
      assert digits + rest == rest;
    } else {
      assert (digits + rest)[1..] == digits[1..] + rest;
      DigitRunOfPrefix(digits[1..], rest);
    }
  }

  lemma ParseDecimal(n: U64, rest: string)
    requires rest != [] ==> !IsDigit(rest[0])
    ensures ParseUint(Decimal(n) + rest) == Parsed(n, rest)
  {
    var s := Decimal(n) + rest;
    DecimalRoundTrip(n);
    DigitRunOfPrefix(Decimal(n), rest);
    assert s[..|Decimal(n)|] == Decimal(n) && s[|Decimal(n)|..] == rest;
  }

  /** Dropping the separator of a tail leaves the next element in front of the rest. */
  lemma DropSeparator(separator: string, element: string, tail: string, rest: string)
    requires |separator| == 1
    ensures (separator + (element + tail) + rest)[1..] == element + (tail + rest)
    ensures (separator + (element + tail) + rest)[0] == separator[0]
  {
  }

  lemma ParseOneItem(item: string, tail: string, before: seq<string>)
    requires tail != [] && (tail[0] == ',' || tail[0] == ']')
    ensures ParseItems(Quoted(item) + tail, before)
         == if tail[0] == ',' then ParseItems(tail[1..], before + [item])
            else Parsed(TextArray(before + [item]), tail[1..])
  {
    ParseQuoted(item, tail);
  }

  lemma {:induction false} ParseItemsText(item: string, more: seq<string>, rest: string, before: seq<string>)
    ensures ParseItems(Quoted(item) + (ItemsTail(more) + rest), before)
         == Parsed(TextArray(before + [item] + more), rest)
    decreases |more|
  {
    ParseOneItem(item, ItemsTail(more) + rest, before);
    if more == [] {
      assert (ItemsTail(more) + rest)[1..] == rest;
      assert before + [item] + more == before + [item];
    } else {
      DropSeparator(",", Quoted(more[0]), ItemsTail(more[1..]), rest);
      ParseItemsText(more[0], more[1..], rest, before + [item]);
      assert before + [item] + [more[0]] + more[1..] == before + [item] + more;
    }
  }

  lemma QuoteComesFirst(raw: string)
    ensures Quoted(raw) != [] && Quoted(raw)[0] == '"'
  {
  }

  lemma ParseArrayText(items: seq<string>, rest: string)
    ensures ParseArray(ItemsText(items) + rest) == Parsed(TextArray(items), rest)
  {
    hide Quoted;
    hide ParseItems;
    hide ItemsTail;
    var s := ItemsText(items) + rest;
    if items == [] {
      assert s[2..] == rest;
    } else {
      DropSeparator("[", Quoted(items[0]), ItemsTail(items[1..]), rest);
      QuoteComesFirst(items[0]);
      ParseItemsText(items[0], items[1..], rest, []);
      assert [] + [items[0]] + items[1..] == items;
    }
  }

  lemma ParseEncodedValue(v: CanonicalValue, rest: string)
    requires rest != [] ==> !IsDigit(rest[0])
    ensures ParseValue(EncodedValue(v) + rest) == Parsed(v, rest)
  {
    var s := EncodedValue(v) + rest;
    match v
    case Text(text) =>
      assert s[0] == '"';
      ParseQuoted(text, rest);
    case Uint(n) =>
      DecimalRoundTrip(n);
      assert s[0] == Decimal(n)[0];
      ParseDecimal(n, rest);
    case TextArray(items) =>
      assert s[0] == '[';
      ParseArrayText(items, rest);
  }

  function Listed(names: seq<string>, members: Members): Members
    requires forall k :: k in names ==> k in members
  {
    map k | k in names :: members[k]
  }

  /** One member, read in front of a tail that starts with a separator or the closing brace. */
  lemma ParseOneMember(key: string, v: CanonicalValue, tail: string, before: Members)
    requires key !in before
    requires tail != [] && (tail[0] == ',' || tail[0] == '}')
    ensures ParseMembers(EncodedMember(key, v) + tail, before)
         == if tail[0] == ',' then ParseMembers(tail[1..], before[key := v]) else Parsed(before[key := v], tail[1..])
  {
    hide Quoted;
    hide EncodedValue;
    hide ParseString;
    hide ParseValue;
    var afterKey := ":" + (EncodedValue(v) + tail);
    assert EncodedMember(key, v) + tail == Quoted(key) + afterKey;
    ParseQuoted(key, afterKey);
    assert afterKey[1..] == EncodedValue(v) + tail;
    ParseEncodedValue(v, tail);
  }

  /** Members listed in any duplicate-free order parse back to the members of those names. */
  lemma {:induction false} ParseMembersText(names: seq<string>, members: Members, rest: string, before: Members)
    requires names != []
    requires forall k :: k in names ==> k in members && k !in before
    requires NoRepeats(names)
    ensures ParseMembers(EncodedMember(names[0], members[names[0]]) + (MembersTail(names[1..], members) + rest), before)
         == Parsed(before + Listed(names, members), rest)
    decreases |names|
  {
    var key, v, more := names[0], members[names[0]], names[1..];
    ParseOneMember(key, v, MembersTail(more, members) + rest, before);
    if more == [] {
      assert (MembersTail(more, members) + rest)[1..] == rest;
      assert before[key := v] == before + Listed(names, members);
    } else {
      DropSeparator(",", EncodedMember(more[0], members[more[0]]), MembersTail(more[1..], members), rest);
      ParseMembersText(more, members, rest, before[key := v]);
      ListedStep(names, members, before);
    }
  }

  lemma ListedStep(names: seq<string>, members: Members, before: Members)
    requires names != []
    requires forall k :: k in names ==> k in members
    requires names[0] !in names[1..]
    ensures before[names[0] := members[names[0]]] + Listed(names[1..], members) == before + Listed(names, members)
  {
  }

  lemma StartsWithQuote(key: string, v: CanonicalValue, tail: string)
    ensures var s := "{" + (EncodedMember(key, v) + tail);
      s[1..] == EncodedMember(key, v) + tail && |s| > 1 && s[1] == '"'
  {
    assert EncodedMember(key, v)[0] == '"';
  }

  lemma ParseAnyOrder(names: seq<string>, members: Members)
    requires forall k :: k in names <==> k in members
    requires NoRepeats(names)
    ensures ParseObject(MembersText(names, members)) == Parsed(members, "")
  {
    hide EncodedMember;
    hide ParseMembers;
    var s := MembersText(names, members);
    if names == [] {
      assert members == map[];
    } else {
      var tail := MembersTail(names[1..], members);
      StartsWithQuote(names[0], members[names[0]], tail);
      assert tail + "" == tail;
      ParseMembersText(names, members, "", map[]);
      assert map[] + Listed(names, members) == members;
    }
  }

  lemma ParseEncoded(members: Members)
    ensures ParseObject(Encode(members)) == Parsed(members, "")
  {
    SortedNamesAreDistinct(members.Keys);
    ParseAnyOrder(SortedNames(members.Keys), members);
  }

  // ---- main results

  /** `decode` and `encode` are exact inverses, over every object and every text. */
  lemma DecodeIsExact(s: string, members: Members)
    ensures Decode(s) == Ok(members) <==> s == Encode(members)
  {
    ParseEncoded(members);
  }

  /** Distinct member sets encode to distinct texts. */
  lemma EncodeIsInjective(a: Members, b: Members)
    requires Encode(a) == Encode(b)
    ensures a == b
  {
    DecodeIsExact(Encode(a), a);
    DecodeIsExact(Encode(b), b);
  }

  /** Any duplicate-free member order parses, and every order but the canonical one is `NotCanonical`. */
  lemma ReorderedMembersAreRejected(names: seq<string>, members: Members)
    requires forall k :: k in names <==> k in members
    requires NoRepeats(names)
    ensures var s := MembersText(names, members);
      Decode(s) == if s == Encode(members) then Ok(members) else Err(NotCanonical)
  {
    ParseAnyOrder(names, members);
  }

  // ---- the object under construction and the encoder, as in the source

  class CanonicalObject {
    var members: Members

    constructor ()
      ensures members == map[]
    {
      members := map[];
    }

    /** A name already present is refused, never overwritten. */
    method Insert(key: string, value: CanonicalValue) returns (ok: bool)
      modifies this
      ensures ok == (key !in old(members))
      ensures members == if ok then old(members)[key := value] else old(members)
    {
      ok := key !in members;
      if ok {
        members := members[key := value];
      }
    }

    method EncodeText() returns (out: string)
      ensures out == Encode(members)
    {
      hide EncodedMember;
      hide MembersText;
      hide RemainingMembers;
      var entries := members;
      var names := SortedNames(entries.Keys);
      ghost var goal := Encode(entries);
      out := "{";
      hide SortedNames;
      RemainingStart(names, entries);
      for i := 0 to |names|
        invariant out + RemainingMembers(names, entries, i) == goal
      {
        ghost var before := out;
        if i > 0 {
          out := out + ",";
        }
        out := PushMember(out, names[i], entries[names[i]]);
        RemainingStep(before, names, entries, i);
      }
      RemainingEnd(names, entries);
      out := out + "}";
    }
  }

  method PushMember(before: string, key: string, value: CanonicalValue) returns (out: string)
    ensures out == before + EncodedMember(key, value)
  {
    var name := PushQuoted(key);
    var text := PushValue(value);
    out := before + name + ":" + text;
    Regroup(before, name, ":", text);
  }

  lemma RemainingStart(names: seq<string>, members: Members)
    requires forall k :: k in names ==> k in members
    ensures "{" + RemainingMembers(names, members, 0) == MembersText(names, members)
  {
    hide EncodedMember;
  }

  lemma RemainingEnd(names: seq<string>, members: Members)
    requires forall k :: k in names ==> k in members
    ensures RemainingMembers(names, members, |names|) == "}"
  {
    if names == [] {
      assert MembersText(names, members)[1..] == "}";
    }
  }

  lemma Regroup(a: string, b: string, c: string, d: string)
    ensures a + b + c + d == a + (b + (c + d))
  {
  }

  lemma NextMember(names: seq<string>, members: Members, i: nat)
    requires i < |names|
    requires forall k :: k in names ==> k in members
    ensures RemainingMembers(names, members, i)
         == (if i > 0 then "," else "")
          + (EncodedMember(names[i], members[names[i]]) + RemainingMembers(names, members, i + 1))
  {
    hide EncodedMember;
    var tail := names[i..];
    assert tail[0] == names[i] && tail[1..] == names[i + 1..];
  }

  lemma RemainingStep(out: string, names: seq<string>, members: Members, i: nat)
    requires i < |names|
    requires forall k :: k in names ==> k in members
    ensures out + RemainingMembers(names, members, i)
         == out + (if i > 0 then "," else "") + EncodedMember(names[i], members[names[i]])
          + RemainingMembers(names, members, i + 1)
  {
    hide EncodedMember;
    hide RemainingMembers;
    NextMember(names, members, i);
    Regroup(out, if i > 0 then "," else "", EncodedMember(names[i], members[names[i]]),
            RemainingMembers(names, members, i + 1));
  }

  /** What the encoder has still to append after `i` members. */
  ghost function RemainingMembers(names: seq<string>, members: Members, i: nat): string
    requires i <= |names|
    requires forall k :: k in names ==> k in members
  {
    if i == 0 then MembersText(names, members)[1..] else MembersTail(names[i..], members)
  }

  method PushQuoted(raw: string) returns (out: string)
    ensures out == Quoted(raw)
  {
    out := "\"";
    for i := 0 to |raw|
      invariant out + Escaped(raw[i..]) + "\"" == Quoted(raw)
    {
      assert raw[i..][1..] == raw[i + 1..];
      ghost var before := out;
      out := out + EscapedChar(raw[i]);
      assert out + Escaped(raw[i + 1..]) == before + Escaped(raw[i..]);
    }
    out := out + "\"";
  }

  method PushValue(value: CanonicalValue) returns (out: string)
    ensures out == EncodedValue(value)
  {
    match value
    case Text(text) =>
      out := PushQuoted(text);
    case Uint(n) =>
      out := Decimal(n);
    case TextArray(items) =>
      out := PushItems(items);
  }

  method PushItems(items: seq<string>) returns (out: string)
    ensures out == ItemsText(items)
  {
    hide Quoted;
    hide ItemsText;
    hide RemainingItems;
    ghost var goal := ItemsText(items);
    out := "[";
    RemainingItemsStart(items);
    for i := 0 to |items|
      invariant out + RemainingItems(items, i) == goal
    {
      ghost var before := out;
      if i > 0 {
        out := out + ",";
      }
      var item := PushQuoted(items[i]);
      out := out + item;
      RemainingItemsStep(before, items, i);
    }
    RemainingItemsEnd(items);
    out := out + "]";
  }

  /** What the encoder has still to append after `i` items. */
  ghost function RemainingItems(items: seq<string>, i: nat): string
    requires i <= |items|
  {
    if i == 0 then ItemsText(items)[1..] else ItemsTail(items[i..])
  }

  lemma NextItem(items: seq<string>, i: nat)
    requires i < |items|
    ensures RemainingItems(items, i)
         == (if i > 0 then "," else "") + (Quoted(items[i]) + RemainingItems(items, i + 1))
  {
    hide Quoted;
    var tail := items[i..];
    assert tail[0] == items[i] && tail[1..] == items[i + 1..];
  }

  lemma RemainingItemsStep(out: string, items: seq<string>, i: nat)
    requires i < |items|
    ensures out + RemainingItems(items, i)
         == out + (if i > 0 then "," else "") + Quoted(items[i]) + RemainingItems(items, i + 1)
  {
    hide Quoted;
    hide RemainingItems;
    NextItem(items, i);
    Regroup(out, if i > 0 then "," else "", Quoted(items[i]), RemainingItems(items, i + 1));
  }

  lemma RemainingItemsStart(items: seq<string>)
    ensures "[" + RemainingItems(items, 0) == ItemsText(items)
  {
    hide Quoted;
  }

  lemma RemainingItemsEnd(items: seq<string>)
    ensures RemainingItems(items, |items|) == "]"
  {
    if items == [] {
      assert ItemsText(items)[1..] == "]";
    }
  }
}
