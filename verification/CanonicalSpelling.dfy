/** How a canonical text is spelled, said apart from the rules that print it. */
module CanonicalSpelling {
  import opened Wrappers
  import opened Text
  import opened Canonical

  // ---- strings

  /** Characters a canonical string shows as they are. */
  predicate IsPlain(c: char) {
    c as int >= 0x20 && c != '"' && c != '\\'
  }

  predicate AllPlain(raw: string) {
    forall i :: 0 <= i < |raw| ==> IsPlain(raw[i])
  }

  lemma {:induction false} PlainIsUnescaped(raw: string)
    requires AllPlain(raw)
    ensures Escaped(raw) == raw
  {
    if raw != [] {
      assert IsPlain(raw[0]);
      PlainIsUnescaped(raw[1..]);
      assert raw == [raw[0]] + raw[1..];
    }
  }

  /** A text without quotes, backslashes and control characters is quoted as itself. */
  lemma PlainTextIsItself(raw: string)
    requires AllPlain(raw)
    ensures Quoted(raw) == "\"" + raw + "\""
  {
    PlainIsUnescaped(raw);
  }

  /** A quote and a backslash get a backslash; a control character is `\u00` and two lower-case digits. */
  lemma SpecialCharacters(c: char)
    requires !IsPlain(c)
    ensures c == '"' || c == '\\' ==> Quoted([c]) == "\"\\" + [c] + "\""
    ensures c as int < 0x20 ==> exists hi, lo ::
      && hi in "01" && lo in "0123456789abcdef" && 16 * HexValue(hi) + HexValue(lo) == c as int
      && Quoted([c]) == "\"\\u00" + [hi, lo] + "\""
  {
    assert [c][1..] == [] && Escaped([c]) == EscapedChar(c);
    if c as int < 0x20 {
      var hi, lo := HexDigit(c as int / 16), HexDigit(c as int % 16);
      assert hi in "01" && lo in "0123456789abcdef";
      assert EscapedChar(c) == "\\u00" + [hi, lo];
    }
  }

  /** Characters are spelled one by one. */
  lemma {:induction false} EscapedOfTwo(a: string, b: string)
    ensures Escaped(a + b) == Escaped(a) + Escaped(b)
  {
    hide EscapedChar;
    if a == [] {
      assert a + b == b;
    } else {
      assert (a + b)[0] == a[0] && (a + b)[1..] == a[1..] + b;
      EscapedOfTwo(a[1..], b);
    }
  }

  // ---- no spelling is shorter

  /** Equal but for the case of hexadecimal letters, which the second text has in lower case. */
  predicate Folds(a: string, b: string) {
    && |a| == |b|
    && forall i :: 0 <= i < |a| ==> a[i] == b[i] || ('A' <= a[i] <= 'F' && b[i] as int == a[i] as int + 32)
  }

  lemma FoldsAppend(a: string, b: string, c: string, d: string)
    requires Folds(a, b) && Folds(c, d)
    ensures Folds(a + c, b + d)
  {
  }

  lemma LowerDigit(c: char)
    requires IsHexDigit(c)
    ensures Folds([c], [HexDigit(HexValue(c))])
  {
  }

  /** What an escape consumes is at least the canonical spelling, and is that spelling when it is no longer. */
  lemma EscapeIsNoShorter(t: string)
    requires ParseEscape(t).Parsed?
    ensures var c, rest := ParseEscape(t).value, ParseEscape(t).rest;
      && |EscapedChar(c)| + |rest| <= 1 + |t|
      && t[|t| - |rest|..] == rest
      && (|EscapedChar(c)| + |rest| == 1 + |t| ==> Folds("\\" + t[..|t| - |rest|], EscapedChar(c)))
  {
    var c, rest := ParseEscape(t).value, ParseEscape(t).rest;
    if t[0] == 'u' && |EscapedChar(c)| == 6 {
      ControlEscape(t);
    }
  }

  lemma ControlEscape(t: string)
    requires ParseEscape(t).Parsed? && t[0] == 'u' && ParseEscape(t).value as int < 0x20
    ensures Folds("\\" + t[..5], EscapedChar(ParseEscape(t).value))
  {
    var c := ParseEscape(t).value;
    assert HexValue(t[1]) == 0 && HexValue(t[2]) == 0;
    assert t[1] == '0' && t[2] == '0';
    LowerDigit(t[3]);
    LowerDigit(t[4]);
    assert c as int == 16 * HexValue(t[3]) + HexValue(t[4]);
    assert c as int / 16 == HexValue(t[3]) && c as int % 16 == HexValue(t[4]);
    assert "\\" + t[..5] == ['\\', t[0], t[1], t[2], t[3], t[4]];
    assert [HexDigit(HexValue(t[3]))][0] == HexDigit(HexValue(t[3]));
    assert [HexDigit(HexValue(t[4]))][0] == HexDigit(HexValue(t[4]));
    assert [t[3]][0] == t[3] && [t[4]][0] == t[4];
  }

  /** The spelling still to come, as read from the text and as the encoder would write it. */
  predicate NoShorter(s: string, out: string, raw: string, rest: string) {
    && |out| <= |raw| && raw[..|out|] == out
    && |rest| <= |s| && s[|s| - |rest|..] == rest
    && |Escaped(raw[|out|..])| + 1 + |rest| <= |s|
    && (|Escaped(raw[|out|..])| + 1 + |rest| == |s| ==>
          Folds(s[..|s| - |rest|], Escaped(raw[|out|..]) + "\""))
  }

  /** One character spelled by the first `n` characters of the text, then the others. */
  lemma OneMore(s: string, n: nat, c: char, out: string, raw: string, rest: string)
    requires n <= |s| && NoShorter(s[n..], out + [c], raw, rest)
    requires |EscapedChar(c)| <= n && (|EscapedChar(c)| == n ==> Folds(s[..n], EscapedChar(c)))
    ensures NoShorter(s, out, raw, rest)
  {
    hide EscapedChar;
    var tail := s[n..];
    assert raw[..|out|] == out by { assert raw[..|out| + 1][..|out|] == (out + [c])[..|out|]; }
    assert raw[|out|] == c by { assert raw[..|out| + 1][|out|] == (out + [c])[|out|]; }
    assert raw[|out|..][1..] == raw[|out + [c]|..];
    assert s[|s| - |rest|..] == tail[|tail| - |rest|..];
    if |Escaped(raw[|out|..])| + 1 + |rest| == |s| {
      FoldsAppend(s[..n], EscapedChar(c), tail[..|tail| - |rest|], Escaped(raw[|out + [c]|..]) + "\"");
      assert s[..|s| - |rest|] == s[..n] + tail[..|tail| - |rest|];
      assert Escaped(raw[|out|..]) + "\"" == EscapedChar(c) + (Escaped(raw[|out + [c]|..]) + "\"");
    }
  }

  lemma {:induction false} TailIsNoShorter(s: string, out: string)
    requires ParseStringTail(s, out).Parsed?
    ensures NoShorter(s, out, ParseStringTail(s, out).value, ParseStringTail(s, out).rest)
    decreases |s|
  {
    hide ParseEscape;
    hide NoShorter;
    var raw, rest := ParseStringTail(s, out).value, ParseStringTail(s, out).rest;
    if s[0] == '"' {
      NothingLeft(s, out);
    } else if s[0] == '\\' {
      var c, after := ParseEscape(s[1..]).value, ParseEscape(s[1..]).rest;
      EscapeIsNoShorter(s[1..]);
      TailIsNoShorter(after, out + [c]);
      assert s[|s| - |after|..] == s[1..][|s| - 1 - |after|..];
      assert s[..|s| - |after|] == "\\" + s[1..][..|s| - 1 - |after|];
      OneMore(s, |s| - |after|, c, out, raw, rest);
    } else {
      TailIsNoShorter(s[1..], out + [s[0]]);
      assert Folds(s[..1], [s[0]]);
      OneMore(s, 1, s[0], out, raw, rest);
    }
  }

  lemma NothingLeft(s: string, out: string)
    requires s != [] && s[0] == '"'
    ensures NoShorter(s, out, out, s[1..])
  {
    assert s[..1] == "\"";
  }

  /**
   The canonical spelling is minimal: whatever text the parser reads as a string is at least as long, and one that
   is no longer is the canonical spelling up to the case of its hexadecimal letters.
   */
  lemma CanonicalSpellingIsMinimal(s: string, raw: string, rest: string)
    requires ParseString(s + rest) == Parsed(raw, rest)
    ensures |Quoted(raw)| <= |s|
    ensures |Quoted(raw)| == |s| ==> Folds(s, Quoted(raw))
  {
    hide EscapedChar;
    var t := s + rest;
    TailIsNoShorter(t[1..], "");
    assert raw[|""|..] == raw;
    assert t[1..][..|t[1..]| - |rest|] == s[1..] by { assert |s| > 0; }
    if |Quoted(raw)| == |s| {
      FoldsAppend("\"", "\"", s[1..], Escaped(raw) + "\"");
      assert s == "\"" + s[1..] && Quoted(raw) == "\"" + (Escaped(raw) + "\"");
    }
  }

  // ---- which texts are read as a string or a number

  /** The number of four hexadecimal digits, either case. */
  function FourDigits(t: string): nat
    requires |t| == 4 && forall i :: 0 <= i < 4 ==> IsHexDigit(t[i])
  {
    0x1000 * HexValue(t[0]) + 0x100 * HexValue(t[1]) + 0x10 * HexValue(t[2]) + HexValue(t[3])
  }

  /** A way to write one character: itself, behind a backslash, or by its four digits unless these are a surrogate. */
  predicate SpellsChar(t: string, c: char) {
    || (t == [c] && IsPlain(c))
    || (t == "\\" + [c] && (c == '"' || c == '\\'))
    || (&& |t| == 6 && t[..2] == "\\u" && (forall i :: 2 <= i < 6 ==> IsHexDigit(t[i]))
        && FourDigits(t[2..]) == c as int && !(0xD800 <= FourDigits(t[2..]) <= 0xDFFF))
  }

  predicate Spells(t: string, raw: string)
    decreases |raw|
  {
    if raw == [] then t == []
    else exists n :: 0 < n <= |t| && SpellsChar(t[..n], raw[0]) && Spells(t[n..], raw[1..])
  }

  lemma OneCharacterIsRead(t: string, c: char, rest: string, out: string)
    requires SpellsChar(t, c)
    ensures ParseStringTail(t + rest, out) == ParseStringTail(rest, out + [c])
  {
    var s := t + rest;
    if |t| == 1 {
      assert s[1..] == rest;
    } else if |t| == 2 {
      assert s[1..][0] == c && s[1..][1..] == rest;
    } else {
      var e := s[1..];
      assert t[0] == t[..2][0] && t[1] == t[..2][1];
      assert e[0] == 'u' && e[1] == t[2] && e[2] == t[3] && e[3] == t[4] && e[4] == t[5] && e[5..] == rest;
      var four := t[2..];
      assert four[0] == t[2] && four[1] == t[3] && four[2] == t[4] && four[3] == t[5];
    }
  }

  lemma {:induction false} SpellingIsRead(t: string, raw: string, rest: string, out: string)
    requires Spells(t, raw)
    ensures ParseStringTail(t + "\"" + rest, out) == Parsed(out + raw, rest)
    decreases |raw|
  {
    hide SpellsChar;
    if raw == [] {
      assert t + "\"" + rest == "\"" + rest && ("\"" + rest)[1..] == rest && out + raw == out;
    } else {
      hide ParseStringTail;
      var n :| 0 < n <= |t| && SpellsChar(t[..n], raw[0]) && Spells(t[n..], raw[1..]);
      var tail := t[n..] + "\"" + rest;
      assert t + "\"" + rest == t[..n] + tail;
      OneCharacterIsRead(t[..n], raw[0], tail, out);
      SpellingIsRead(t[n..], raw[1..], rest, out + [raw[0]]);
      assert out + [raw[0]] + raw[1..] == out + raw;
    }
  }

  lemma EscapeSpells(s: string)
    requires s != [] && s[0] == '\\' && ParseEscape(s[1..]).Parsed?
    ensures var c, rest := ParseEscape(s[1..]).value, ParseEscape(s[1..]).rest;
      |rest| < |s| && s[|s| - |rest|..] == rest && SpellsChar(s[..|s| - |rest|], c)
  {
    var e := s[1..];
    var c, rest := ParseEscape(e).value, ParseEscape(e).rest;
    if e[0] == 'u' {
      var t := s[..6];
      assert t[..2] == "\\u" && t[2] == e[1] && t[3] == e[2] && t[4] == e[3] && t[5] == e[4];
      var four := t[2..];
      assert four[0] == t[2] && four[1] == t[3] && four[2] == t[4] && four[3] == t[5];
    } else {
      assert s[..2] == "\\" + [c];
    }
  }

  /** What is read first is one spelled character. */
  lemma FirstPiece(s: string, out: string) returns (n: nat, c: char)
    requires ParseStringTail(s, out).Parsed? && s[0] != '"'
    ensures 0 < n <= |s| && SpellsChar(s[..n], c)
    ensures ParseStringTail(s, out) == ParseStringTail(s[n..], out + [c])
  {
    hide SpellsChar;
    hide ParseEscape;
    n, c := 1, s[0];
    if s[0] == '\\' {
      EscapeSpells(s);
      n, c := |s| - |ParseEscape(s[1..]).rest|, ParseEscape(s[1..]).value;
    } else {
      PlainSpellsItself(s);
    }
  }

  lemma SpellsOneMore(piece: string, c: char, more: string, others: string)
    requires piece != [] && SpellsChar(piece, c) && Spells(more, others)
    ensures Spells(piece + more, [c] + others)
  {
    hide SpellsChar;
    var t, raw := piece + more, [c] + others;
    assert t[..|piece|] == piece && t[|piece|..] == more && raw[1..] == others;
  }

  lemma JoinBehind(a: string, b: string, c: string, d: string)
    ensures a + (b + c + d) == (a + b) + c + d
    ensures a + b + c == a + (b + c)
  {
  }

  lemma {:induction false} ReadIsSpelled(s: string, out: string) returns (t: string, raw: string)
    requires ParseStringTail(s, out).Parsed?
    ensures Spells(t, raw) && s == t + "\"" + ParseStringTail(s, out).rest
    ensures ParseStringTail(s, out).value == out + raw
    decreases |s|
  {
    if s[0] == '"' {
      t, raw := [], [];
      assert out + raw == out && s == t + "\"" + s[1..];
    } else {
      hide SpellsChar;
      hide Spells;
      var n, c := FirstPiece(s, out);
      hide ParseStringTail;
      var more, others := ReadIsSpelled(s[n..], out + [c]);
      SpellsOneMore(s[..n], c, more, others);
      t, raw := s[..n] + more, [c] + others;
      JoinBehind(s[..n], more, "\"", ParseStringTail(s, out).rest);
      assert s == s[..n] + s[n..];
      JoinBehind(out, [c], others, "");
    }
  }

  lemma PlainSpellsItself(s: string)
    requires s != [] && IsPlain(s[0])
    ensures SpellsChar(s[..1], s[0])
  {
    assert s[..1] == [s[0]];
  }

  predicate QuotesFirst(s: string, t: string, rest: string) {
    s == "\"" + (t + "\"" + rest)
  }

  /** A text is read as a string exactly when it is a spelling of that string in quotes. */
  lemma StringGrammarIsExact(s: string, raw: string, rest: string)
    ensures ParseString(s) == Parsed(raw, rest) <==> exists t :: Spells(t, raw) && QuotesFirst(s, t, rest)
  {
    hide Spells;
    if ParseString(s) == Parsed(raw, rest) {
      var t, read := ReadIsSpelled(s[1..], "");
      assert "" + read == read && QuotesFirst(s, t, rest);
    }
    if t :| Spells(t, raw) && QuotesFirst(s, t, rest) {
      assert s[1..] == t + "\"" + rest;
      SpellingIsRead(t, raw, rest, "");
      assert "" + raw == raw;
    }
  }

  /** A text is read as a number exactly when it starts with the shortest decimal of it and goes on without a digit. */
  lemma NumberGrammarIsExact(s: string, n: U64, rest: string)
    ensures ParseUint(s) == Parsed(n, rest) <==> s == Decimal(n) + rest && (rest != [] ==> !IsDigit(rest[0]))
  {
    if s == Decimal(n) + rest && (rest != [] ==> !IsDigit(rest[0])) {
      ParseDecimal(n, rest);
    }
    if ParseUint(s) == Parsed(n, rest) {
      hide Decimal;
      hide DecimalValue;
      var run := DigitRun(s);
      NumeralRoundTrip(s[..run]);
      assert s == s[..run] + s[run..];
    }
  }

  // ---- arrays and objects

  /** Parts with a comma between neighbours. */
  function Listing(parts: seq<string>): string {
    if parts == [] then ""
    else if |parts| == 1 then parts[0]
    else parts[0] + "," + Listing(parts[1..])
  }

  function QuotedItems(items: seq<string>): seq<string> {
    seq(|items|, i requires 0 <= i < |items| => Quoted(items[i]))
  }

  function MemberTexts(names: seq<string>, members: Members): seq<string>
    requires forall k :: k in names ==> k in members
  {
    seq(|names|, i requires 0 <= i < |names| => Quoted(names[i]) + ":" + EncodedValue(members[names[i]]))
  }

  lemma ListingFirst(parts: seq<string>)
    requires parts != []
    ensures Listing(parts) == parts[0] + if |parts| == 1 then "" else "," + Listing(parts[1..])
  {
  }

  lemma {:induction false} ItemsTailIsListing(items: seq<string>)
    requires items != []
    ensures ItemsTail(items) == "," + Listing(QuotedItems(items)) + "]"
  {
    hide Quoted;
    var parts := QuotedItems(items);
    assert parts[1..] == QuotedItems(items[1..]);
    ListingFirst(parts);
    hide Listing;
    if |items| == 1 {
      assert ItemsTail(items[1..]) == "]";
    } else {
      ItemsTailIsListing(items[1..]);
    }
    hide QuotedItems;
  }

  /** An array is its quoted items, comma-separated, in brackets. */
  lemma ItemsAreListed(items: seq<string>)
    ensures ItemsText(items) == "[" + Listing(QuotedItems(items)) + "]"
  {
    hide Quoted;
    if items != [] {
      ItemsTailIsListing(items);
      assert ItemsTail(items)[1..] == Listing(QuotedItems(items)) + "]";
    }
  }

  lemma {:induction false} MembersTailIsListing(names: seq<string>, members: Members)
    requires names != [] && forall k :: k in names ==> k in members
    ensures MembersTail(names, members) == "," + Listing(MemberTexts(names, members)) + "}"
  {
    hide Quoted;
    hide EncodedValue;
    var parts := MemberTexts(names, members);
    assert parts[1..] == MemberTexts(names[1..], members);
    assert EncodedMember(names[0], members[names[0]]) == parts[0];
    hide EncodedMember;
    ListingFirst(parts);
    hide Listing;
    if |names| == 1 {
      assert MembersTail(names[1..], members) == "}";
    } else {
      MembersTailIsListing(names[1..], members);
    }
    hide MemberTexts;
  }

  lemma MembersAreListed(names: seq<string>, members: Members)
    requires forall k :: k in names ==> k in members
    ensures MembersText(names, members) == "{" + Listing(MemberTexts(names, members)) + "}"
  {
    hide Quoted;
    hide EncodedMember;
    if names != [] {
      MembersTailIsListing(names, members);
      assert MembersTail(names, members)[1..] == Listing(MemberTexts(names, members)) + "}";
    }
  }

  /**
   An object is its members, comma-separated, in braces: each name once, quoted, with a colon and its value, and
   the names ascending in code-point order.
   */
  lemma ObjectsAreListed(members: Members) returns (names: seq<string>)
    ensures forall k :: k in names <==> k in members
    ensures forall i, j :: 0 <= i < j < |names| ==> InCodePointOrder(names[i], names[j])
    ensures Encode(members) == "{" + Listing(MemberTexts(names, members)) + "}"
  {
    hide MemberTexts;
    hide Listing;
    hide MembersText;
    hide InCodePointOrder;
    hide Before;
    names := SortedNames(members.Keys);
    MembersAreListed(names, members);
    hide SortedNames;
    forall i, j | 0 <= i < j < |names| ensures InCodePointOrder(names[i], names[j]) {
      BeforeIsLexicographic(names[i], names[j]);
    }
  }

  /** Values: a quoted text, the shortest decimal of a number, or the listed items of an array. */
  lemma ValuesAreWritten(v: CanonicalValue)
    ensures v.Text? ==> EncodedValue(v) == Quoted(v.text)
    ensures v.Uint? ==> IsMinimalDecimal(EncodedValue(v)) && DecimalValue(EncodedValue(v)) == v.n
    ensures v.TextArray? ==> EncodedValue(v) == "[" + Listing(QuotedItems(v.items)) + "]"
  {
    hide Quoted;
    match v
    case Text(_) =>
    case Uint(n) => DecimalRoundTrip(n);
    case TextArray(items) => ItemsAreListed(items);
  }

  // ---- a repeated member is refused as such

  lemma RepeatedMember(key: string, v: CanonicalValue, tail: string, before: Members)
    requires key in before && tail != [] && (tail[0] == ',' || tail[0] == '}')
    ensures ParseMembers(EncodedMember(key, v) + tail, before) == Failed(DuplicateMember)
  {
    hide Quoted;
    hide EncodedValue;
    hide ParseString;
    hide ParseValue;
    var afterKey := ":" + (EncodedValue(v) + tail);
    assert EncodedMember(key, v) + tail == Quoted(key) + afterKey;
    ParseQuoted(key, afterKey);
    assert afterKey[1..] == EncodedValue(v) + tail;
    ParseEncodedValue(v, tail);
  }

  lemma TailStarts(names: seq<string>, members: Members)
    requires forall k :: k in names ==> k in members
    ensures var tail := MembersTail(names, members);
      tail != [] && (tail[0] == ',' || tail[0] == '}')
  {
    hide EncodedMember;
  }

  lemma {:induction false} RepeatedInTail(names: seq<string>, members: Members, before: Members)
    requires names != [] && forall k :: k in names ==> k in members
    requires !NoRepeats(names) || exists i :: 0 <= i < |names| && names[i] in before
    ensures ParseMembers(EncodedMember(names[0], members[names[0]]) + MembersTail(names[1..], members), before)
         == Failed(DuplicateMember)
    decreases |names|
  {
    var key, v, more := names[0], members[names[0]], names[1..];
    TailStarts(more, members);
    hide EncodedMember;
    hide ParseMembers;
    if key in before {
      RepeatedMember(key, v, MembersTail(more, members), before);
    } else {
      ParseOneMember(key, v, MembersTail(more, members), before);
      RepeatGoesOn(names, before, v);
      var tail := MembersTail(more, members);
      assert tail[1..] == EncodedMember(more[0], members[more[0]]) + MembersTail(more[1..], members);
      RepeatedInTail(more, members, before[key := v]);
    }
  }

  lemma RepeatGoesOn(names: seq<string>, before: Members, v: CanonicalValue)
    requires names != [] && names[0] !in before
    requires !NoRepeats(names) || exists i :: 0 <= i < |names| && names[i] in before
    ensures var more := names[1..];
      more != [] && (!NoRepeats(more) || exists i :: 0 <= i < |more| && more[i] in before[names[0] := v])
  {
    var more := names[1..];
    if !NoRepeats(names) {
      var i, j :| 0 <= i < j < |names| && names[i] == names[j];
      if i == 0 {
        assert more[j - 1] == names[0];
      } else {
        assert more[i - 1] == more[j - 1];
      }
    } else {
      var i :| 0 <= i < |names| && names[i] in before;
      assert more[i - 1] == names[i];
    }
  }

  /** Members listed with a repeated name, in any order, are refused as a duplicate, never merged or overwritten. */
  lemma RepeatedMembersAreNamed(names: seq<string>, members: Members)
    requires !NoRepeats(names) && forall k :: k in names ==> k in members
    ensures Decode(MembersText(names, members)) == Err(DuplicateMember)
  {
    hide EncodedMember;
    hide ParseMembers;
    var tail := MembersTail(names[1..], members);
    StartsWithQuote(names[0], members[names[0]], tail);
    RepeatedInTail(names, members, map[]);
    hide NoRepeats;
  }
}
