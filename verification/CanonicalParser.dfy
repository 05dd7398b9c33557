/** The cursor parser of the canonical form, proved to compute the grammar functions. */
module CanonicalParser {
  import opened Wrappers
  import opened Text
  import opened Canonical

  /** An answer of the cursor parser agrees with the grammar on the text that was left. */
  ghost predicate Agrees<T>(expected: Parsed<T>, actual: Result<T, DecodeError>, rest: string) {
    match actual
    case Ok(value) => expected == Parsed(value, rest)
    case Err(error) => expected == Failed(error)
  }

  class Parser {
    const text: string
    var at: nat

    ghost predicate Valid()
      reads this
    {
      at <= |text|
    }

    ghost function Rest(): string
      requires Valid()
      reads this
    {
      text[at..]
    }

    constructor (text: string)
      ensures Valid() && this.text == text && Rest() == text
    {
      this.text := text;
      at := 0;
    }

    method Peek() returns (c: Option<char>)
      requires Valid()
      ensures c == if Rest() == [] then None else Some(Rest()[0])
    {
      c := if at < |text| then Some(text[at]) else None;
    }

    /** Consume one given character, or stay put. */
    method Eat(c: char) returns (ok: bool)
      requires Valid()
      modifies this`at
      ensures Valid()
      ensures ok == (old(Rest()) != [] && old(Rest())[0] == c)
      ensures Rest() == if ok then old(Rest())[1..] else old(Rest())
    {
      var next := Peek();
      ok := next == Some(c);
      if ok {
        at := at + 1;
      }
    }

    method ReadEscape() returns (r: Result<char, DecodeError>)
      requires Valid()
      modifies this`at
      ensures Valid() && Agrees(ParseEscape(old(Rest())), r, Rest())
    {
      var next := Peek();
      if next.None? {
        return Err(Malformed);
      }
      if next.value == '"' || next.value == '\\' {
        at := at + 1;
        return Ok(next.value);
      }
      if next.value != 'u' {
        return Err(Malformed);
      }
      at := at + 1;
      if at + 4 > |text| {
        return Err(Malformed);
      }
      var hex := text[at..at + 4];
      ghost var start := old(Rest());
      assert hex[0] == start[1] && hex[1] == start[2] && hex[2] == start[3] && hex[3] == start[4];
      if !(forall i :: 0 <= i < 4 ==> IsHexDigit(hex[i])) {
        return Err(Malformed);
      }
      var code := 0x1000 * HexValue(hex[0]) + 0x100 * HexValue(hex[1]) + 0x10 * HexValue(hex[2]) + HexValue(hex[3]);
      at := at + 4;
      assert Rest() == start[5..];
      if 0xD800 <= code <= 0xDFFF {
        return Err(Malformed);
      }
      return Ok(code as char);
    }

    method ReadString() returns (r: Result<string, DecodeError>)
      requires Valid()
      modifies this`at
      ensures Valid() && Agrees(ParseString(old(Rest())), r, Rest())
    {
      var open := Eat('"');
      if !open {
        return Err(Malformed);
      }
      ghost var goal := ParseStringTail(Rest(), "");
      var out := "";
      while true
        invariant Valid()
        invariant ParseStringTail(Rest(), out) == goal
        decreases |text| - at
      {
        if at >= |text| {
          return Err(Malformed);
        }
        var next := text[at];
        ghost var before := Rest();
        at := at + 1;
        assert next == before[0] && Rest() == before[1..];
        if next == '"' {
          return Ok(out);
        } else if next == '\\' {
          ghost var tail := Rest();
          var c := ReadEscape();
          if c.Err? {
            return Err(c.error);
          }
          assert ParseEscape(tail) == Parsed(c.value, Rest());
          out := out + [c.value];
        } else if next as int < 0x20 {
          return Err(Malformed);
        } else {
          out := out + [next];
        }
      }
    }

    method ReadUint() returns (r: Result<U64, DecodeError>)
      requires Valid()
      modifies this`at
      ensures Valid() && Agrees(ParseUint(old(Rest())), r, Rest())
    {
      ghost var start := Rest();
      var from := at;
      while at < |text| && IsDigit(text[at])
        invariant from <= at <= |text|
        invariant (at - from) + DigitRun(text[at..]) == DigitRun(start)
      {
        assert text[at..][1..] == text[at + 1..];
        at := at + 1;
      }
      var digits := text[from..at];
      assert digits == start[..DigitRun(start)];
      if digits == [] || (|digits| > 1 && digits[0] == '0') || DecimalValue(digits) >= U64_LIMIT {
        return Err(Malformed);
      }
      assert Rest() == start[DigitRun(start)..];
      return Ok(DecimalValue(digits));
    }

    method ReadArray() returns (r: Result<CanonicalValue, DecodeError>)
      requires Valid()
      modifies this`at
      ensures Valid() && Agrees(ParseArray(old(Rest())), r, Rest())
    {
      ghost var start := Rest();
      var open := Eat('[');
      if !open {
        return Err(Malformed);
      }
      var closed := Eat(']');
      if closed {
        assert start[1..][1..] == start[2..];
        return Ok(TextArray([]));
      }
      ghost var goal := ParseItems(Rest(), []);
      var items := [];
      while true
        invariant Valid()
        invariant ParseItems(Rest(), items) == goal
        decreases |text| - at
      {
        ghost var before := Rest();
        var item := ReadString();
        if item.Err? {
          return Err(item.error);
        }
        assert |Rest()| < |before|;
        items := items + [item.value];
        var more := Eat(',');
        if more {
          continue;
        }
        closed := Eat(']');
        return if closed then Ok(TextArray(items)) else Err(Malformed);
      }
    }

    method ReadValue() returns (r: Result<CanonicalValue, DecodeError>)
      requires Valid()
      modifies this`at
      ensures Valid() && Agrees(ParseValue(old(Rest())), r, Rest())
    {
      var next := Peek();
      if next.None? {
        return Err(Malformed);
      }
      if next.value == '"' {
        var s := ReadString();
        return if s.Ok? then Ok(Text(s.value)) else Err(s.error);
      } else if next.value == '[' {
        r := ReadArray();
      } else if IsDigit(next.value) {
        var n := ReadUint();
        return if n.Ok? then Ok(Uint(n.value)) else Err(n.error);
      } else {
        return Err(Malformed);
      }
    }

    method ReadObject() returns (r: Result<Members, DecodeError>)
      requires Valid()
      modifies this`at
      ensures Valid() && Agrees(ParseObject(old(Rest())), r, Rest())
    {
      ghost var start := Rest();
      var open := Eat('{');
      if !open {
        return Err(Malformed);
      }
      var result := new CanonicalObject();
      var closed := Eat('}');
      if closed {
        assert start[1..][1..] == start[2..];
        return Ok(result.members);
      }
      ghost var goal := ParseMembers(Rest(), map[]);
      while true
        invariant Valid()
        invariant ParseMembers(Rest(), result.members) == goal
        decreases |text| - at
      {
        ghost var before := Rest();
        var key := ReadString();
        if key.Err? {
          return Err(key.error);
        }
        var colon := Eat(':');
        if !colon {
          return Err(Malformed);
        }
        var value := ReadValue();
        if value.Err? {
          return Err(value.error);
        }
        assert |Rest()| < |before|;
        var added := result.Insert(key.value, value.value);
        if !added {
          return Err(DuplicateMember);
        }
        var more := Eat(',');
        if more {
          continue;
        }
        closed := Eat('}');
        return if closed then Ok(result.members) else Err(Malformed);
      }
    }
  }

  method ParseText(text: string) returns (r: Result<Members, DecodeError>)
    ensures r == Parse(text)
  {
    hide ParseObject;
    var parser := new Parser(text);
    r := parser.ReadObject();
    if r.Ok? && parser.at != |text| {
      r := Err(Malformed);
    }
  }

  /** The decoder re-encodes what it parsed and requires the same text back. */
  method DecodeText(text: string) returns (r: Result<Members, DecodeError>)
    ensures r == Decode(text)
  {
    r := ParseText(text);
    if r.Ok? {
      var again := new CanonicalObject();
      again.members := r.value;
      var spelling := again.EncodeText();
      if spelling != text {
        r := Err(NotCanonical);
      }
    }
  }
}
