/** The recursive-descent JSON parser: what each function makes of a text and an
    offset, and the functions themselves, which advance one shared offset. */
module JsonParser {
  import opened JsonText

  const UINT64 := 0x1_0000_0000_0000_0000

  /** A value and the offset behind it; or Outside: the parser would read behind
      the terminating zero, or form a floating-point number. */
  datatype Result = Parsed(value: Json, at: nat) | Outside

  /** A text's characters, with the zero that ends it. */
  function CharAt(s: string, o: nat): char
    requires o <= |s|
  {
    if o < |s| then s[o] else '\0'
  }

  predicate IsSpace(c: char) {
    c == ' ' || '\t' <= c <= '\r'
  }

  predicate IsDigit(c: char) { '0' <= c <= '9' }

  predicate IsHex(c: char) { '0' <= c <= '9' || 'a' <= c <= 'f' || 'A' <= c <= 'F' }

  predicate EndsNumber(c: char) { IsSpace(c) || c == ',' || c == ']' || c == '}' }

  function SkipWs(s: string, o: nat): (r: nat)
    requires o <= |s|
    ensures o <= r <= |s| && !IsSpace(CharAt(s, r))
    decreases |s| - o
  {
    if IsSpace(CharAt(s, o)) then SkipWs(s, o + 1) else o
  }

  // ---------- Strings ----------

  /** The second character of an escape that means one character. */
  predicate Simple(e: char) {
    e == '\"' || e == '\\' || e == '/' || e == 'b' || e == 'f' || e == 'n' || e == 'r' || e == 't'
  }

  function Unescaped(e: char): (c: char)
    requires Simple(e)
  {
    match e
    case 'b' => '\U{08}'
    case 'f' => '\U{0C}'
    case 'n' => '\n'
    case 'r' => '\r'
    case 't' => '\t'
    case _ => e
  }

  /** Four hexadecimal digits stand from o on, a zero counting as none. */
  predicate Hex4(s: string, o: nat) {
    o + 4 <= |s| && forall k :: o <= k < o + 4 ==> IsHex(s[k])
  }

  /** The rest of a string from offset o, behind val. A unicode escape is kept
      as it is, or ends the string if it is not complete; any other escape
      becomes a backslash. */
  function StringFrom(s: string, o: nat, val: string): (r: Result)
    ensures r.Parsed? ==> r.at > o
    decreases |s| + 2 - o
  {
    if o > |s| then Outside
    else if CharAt(s, o) == '\"' then Parsed(String(val), o + 1)
    else if CharAt(s, o) != '\\' then StringFrom(s, o + 1, val + [CharAt(s, o)])
    else
      var e := CharAt(s, o + 1);
      if Simple(e) then StringFrom(s, o + 2, val + [Unescaped(e)])
      else if e != 'u' then StringFrom(s, o + 2, val + "\\")
      else if Hex4(s, o + 2) then StringFrom(s, o + 6, val + "\\u" + s[o + 2..o + 6])
      else Parsed(String(""), o + 1)
  }

  // ---------- Numbers ----------

  predicate InNumber(c: char) { c == '-' || IsDigit(c) || c == '.' }

  function NumberEnd(s: string, o: nat): (r: nat)
    requires o <= |s|
    ensures o <= r <= |s| && !InNumber(CharAt(s, r)) && forall k :: o <= k < r ==> InNumber(s[k])
    decreases |s| - o
  {
    if InNumber(CharAt(s, o)) then NumberEnd(s, o + 1) else o
  }

  function LeadingValue(s: string, acc: nat): nat {
    if s == "" || !IsDigit(s[0]) then acc else LeadingValue(s[1..], 10 * acc + (s[0] as int - '0' as int))
  }

  /** strtoull in base 10: an optional sign, then digits; too large a value is
      replaced by the largest, a negative one is taken modulo 2^64. */
  function Strtoull(s: string): (n: nat)
    ensures n < UINT64
  {
    var negative := s != "" && s[0] == '-';
    var n := LeadingValue(if negative then s[1..] else s, 0);
    if n >= UINT64 then UINT64 - 1 else if negative then (UINT64 - n) % UINT64 else n
  }

  function ParseNumber(s: string, o: nat): (r: Result)
    requires o <= |s|
    ensures r.Parsed? ==> r.at >= o
  {
    var e := NumberEnd(s, o);
    var c := CharAt(s, e);
    if c == 'E' || c == 'e' then Outside
    else if !EndsNumber(c) then Parsed(Null, e + 1)
    else if '.' in s[o..e] then Outside
    else Parsed(Integral(Strtoull(s[o..e])), e)
  }

  // ---------- Words ----------

  /** substr. */
  function Substr(s: string, o: nat, n: nat): string
    requires o <= |s|
  {
    if o + n <= |s| then s[o..o + n] else s[o..]
  }

  function ParseBool(s: string, o: nat): (r: Result)
    requires o <= |s|
    ensures r.Parsed? && r.at >= o
  {
    if Substr(s, o, 4) == "true" then Parsed(Boolean(true), o + 4)
    else if Substr(s, o, 5) == "false" then Parsed(Boolean(false), o + 5)
    else Parsed(Null, o)
  }

  function ParseNull(s: string, o: nat): (r: Result)
    requires o <= |s|
    ensures r.Parsed? && r.at >= o
  {
    Parsed(Null, if Substr(s, o, 4) == "null" then o + 4 else o)
  }

  // ---------- Values ----------

  /** ToString: what a parsed key is stored as. */
  function KeyText(v: Json): string {
    if v.String? then Escape(v.text) else ""
  }

  function ParseNext(s: string, o: nat): (r: Result)
    ensures r.Parsed? ==> r.at >= o
    decreases |s| + 2 - o, 1
  {
    if o > |s| then Outside
    else
      var p := SkipWs(s, o);
      var c := CharAt(s, p);
      if c == '[' then ParseArray(s, p)
      else if c == '{' then ParseObject(s, p)
      else if c == '\"' then StringFrom(s, p + 1, "")
      else if c == 't' || c == 'f' then ParseBool(s, p)
      else if c == 'n' then ParseNull(s, p)
      else if IsDigit(c) || c == '-' then ParseNumber(s, p)
      else Parsed(Null, p)
  }

  function ParseArray(s: string, o: nat): (r: Result)
    requires o < |s|
    ensures r.Parsed? ==> r.at >= o
    decreases |s| + 2 - o, 0
  {
    var p := SkipWs(s, o + 1);
    if CharAt(s, p) == ']' then Parsed(Array([]), p + 1) else ItemsFrom(s, p, [])
  }

  /** The loop of parse_array; what is no array is an empty one. */
  function ItemsFrom(s: string, o: nat, items: seq<Json>): (r: Result)
    ensures r.Parsed? ==> r.at >= o
    decreases |s| + 2 - o, 2
  {
    var v := ParseNext(s, o);
    if v.Outside? || v.at > |s| then Outside
    else
      var p := SkipWs(s, v.at);
      if CharAt(s, p) == ',' then ItemsFrom(s, p + 1, items + [v.value])
      else if CharAt(s, p) == ']' then Parsed(Array(items + [v.value]), p + 1)
      else Parsed(Array([]), p)
  }

  function ParseObject(s: string, o: nat): (r: Result)
    requires o < |s|
    ensures r.Parsed? ==> r.at >= o
    decreases |s| + 2 - o, 0
  {
    var p := SkipWs(s, o + 1);
    if CharAt(s, p) == '}' then Parsed(Object([]), p + 1) else FieldsFrom(s, p, [])
  }

  /** The loop of parse_object; an error ends the object with the fields so far. */
  function FieldsFrom(s: string, o: nat, fields: seq<Field>): (r: Result)
    ensures r.Parsed? ==> r.at >= o
    decreases |s| + 2 - o, 2
  {
    var k := ParseNext(s, o);
    if k.Outside? || k.at > |s| then Outside
    else
      var colon := SkipWs(s, k.at);
      if CharAt(s, colon) != ':' then Parsed(Object(fields), colon)
      else ValueFrom(s, SkipWs(s, colon + 1), fields, KeyText(k.value))
  }

  /** The same, behind a key and a colon. */
  function ValueFrom(s: string, o: nat, fields: seq<Field>, key: string): (r: Result)
    ensures r.Parsed? ==> r.at >= o
    decreases |s| + 2 - o, 2
  {
    var v := ParseNext(s, o);
    if v.Outside? || v.at > |s| then Outside
    else
      var fields' := Insert(fields, key, v.value);
      var p := SkipWs(s, v.at);
      if CharAt(s, p) == ',' then FieldsFrom(s, p + 1, fields')
      else if CharAt(s, p) == '}' then Parsed(Object(fields'), p + 1)
      else Parsed(Object(fields'), p)
  }

  /** JSON::Load. */
  function Load(s: string): Result {
    ParseNext(s, 0)
  }

  // ---------- The functions that advance the offset ----------

  class Parser {
    const str: string
    var offset: nat

    constructor (str: string)
      ensures this.str == str && offset == 0
    {
      this.str, offset := str, 0;
    }

    /** What a parse function that was expected to find r has done. */
    ghost predicate Did(r: Result, value: Json, ok: bool)
      reads `offset
    {
      (ok <==> r.Parsed?) && (ok ==> r == Parsed(value, offset))
    }

    method ConsumeWs()
      requires offset <= |str|
      modifies `offset
      ensures offset == SkipWs(str, old(offset))
    {
      while IsSpace(CharAt(str, offset))
        invariant old(offset) <= offset <= |str| && SkipWs(str, offset) == SkipWs(str, old(offset))
        decreases |str| - offset
      {
        offset := offset + 1;
      }
    }

    method ReadString() returns (value: Json, ok: bool)
      requires offset < |str|
      modifies `offset
      ensures Did(StringFrom(str, old(offset) + 1, ""), value, ok)
    {
      var val := "";
      offset := offset + 1;
      while offset <= |str| && CharAt(str, offset) != '\"'
        invariant StringFrom(str, offset, val) == StringFrom(str, old(offset) + 1, "")
        decreases |str| + 2 - offset
      {
        var c := CharAt(str, offset);
        if c == '\\' {
          offset := offset + 1;
          var e := CharAt(str, offset);
          if Simple(e) {
            val := val + [Unescaped(e)];
          } else if e == 'u' {
            var hex := ReadHex4();
            if !hex {
              return String(""), true;
            }
            val := val + "\\u" + str[offset + 1..offset + 5];
            offset := offset + 4;
          } else {
            val := val + "\\";
          }
        } else {
          val := val + [c];
        }
        offset := offset + 1;
      }
      if offset > |str| {
        return Null, false;
      }
      offset := offset + 1;
      return String(val), true;
    }

    /** The loop over the digits of a unicode escape. */
    method ReadHex4() returns (hex: bool)
      requires offset < |str|
      ensures hex <==> Hex4(str, offset + 1)
    {
      var i := 1;
      while i <= 4
        invariant 1 <= i <= 5 && offset + i <= |str| && forall k :: offset + 1 <= k < offset + i ==> IsHex(str[k])
      {
        if !IsHex(CharAt(str, offset + i)) {
          return false;
        }
        i := i + 1;
      }
      return true;
    }

    method ReadNumber() returns (value: Json, ok: bool)
      requires offset <= |str|
      modifies `offset
      ensures Did(ParseNumber(str, old(offset)), value, ok)
    {
      var val, isDouble := "", false;
      while InNumber(CharAt(str, offset))
        invariant old(offset) <= offset <= |str| && NumberEnd(str, offset) == NumberEnd(str, old(offset))
        invariant val == str[old(offset)..offset] && (isDouble <==> '.' in val)
        decreases |str| - offset
      {
        var c := CharAt(str, offset);
        val := val + [c];
        isDouble := isDouble || c == '.';
        offset := offset + 1;
      }
      var c := CharAt(str, offset);
      offset := offset + 1;
      if c == 'E' || c == 'e' {
        return Null, false;
      }
      if !EndsNumber(c) {
        return Null, true;
      }
      offset := offset - 1;
      if isDouble {
        return Null, false;
      }
      return Integral(Strtoull(val)), true;
    }

    method ReadNext() returns (value: Json, ok: bool)
      modifies `offset
      ensures Did(ParseNext(str, old(offset)), value, ok)
      decreases |str| + 2 - offset, 1
    {
      if offset > |str| {
        return Null, false;
      }
      ConsumeWs();
      var c := CharAt(str, offset);
      if c == '[' {
        value, ok := ReadArray();
      } else if c == '{' {
        value, ok := ReadObject();
      } else if c == '\"' {
        value, ok := ReadString();
      } else if c == 't' || c == 'f' {
        var r := ParseBool(str, offset);
        value, ok, offset := r.value, true, r.at;
      } else if c == 'n' {
        var r := ParseNull(str, offset);
        value, ok, offset := r.value, true, r.at;
      } else if IsDigit(c) || c == '-' {
        value, ok := ReadNumber();
      } else {
        value, ok := Null, true;
      }
    }

    method ReadArray() returns (value: Json, ok: bool)
      requires offset < |str|
      modifies `offset
      ensures Did(ParseArray(str, old(offset)), value, ok)
      decreases |str| + 2 - offset, 0
    {
      hide ParseNext, SkipWs, ParseObject, StringFrom;
      var items := [];
      offset := offset + 1;
      ConsumeWs();
      if CharAt(str, offset) == ']' {
        offset := offset + 1;
        return Array(items), true;
      }
      while true
        invariant offset > old(offset)
        invariant ItemsFrom(str, offset, items) == ParseArray(str, old(offset))
        decreases |str| + 2 - offset
      {
        var item, found := ReadNext();
        if !found || offset > |str| {
          return Null, false;
        }
        items := items + [item];
        ConsumeWs();
        if CharAt(str, offset) == ',' {
          offset := offset + 1;
        } else if CharAt(str, offset) == ']' {
          offset := offset + 1;
          return Array(items), true;
        } else {
          return Array([]), true;
        }
      }
    }

    method ReadObject() returns (value: Json, ok: bool)
      requires offset < |str|
      modifies `offset
      ensures Did(ParseObject(str, old(offset)), value, ok)
      decreases |str| + 2 - offset, 0
    {
      hide Insert, KeyText, ParseNext, SkipWs, ItemsFrom, ParseArray, StringFrom, CharAt;
      var fields := [];
      offset := offset + 1;
      ConsumeWs();
      if CharAt(str, offset) == '}' {
        offset := offset + 1;
        return Object(fields), true;
      }
      while true
        invariant offset > old(offset)
        invariant FieldsFrom(str, offset, fields) == ParseObject(str, old(offset))
        decreases |str| + 2 - offset
      {
        var key, found := ReadNext();
        if !found || offset > |str| {
          return Null, false;
        }
        ConsumeWs();
        if CharAt(str, offset) != ':' {
          return Object(fields), true;
        }
        offset := offset + 1;
        ConsumeWs();
        var v, foundValue := ReadNext();
        if !foundValue || offset > |str| {
          return Null, false;
        }
        fields := Insert(fields, KeyText(key), v);
        ConsumeWs();
        if CharAt(str, offset) == ',' {
          offset := offset + 1;
        } else if CharAt(str, offset) == '}' {
          offset := offset + 1;
          return Object(fields), true;
        } else {
          return Object(fields), true;
        }
      }
    }
  }
}
