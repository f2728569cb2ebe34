/** JSON values and their printed form. */
module JsonText {

  /** A value without floating-point numbers. An object is a std::map: its
      fields are in the order of their keys, and no key occurs twice. */
  datatype Json =
    | Null
    | Object(fields: seq<Field>)
    | Array(items: seq<Json>)
    | String(text: string)
    | Integral(number: nat)
    | Boolean(flag: bool)

  datatype Field = Field(key: string, value: Json)

  // ---------- Objects as ordered maps ----------

  /** std::string's order. */
  predicate Less(a: string, b: string) {
    b != [] && (a == [] || a[0] < b[0] || (a[0] == b[0] && Less(a[1..], b[1..])))
  }

  lemma {:induction false} LessTransitive(a: string, b: string, c: string)
    requires Less(a, b) && Less(b, c)
    ensures Less(a, c)
  {
    if a != [] && a[0] == b[0] == c[0] {
      LessTransitive(a[1..], b[1..], c[1..]);
    }
  }

  lemma {:induction false} LessTotal(a: string, b: string)
    ensures Less(a, b) || a == b || Less(b, a)
    ensures !(Less(a, b) && Less(b, a)) && !Less(a, a)
  {
    if a == [] {
    } else {
      LessTotal(a[1..], a[1..]);
    }
    if a != [] && b != [] && a[0] == b[0] {
      LessTotal(a[1..], b[1..]);
      assert a == [a[0]] + a[1..] && b == [b[0]] + b[1..];
    }
  }

  ghost predicate Sorted(fields: seq<Field>) {
    forall i, j :: 0 <= i < j < |fields| ==> Less(fields[i].key, fields[j].key)
  }

  /** operator[] followed by an assignment. */
  function Insert(fields: seq<Field>, key: string, value: Json): (r: seq<Field>)
    ensures r != [] && |r| <= |fields| + 1
  {
    if fields == [] || Less(key, fields[0].key) then [Field(key, value)] + fields
    else if fields[0].key == key then [Field(key, value)] + fields[1..]
    else [fields[0]] + Insert(fields[1..], key, value)
  }

  /** Insert is the update of a map: the key has the new value, other fields
      stay, and the order is kept. */
  lemma {:induction false} InsertIsUpdate(fields: seq<Field>, key: string, value: Json)
    requires Sorted(fields)
    ensures Sorted(Insert(fields, key, value))
    ensures Field(key, value) in Insert(fields, key, value)
    ensures forall f :: f in Insert(fields, key, value) <==> f == Field(key, value) || (f in fields && f.key != key)
  {
    var r := Insert(fields, key, value);
    if fields == [] {
    } else {
      var first, rest := fields[0], fields[1..];
      assert fields == [first] + rest;
      forall f | f in rest ensures Less(first.key, f.key) {
      }
      LessTotal(key, first.key);
      if Less(key, first.key) {
        forall f | f in fields ensures Less(key, f.key) && f.key != key {
          if f != first {
            LessTransitive(key, first.key, f.key);
          }
          LessTotal(key, f.key);
        }
      } else if first.key == key {
        forall f | f in rest ensures f.key != key {
          LessTotal(key, f.key);
        }
      } else {
        InsertIsUpdate(rest, key, value);
        var r' := Insert(rest, key, value);
        forall f | f in r' ensures Less(first.key, f.key) {
        }
        assert r == [first] + r';
      }
    }
  }

  /** A key above all others goes to the end. */
  lemma {:induction false} InsertLast(fields: seq<Field>, key: string, value: Json)
    requires forall f :: f in fields ==> Less(f.key, key)
    ensures Insert(fields, key, value) == fields + [Field(key, value)]
  {
    if fields == [] {
    } else {
      LessTotal(fields[0].key, key);
      InsertLast(fields[1..], key, value);
    }
  }

  // ---------- json_escape ----------

  function EscapeChar(c: char): (r: string)
    ensures 1 <= |r| <= 2
  {
    match c
    case '\"' => ['\\', '\"']
    case '\\' => ['\\', '\\']
    case '\U{08}' => ['\\', 'b']
    case '\U{0C}' => ['\\', 'f']
    case '\n' => ['\\', 'n']
    case '\r' => ['\\', 'r']
    case '\t' => ['\\', 't']
    case _ => [c]
  }

  function Escape(s: string): (r: string)
    ensures |r| >= |s|
  {
    if s == [] then [] else EscapeChar(s[0]) + Escape(s[1..])
  }

  lemma {:induction false} EscapeSnoc(s: string, c: char)
    ensures Escape(s + [c]) == Escape(s) + EscapeChar(c)
  {
    if s == [] {
      assert Escape([c]) == EscapeChar(c) + Escape([]);
    } else {
      assert (s + [c])[1..] == s[1..] + [c];
      EscapeSnoc(s[1..], c);
      hide EscapeChar;
    }
  }

  method JsonEscape(str: string) returns (output: string)
    ensures output == Escape(str)
  {
    output := "";
    for i := 0 to |str|
      invariant output == Escape(str[..i])
    {
      EscapeSnoc(str[..i], str[i]);
      assert str[..i + 1] == str[..i] + [str[i]];
      output := output + EscapeChar(str[i]);
    }
    assert str[..|str|] == str;
  }

  // ---------- dump ----------

  function Digit(d: nat): char
    requires d < 10
  {
    '0' + d as char
  }

  /** std::to_string of an unsigned number. */
  function Decimal(n: nat): (s: string)
    ensures s != []
  {
    if n < 10 then [Digit(n)] else Decimal(n / 10) + [Digit(n % 10)]
  }

  function Pad(depth: nat, tab: string): string {
    if depth == 0 then "" else Pad(depth - 1, tab) + tab
  }

  /** erase(0, 2). */
  function Erased(pad: string): string {
    if |pad| <= 2 then "" else pad[2..]
  }

  function Dump(v: Json, depth: nat, tab: string): (s: string)
    decreases v, 0
  {
    match v
    case Null => "null"
    case Object(fields) =>
      "{\n" + DumpFields(fields, depth, tab) + "\n" + Erased(Pad(depth, tab)) + "}"
    case Array(items) => "[" + DumpItems(items, depth, tab) + "]"
    case String(text) => "\"" + Escape(text) + "\""
    case Integral(n) => Decimal(n)
    case Boolean(flag) => if flag then "true" else "false"
  }

  function DumpField(f: Field, depth: nat, tab: string): string
    decreases f, 0
  {
    Pad(depth, tab) + "\"" + f.key + "\" : " + Dump(f.value, depth + 1, tab)
  }

  function DumpFields(fields: seq<Field>, depth: nat, tab: string): string
    decreases fields
  {
    if fields == [] then ""
    else DumpField(fields[0], depth, tab)
         + (if |fields| == 1 then "" else ",\n" + DumpFields(fields[1..], depth, tab))
  }

  function DumpItems(items: seq<Json>, depth: nat, tab: string): string
    decreases items
  {
    if items == [] then ""
    else Dump(items[0], depth + 1, tab) + (if |items| == 1 then "" else ", " + DumpItems(items[1..], depth, tab))
  }

  method PadText(depth: nat, tab: string) returns (pad: string)
    ensures pad == Pad(depth, tab)
  {
    pad := "";
    for i := 0 to depth
      invariant pad == Pad(i, tab)
    {
      pad := pad + tab;
    }
  }

  /** JSON::dump. */
  method DumpText(v: Json, depth: nat, tab: string) returns (s: string)
    ensures s == Dump(v, depth, tab)
    decreases v, 0
  {
    match v
    case Null => s := "null";
    case Object(fields) => s := DumpObject(fields, depth, tab);
    case Array(items) => s := DumpArray(items, depth, tab);
    case String(text) =>
      var escaped := JsonEscape(text);
      s := "\"" + escaped + "\"";
    case Integral(n) => s := Decimal(n);
    case Boolean(flag) => s := if flag then "true" else "false";
  }

  method DumpObject(fields: seq<Field>, depth: nat, tab: string) returns (s: string)
    ensures s == "{\n" + DumpFields(fields, depth, tab) + "\n" + Erased(Pad(depth, tab)) + "}"
    decreases fields
  {
    hide Dump, Pad, Erased;
    var pad := PadText(depth, tab);
    s := "{\n";
    var skip := true;
    ghost var all := "{\n" + DumpFields(fields, depth, tab);
    for i := 0 to |fields|
      invariant skip <==> i == 0
      invariant s + (if i == 0 || i == |fields| then "" else ",\n") + DumpFields(fields[i..], depth, tab) == all
    {
      var f := fields[i];
      if !skip {
        s := s + ",\n";
      }
      assert s + DumpFields(fields[i..], depth, tab) == all;
      DumpFieldsStep(fields[i..], depth, tab);
      var text := DumpText(f.value, depth + 1, tab);
      assert fields[i..][1..] == fields[i + 1..];
      assert DumpField(f, depth, tab) == pad + "\"" + f.key + "\" : " + text;
      Reassociate(s, DumpField(f, depth, tab), ",\n", DumpFields(fields[i + 1..], depth, tab));
      s := s + (pad + "\"" + f.key + "\" : " + text);
      skip := false;
    }
    assert s == all;
    s := s + ("\n" + Erased(pad) + "}");
  }

  lemma DumpFieldsStep(fields: seq<Field>, depth: nat, tab: string)
    requires fields != []
    ensures var rest := DumpFields(fields[1..], depth, tab);
            DumpFields(fields, depth, tab)
            == DumpField(fields[0], depth, tab) + (if |fields| == 1 then "" else ",\n" + rest)
  {
  }

  lemma Reassociate(a: string, b: string, c: string, d: string)
    ensures a + (b + (c + d)) == a + b + c + d
  {
  }

  method DumpArray(items: seq<Json>, depth: nat, tab: string) returns (s: string)
    ensures s == "[" + DumpItems(items, depth, tab) + "]"
    decreases items
  {
    hide Dump;
    s := "[";
    var skip := true;
    ghost var all := "[" + DumpItems(items, depth, tab);
    for i := 0 to |items|
      invariant skip <==> i == 0
      invariant s + (if i == 0 || i == |items| then "" else ", ") + DumpItems(items[i..], depth, tab) == all
    {
      if !skip {
        s := s + ", ";
      }
      var text := DumpText(items[i], depth + 1, tab);
      assert items[i..][1..] == items[i + 1..];
      s := s + text;
      skip := false;
    }
    s := s + "]";
  }
}
