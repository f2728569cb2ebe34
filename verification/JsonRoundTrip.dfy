/** Loading what was printed, and printing what was loaded. */
module JsonRoundTrip {
  import opened JsonText
  import opened JsonParser
  import opened Texts

  // ---------- Values and keys ----------

  /** What a JSON object of the program can hold: ordered fields, 64-bit numbers. */
  ghost predicate Valid(v: Json) {
    match v
    case Object(fields) => Sorted(fields) && forall f :: f in fields ==> Valid(f.value)
    case Array(items) => forall i :: i in items ==> Valid(i)
    case Integral(n) => n < UINT64
    case _ => true
  }

  /** Whether a key could have come out of json_escape. */
  predicate EscapedKey(k: string) {
    k == ""
    || (k[0] == '\\' && |k| >= 2 && Simple(k[1]) && k[1] != '/' && EscapedKey(k[2..]))
    || (k[0] != '\\' && |EscapeChar(k[0])| == 1 && EscapedKey(k[1..]))
  }

  /** Every key is in escaped form. */
  ghost predicate Escaped(v: Json) {
    match v
    case Object(fields) => forall f :: f in fields ==> EscapedKey(f.key) && Escaped(f.value)
    case Array(items) => forall i :: i in items ==> Escaped(i)
    case _ => true
  }

  function Unescape(k: string): string
    requires EscapedKey(k)
  {
    if k == "" then ""
    else if k[0] == '\\' then [Unescaped(k[1])] + Unescape(k[2..])
    else [k[0]] + Unescape(k[1..])
  }

  /** One character, escaped or not. */
  lemma EscapeCharFacts(c: char)
    ensures var e := EscapeChar(c);
            && (|e| == 1 ==> e == [c] && c != '\"' && c != '\\')
            && (|e| == 2 ==> e[0] == '\\' && Simple(e[1]) && e[1] != '/' && Unescaped(e[1]) == c)
  {
  }

  lemma UnescapedFacts(e: char)
    requires Simple(e) && e != '/'
    ensures EscapeChar(Unescaped(e)) == ['\\', e]
  {
  }

  lemma {:induction false} EscapeUnescape(k: string)
    requires EscapedKey(k)
    ensures Escape(Unescape(k)) == k
  {
    hide EscapeChar, Unescaped, Simple;
    if k == "" {
    } else {
      var n := if k[0] == '\\' then 2 else 1;
      EscapeUnescape(k[n..]);
      assert Unescape(k)[1..] == Unescape(k[n..]);
      if n == 2 {
        UnescapedFacts(k[1]);
      } else {
        EscapeCharFacts(k[0]);
      }
      assert EscapeChar(Unescape(k)[0]) == k[..n];
      assert k == k[..n] + k[n..];
    }
  }

  lemma {:induction false} EscapeIsEscaped(s: string)
    ensures EscapedKey(Escape(s))
  {
    hide EscapeChar, Unescaped, Simple;
    if s == "" {
    } else {
      EscapeCharFacts(s[0]);
      EscapeIsEscaped(s[1..]);
      var e, k := EscapeChar(s[0]), Escape(s);
      assert k == e + Escape(s[1..]);
      assert k[|e|..] == Escape(s[1..]);
    }
  }

  // ---------- Text at an offset ----------

  lemma AtChar(s: string, o: nat, d: string)
    requires At(s, o, d) && d != ""
    ensures o < |s| && s[o] == d[0]
  {
    assert s[o..o + |d|][0] == d[0];
  }

  lemma {:induction false} SkipAll(s: string, o: nat, w: string)
    requires At(s, o, w) && forall c :: c in w ==> IsSpace(c)
    ensures SkipWs(s, o) == SkipWs(s, o + |w|)
    decreases |w|
  {
    if w == "" {
    } else {
      AtChar(s, o, w);
      assert w == w[..1] + w[1..];
      AtParts(s, o, w[..1], w[1..]);
      SkipAll(s, o + 1, w[1..]);
    }
  }

  lemma SkipTwice(s: string, o: nat)
    requires o <= |s|
    ensures SkipWs(s, SkipWs(s, o)) == SkipWs(s, o)
  {
  }

  // ---------- Strings ----------

  lemma {:induction false} StringRead(s: string, o: nat, x: string, val: string)
    requires At(s, o, Escape(x) + "\"")
    ensures StringFrom(s, o, val) == Parsed(String(val + x), o + |Escape(x)| + 1)
    decreases |x|
  {
    hide EscapeChar, Unescaped, Simple;
    AtParts(s, o, Escape(x), "\"");
    if x == "" {
      AtChar(s, o, "\"");
      assert val + x == val;
    } else {
      var e := EscapeChar(x[0]);
      EscapeCharFacts(x[0]);
      assert Escape(x) + "\"" == e + (Escape(x[1..]) + "\"");
      AtParts(s, o, e, Escape(x[1..]) + "\"");
      assert s[o..o + |e|] == e;
      StringRead(s, o + |e|, x[1..], val + [x[0]]);
      assert val + [x[0]] + x[1..] == val + x;
      assert s[o] == e[0] && (|e| == 2 ==> s[o + 1] == e[1]);
    }
  }

  // ---------- Numbers ----------

  lemma {:induction false} DecimalDigits(n: nat)
    ensures forall c :: c in Decimal(n) ==> IsDigit(c)
  {
    if n >= 10 {
      DecimalDigits(n / 10);
    }
  }

  lemma {:induction false} LeadingSnoc(s: string, d: nat, acc: nat)
    requires d < 10 && forall c :: c in s ==> IsDigit(c)
    ensures LeadingValue(s + [Digit(d)], acc) == 10 * LeadingValue(s, acc) + d
  {
    if s == "" {
      assert LeadingValue([], 10 * acc + d) == 10 * acc + d;
    } else {
      assert (s + [Digit(d)])[1..] == s[1..] + [Digit(d)] && IsDigit(s[0]);
      LeadingSnoc(s[1..], d, 10 * acc + (s[0] as int - '0' as int));
    }
  }

  lemma {:induction false} DecimalValue(n: nat)
    ensures LeadingValue(Decimal(n), 0) == n
  {
    if n < 10 {
      LeadingSnoc("", n, 0);
      assert "" + [Digit(n)] == [Digit(n)];
    } else {
      DecimalValue(n / 10);
      DecimalDigits(n / 10);
      LeadingSnoc(Decimal(n / 10), n % 10, 0);
    }
  }

  lemma {:induction false} NumberEnds(s: string, o: nat, e: nat)
    requires o <= e <= |s| && (forall k :: o <= k < e ==> InNumber(s[k])) && !InNumber(CharAt(s, e))
    ensures NumberEnd(s, o) == e
    decreases e - o
  {
    if o == e {
    } else {
      NumberEnds(s, o + 1, e);
    }
  }

  lemma NumberAt(s: string, o: nat, n: nat)
    requires At(s, o, Decimal(n)) && !InNumber(CharAt(s, o + |Decimal(n)|))
    ensures NumberEnd(s, o) == o + |Decimal(n)| && s[o..o + |Decimal(n)|] == Decimal(n)
    ensures '.' !in Decimal(n) && IsDigit(s[o]) && (n < UINT64 ==> Strtoull(Decimal(n)) == n)
  {
    hide Decimal, NumberEnd, Strtoull;
    DecimalDigits(n);
    var d := Decimal(n);
    forall k | o <= k < o + |d| ensures IsDigit(s[k]) {
      assert s[k] == d[k - o] && d[k - o] in d;
    }
    NumberEnds(s, o, o + |d|);
    StrtoullDecimal(n);
  }

  lemma StrtoullDecimal(n: nat)
    ensures n < UINT64 ==> Strtoull(Decimal(n)) == n
  {
    hide Decimal;
    DecimalValue(n);
    DecimalDigits(n);
    assert Decimal(n)[0] in Decimal(n);
  }

  // ---------- Printed values are read back ----------

  predicate Blank(w: string) {
    forall c :: c in w ==> IsSpace(c)
  }

  lemma {:induction false} PadBlank(depth: nat, tab: string)
    requires Blank(tab)
    ensures Blank(Pad(depth, tab))
  {
    if depth == 0 {
    } else {
      PadBlank(depth - 1, tab);
    }
  }

  /** White space in front of a value, an item or a field makes no difference. */
  lemma LeadingBlank(s: string, o: nat)
    requires o <= |s|
    ensures ParseNext(s, o) == ParseNext(s, SkipWs(s, o))
    ensures forall items :: ItemsFrom(s, o, items) == ItemsFrom(s, SkipWs(s, o), items)
    ensures forall fields :: FieldsFrom(s, o, fields) == FieldsFrom(s, SkipWs(s, o), fields)
  {
    hide ParseNext, SkipWs;
    LeadingBlankNext(s, o);
  }

  lemma LeadingBlankNext(s: string, o: nat)
    requires o <= |s|
    ensures ParseNext(s, o) == ParseNext(s, SkipWs(s, o))
  {
    SkipTwice(s, o);
    hide SkipWs, ParseArray, ParseObject, StringFrom, ParseNumber, ParseBool, ParseNull;
  }

  /** What may follow a value: for a number, something that ends it. */
  predicate Follows(v: Json, s: string, e: nat) {
    v.Integral? ==> e < |s| && EndsNumber(s[e])
  }

  lemma LiteralRead(v: Json, depth: nat, tab: string, s: string, o: nat)
    requires v.Null? || v.Boolean?
    requires At(s, o, Dump(v, depth, tab))
    ensures ParseNext(s, o) == Parsed(v, o + |Dump(v, depth, tab)|)
  {
    var d := Dump(v, depth, tab);
    AtChar(s, o, d);
    assert SkipWs(s, o) == o;
    assert Substr(s, o, |d|) == d;
    if v == Boolean(false) {
      assert Substr(s, o, 4)[0] == 'f';
    }
  }

  lemma NumberRead(n: nat, s: string, o: nat)
    requires At(s, o, Decimal(n)) && n < UINT64 && Follows(Integral(n), s, o + |Decimal(n)|)
    ensures ParseNext(s, o) == Parsed(Integral(n), o + |Decimal(n)|)
  {
    hide Decimal, Strtoull, NumberEnd;
    NumberAt(s, o, n);
    assert SkipWs(s, o) == o;
  }

  lemma TextRead(x: string, s: string, o: nat)
    requires At(s, o, "\"" + Escape(x) + "\"")
    ensures ParseNext(s, o) == Parsed(String(x), o + |Escape(x)| + 2)
  {
    hide Escape, StringFrom;
    assert "\"" + Escape(x) + "\"" == "\"" + (Escape(x) + "\"");
    AtParts(s, o, "\"", Escape(x) + "\"");
    AtChar(s, o, "\"");
    assert SkipWs(s, o) == o;
    StringRead(s, o + 1, x, "");
    assert "" + x == x;
  }

  lemma FirstChar(v: Json, depth: nat, tab: string)
    ensures var d := Dump(v, depth, tab);
            d != "" && !IsSpace(d[0]) && d[0] != ']' && d[0] != '}'
  {
    match v
    case Integral(n) =>
      DecimalDigits(n);
      assert Decimal(n)[0] in Decimal(n);
    case _ =>
  }

  lemma {:induction false} ValueRead(v: Json, depth: nat, tab: string, s: string, o: nat)
    requires Valid(v) && Escaped(v) && Blank(tab)
    requires At(s, o, Dump(v, depth, tab)) && Follows(v, s, o + |Dump(v, depth, tab)|)
    ensures ParseNext(s, o) == Parsed(v, o + |Dump(v, depth, tab)|)
    decreases v, 0
  {
    match v
    case Null => LiteralRead(v, depth, tab, s, o);
    case Boolean(_) => LiteralRead(v, depth, tab, s, o);
    case Integral(n) => NumberRead(n, s, o);
    case String(x) => TextRead(x, s, o);
    case Array(items) => ArrayRead(items, depth, tab, s, o);
    case Object(fields) => ObjectRead(fields, depth, tab, s, o);
  }

  lemma {:induction false} ArrayRead(items: seq<Json>, depth: nat, tab: string, s: string, o: nat)
    requires Valid(Array(items)) && Escaped(Array(items)) && Blank(tab)
    requires At(s, o, Dump(Array(items), depth, tab))
    ensures ParseNext(s, o) == Parsed(Array(items), o + |Dump(Array(items), depth, tab)|)
    decreases items, 2
  {
    var d := DumpItems(items, depth, tab);
    AtParts(s, o, "[" + d, "]");
    AtParts(s, o, "[", d);
    AtChar(s, o, "[");
    AtChar(s, o + 1 + |d|, "]");
    assert SkipWs(s, o) == o;
    if items == [] {
      assert SkipWs(s, o + 1) == o + 1;
    } else {
      FirstChar(items[0], depth + 1, tab);
      AtChar(s, o + 1, d);
      assert SkipWs(s, o + 1) == o + 1;
      ItemsRead(items, depth, tab, s, o + 1, []);
      assert [] + items == items;
    }
    hide DumpItems, ItemsFrom, Valid, Escaped;
  }

  lemma NextItem(s: string, o: nat, v: Json, e: nat, acc: seq<Json>)
    requires ParseNext(s, o) == Parsed(v, e) && e < |s| && s[e] == ','
    ensures ItemsFrom(s, o, acc) == ItemsFrom(s, e + 1, acc + [v])
  {
    assert SkipWs(s, e) == e;
    hide ParseNext;
  }

  lemma LastItem(s: string, o: nat, v: Json, e: nat, acc: seq<Json>)
    requires ParseNext(s, o) == Parsed(v, e) && e < |s| && s[e] == ']'
    ensures ItemsFrom(s, o, acc) == Parsed(Array(acc + [v]), e + 1)
  {
    assert SkipWs(s, e) == e;
    hide ParseNext;
  }

  lemma {:induction false} ItemsRead(items: seq<Json>, depth: nat, tab: string, s: string, o: nat, acc: seq<Json>)
    requires items != [] && Blank(tab) && forall i :: i in items ==> Valid(i) && Escaped(i)
    requires At(s, o, DumpItems(items, depth, tab)) && At(s, o + |DumpItems(items, depth, tab)|, "]")
    ensures ItemsFrom(s, o, acc) == Parsed(Array(acc + items), o + |DumpItems(items, depth, tab)| + 1)
    decreases items, 1
  {
    hide Dump, ParseNext, Valid, Escaped, ItemsFrom, SkipWs;
    var d := Dump(items[0], depth + 1, tab);
    var e := o + |d|;
    if |items| == 1 {
      assert At(s, o, d);
      AtChar(s, e, "]");
      ValueRead(items[0], depth + 1, tab, s, o);
      LastItem(s, o, items[0], e, acc);
      assert items == [items[0]];
    } else {
      var rest := DumpItems(items[1..], depth, tab);
      AtParts(s, o, d, ", " + rest);
      AtParts(s, e, ", ", rest);
      AtChar(s, e, ", ");
      ValueRead(items[0], depth + 1, tab, s, o);
      ItemsRead(items[1..], depth, tab, s, e + 2, acc + [items[0]]);
      assert acc + [items[0]] + items[1..] == acc + items;
      NextItem(s, o, items[0], e, acc);
      SpaceAfter(s, e, acc + [items[0]]);
    }
  }

  lemma SpaceAfter(s: string, e: nat, acc: seq<Json>)
    requires At(s, e, ", ")
    ensures ItemsFrom(s, e + 1, acc) == ItemsFrom(s, e + 2, acc)
  {
    assert s[e + 1] == s[e..e + 2][1];
    assert SkipWs(s, e + 1) == SkipWs(s, e + 2);
    LeadingBlank(s, e + 1);
    LeadingBlank(s, e + 2);
    hide ItemsFrom, ParseNext, SkipWs;
  }

  lemma {:induction false} ObjectRead(fields: seq<Field>, depth: nat, tab: string, s: string, o: nat)
    requires Valid(Object(fields)) && Escaped(Object(fields)) && Blank(tab)
    requires At(s, o, Dump(Object(fields), depth, tab))
    ensures ParseNext(s, o) == Parsed(Object(fields), o + |Dump(Object(fields), depth, tab)|)
    decreases fields, 2
  {
    hide Dump, DumpFields, FieldsFrom, ItemsFrom, Valid, Escaped, EscapedKey, ParseNext, SkipWs;
    var e, c := ObjectParts(fields, depth, tab, s, o);
    BraceRead(s, o);
    FieldsGood(fields);
    if fields != [] {
      LeadingBlank(s, o + 2);
      FieldsRead(fields, depth, tab, s, o + 2, []);
      assert [] + fields == fields;
      FieldsFirst(fields, depth, tab, s, o + 2);
    } else {
      assert DumpFields(fields, depth, tab) == "" by {
        DumpNoFields(depth, tab);
      }
    }
  }

  lemma FieldsGood(fields: seq<Field>)
    requires Valid(Object(fields)) && Escaped(Object(fields))
    ensures Sorted(fields) && AllGood(fields)
  {
  }

  lemma BraceRead(s: string, o: nat)
    requires o < |s| && s[o] == '{' && SkipWs(s, o) == o
    ensures var p := SkipWs(s, o + 1);
            ParseNext(s, o)
            == if CharAt(s, p) == '}' then Parsed(Object([]), p + 1) else FieldsFrom(s, p, [])
  {
    hide SkipWs, FieldsFrom;
  }

  lemma DumpNoFields(depth: nat, tab: string)
    ensures DumpFields([], depth, tab) == ""
  {
  }

  /** Where the parts of a printed object are: the line break behind the fields
      and the closing brace. */
  lemma ObjectParts(fields: seq<Field>, depth: nat, tab: string, s: string, o: nat) returns (e: nat, c: nat)
    requires Blank(tab) && At(s, o, Dump(Object(fields), depth, tab))
    ensures At(s, o + 2, DumpFields(fields, depth, tab)) && e == o + 2 + |DumpFields(fields, depth, tab)|
    ensures o + 1 < |s| && s[o] == '{' && SkipWs(s, o) == o && SkipWs(s, o + 1) == SkipWs(s, o + 2)
    ensures e < c < |s| && s[e] == '\n' && SkipWs(s, e) == c && s[c] == '}'
    ensures c + 1 == o + |Dump(Object(fields), depth, tab)|
  {
    hide Pad, Erased, DumpFields, SkipWs;
    var d, w := DumpFields(fields, depth, tab), Erased(Pad(depth, tab));
    assert Dump(Object(fields), depth, tab) == "{\n" + d + "\n" + w + "}";
    hide Dump;
    e := o + 2 + |d|;
    c := e + 1 + |w|;
    BracedParts(s, o, d, w);
    ErasedBlank(depth, tab);
    hide At, Blank;
    SkipAll(s, e + 1, w);
    SkipOne(s, e);
    SkipNone(s, c);
    SkipNone(s, o);
    SkipOne(s, o + 1);
  }

  lemma BracedParts(s: string, o: nat, d: string, w: string)
    requires At(s, o, "{\n" + d + "\n" + w + "}")
    ensures var e := o + 2 + |d|;
            var c := e + 1 + |w|;
            && At(s, o + 2, d) && At(s, e + 1, w)
            && o + 1 < e < c < |s| && s[o] == '{' && s[o + 1] == '\n' && s[e] == '\n' && s[c] == '}'
  {
    hide At;
    var e := o + 2 + |d|;
    AtParts(s, o, "{\n" + d + "\n" + w, "}");
    AtParts(s, o, "{\n" + d + "\n", w);
    AtParts(s, o, "{\n" + d, "\n");
    AtParts(s, o, "{\n", d);
    assert "{\n" == "{" + "\n";
    AtParts(s, o, "{", "\n");
    AtChar(s, o, "{");
    AtChar(s, o + 1, "\n");
    AtChar(s, e, "\n");
    AtChar(s, e + 1 + |w|, "}");
  }

  lemma ErasedBlank(depth: nat, tab: string)
    requires Blank(tab)
    ensures Blank(Erased(Pad(depth, tab)))
  {
    PadBlank(depth, tab);
  }

  /** The first field starts with a quote, behind the padding. */
  lemma FieldsFirst(fields: seq<Field>, depth: nat, tab: string, s: string, o: nat)
    requires fields != [] && Blank(tab) && At(s, o, DumpFields(fields, depth, tab))
    ensures CharAt(s, SkipWs(s, o)) == '\"'
  {
    hide Dump, Pad;
    var pad, f := Pad(depth, tab), fields[0];
    var rest := f.key + "\" : " + Dump(f.value, depth + 1, tab);
    var more := if |fields| == 1 then "" else ",\n" + DumpFields(fields[1..], depth, tab);
    assert DumpFields(fields, depth, tab) == pad + ("\"" + rest + more);
    AtParts(s, o, pad, "\"" + rest + more);
    AtChar(s, o + |pad|, "\"" + rest + more);
    PadBlank(depth, tab);
    SkipAll(s, o, pad);
  }

  lemma SkipNone(s: string, e: nat)
    requires e < |s| && !IsSpace(s[e])
    ensures SkipWs(s, e) == e
  {
  }

  lemma SkipOne(s: string, e: nat)
    requires e < |s| && IsSpace(s[e])
    ensures SkipWs(s, e) == SkipWs(s, e + 1)
  {
  }

  ghost predicate FieldAt(s: string, o: nat, f: Field, e: nat) {
    var k := ParseNext(s, o);
    && k.Parsed? && k.at <= |s| && KeyText(k.value) == f.key
    && var colon := SkipWs(s, k.at);
       && CharAt(s, colon) == ':' && ParseNext(s, SkipWs(s, colon + 1)) == Parsed(f.value, e)
  }

  lemma MakeField(s: string, o: nat, x: string, k: nat, f: Field, e: nat)
    requires ParseNext(s, o) == Parsed(String(x), k) && Escape(x) == f.key && k + 2 <= |s|
    requires SkipWs(s, k) == k + 1 && s[k + 1] == ':' && ParseNext(s, SkipWs(s, k + 2)) == Parsed(f.value, e)
    ensures FieldAt(s, o, f, e)
  {
    hide ParseNext, SkipWs, Escape;
  }

  /** One turn of parse_object's loop. */
  lemma OneField(s: string, o: nat, f: Field, e: nat, acc: seq<Field>)
    requires FieldAt(s, o, f, e) && e <= |s|
    ensures var p := SkipWs(s, e);
            var fields := Insert(acc, f.key, f.value);
            && (CharAt(s, p) == ',' ==> FieldsFrom(s, o, acc) == FieldsFrom(s, p + 1, fields))
            && (CharAt(s, p) == '}' ==> FieldsFrom(s, o, acc) == Parsed(Object(fields), p + 1))
  {
    hide ParseNext, KeyText, Insert, SkipWs;
  }

  lemma FieldParts(pad: string, key: string, d: string, s: string, o: nat)
    requires At(s, o, pad + "\"" + key + "\" : " + d)
    ensures var q := o + |pad|;
            var k := q + |key| + 2;
            && At(s, o, pad) && At(s, q, "\"" + key + "\"") && At(s, k + 3, d)
            && k + 3 <= |s| && s[k] == ' ' && s[k + 1] == ':' && s[k + 2] == ' '
  {
    var text := "\"" + key + "\"";
    assert pad + "\"" + key + "\" : " + d == pad + (text + (" : " + d));
    AtParts(s, o, pad, text + (" : " + d));
    AtParts(s, o + |pad|, text, " : " + d);
    var k := o + |pad| + |text|;
    AtParts(s, k, " : ", d);
    assert s[k] == s[k..k + 3][0] && s[k + 1] == s[k..k + 3][1] && s[k + 2] == s[k..k + 3][2];
  }

  /** Key, colon and value of one field. */
  lemma {:induction false} FieldRead(f: Field, depth: nat, tab: string, s: string, o: nat)
    requires Blank(tab) && EscapedKey(f.key) && Valid(f.value) && Escaped(f.value)
    requires At(s, o, DumpField(f, depth, tab)) && Follows(f.value, s, o + |DumpField(f, depth, tab)|)
    ensures FieldAt(s, o, f, o + |DumpField(f, depth, tab)|)
    decreases f, 1
  {
    hide Dump, Pad, ParseNext, Escape, Valid, Escaped, EscapedKey, Unescape, FieldAt, SkipWs;
    var pad, d := Pad(depth, tab), Dump(f.value, depth + 1, tab);
    var x := Unescape(f.key);
    EscapeUnescape(f.key);
    FieldParts(pad, f.key, d, s, o);
    hide DumpField;
    var q := o + |pad|;
    var k := q + |f.key| + 2;
    PadBlank(depth, tab);
    SkipAll(s, o, pad);
    LeadingBlank(s, o);
    LeadingBlank(s, q);
    TextRead(x, s, q);
    SkipOne(s, k);
    SkipNone(s, k + 1);
    SkipOne(s, k + 2);
    LeadingBlank(s, k + 3);
    ValueRead(f.value, depth + 1, tab, s, k + 3);
    MakeField(s, o, x, k, f, o + |DumpField(f, depth, tab)|);
  }

  /** Fields that are printed so that they can be read. */
  ghost predicate AllGood(fields: seq<Field>) {
    forall f :: f in fields ==> EscapedKey(f.key) && Valid(f.value) && Escaped(f.value)
  }

  lemma FirstGood(fields: seq<Field>)
    requires AllGood(fields) && fields != []
    ensures AllGood(fields[1..])
    ensures EscapedKey(fields[0].key) && Valid(fields[0].value) && Escaped(fields[0].value)
  {
    hide EscapedKey, Valid, Escaped;
  }

  /** The end of the fields: a line break, and the brace that comes next. */
  predicate BraceAt(s: string, e: nat) {
    e < |s| && s[e] == '\n' && CharAt(s, SkipWs(s, e)) == '}'
  }

  lemma {:induction false} FieldsRead(fields: seq<Field>, depth: nat, tab: string, s: string, o: nat, acc: seq<Field>)
    requires fields != [] && Blank(tab) && Sorted(acc + fields) && AllGood(fields)
    requires At(s, o, DumpFields(fields, depth, tab)) && BraceAt(s, o + |DumpFields(fields, depth, tab)|)
    ensures FieldsFrom(s, o, acc)
         == Parsed(Object(acc + fields), SkipWs(s, o + |DumpFields(fields, depth, tab)|) + 1)
    decreases fields, 1
  {
    hide *;
    FirstInserted(acc, fields);
    FirstGood(fields);
    var f := fields[0];
    if |fields| == 1 {
      LastField(fields, depth, tab, s, o, acc);
    } else {
      var e, rest := o + |DumpField(f, depth, tab)|, DumpFields(fields[1..], depth, tab);
      MoreFields(fields, depth, tab);
      FieldAndComma(f, depth, tab, s, o, acc, rest);
      assert acc + fields == acc + [f] + fields[1..];
      FieldsRead(fields[1..], depth, tab, s, e + 2, acc + [f]);
    }
  }

  lemma MoreFields(fields: seq<Field>, depth: nat, tab: string)
    requires |fields| > 1
    ensures DumpFields(fields, depth, tab) ==
            DumpField(fields[0], depth, tab) + (",\n" + DumpFields(fields[1..], depth, tab))
    ensures |DumpFields(fields, depth, tab)| == |DumpField(fields[0], depth, tab)| + 2 + |DumpFields(fields[1..], depth, tab)|
  {
    hide DumpField;
  }

  /** The last field, and the brace behind it. */
  lemma LastField(fields: seq<Field>, depth: nat, tab: string, s: string, o: nat, acc: seq<Field>)
    requires |fields| == 1 && Blank(tab) && Insert(acc, fields[0].key, fields[0].value) == acc + [fields[0]]
    requires EscapedKey(fields[0].key) && Valid(fields[0].value) && Escaped(fields[0].value)
    requires At(s, o, DumpFields(fields, depth, tab)) && BraceAt(s, o + |DumpFields(fields, depth, tab)|)
    ensures FieldsFrom(s, o, acc)
         == Parsed(Object(acc + fields), SkipWs(s, o + |DumpFields(fields, depth, tab)|) + 1)
    decreases fields, 0
  {
    var f := fields[0];
    assert DumpFields(fields, depth, tab) == DumpField(f, depth, tab);
    hide DumpField, DumpFields, ParseNext, Valid, Escaped, EscapedKey, Insert, FieldsFrom, SkipWs, FieldAt, Blank, At;
    FieldRead(f, depth, tab, s, o);
    OneField(s, o, f, o + |DumpField(f, depth, tab)|, acc);
    assert acc + fields == acc + [f];
  }

  /** A field, and the comma and new line behind it. */
  lemma FieldAndComma(f: Field, depth: nat, tab: string, s: string, o: nat, acc: seq<Field>, rest: string)
    requires Blank(tab) && Insert(acc, f.key, f.value) == acc + [f]
    requires EscapedKey(f.key) && Valid(f.value) && Escaped(f.value)
    requires At(s, o, DumpField(f, depth, tab) + (",\n" + rest))
    ensures var e := o + |DumpField(f, depth, tab)|;
            At(s, e + 2, rest) && FieldsFrom(s, o, acc) == FieldsFrom(s, e + 2, acc + [f])
    decreases f, 2
  {
    hide DumpField, ParseNext, Valid, Escaped, EscapedKey, Insert, FieldsFrom, SkipWs, FieldAt, Blank;
    var d := DumpField(f, depth, tab);
    var e := o + |d|;
    AtParts(s, o, d, ",\n" + rest);
    AtParts(s, e, ",\n", rest);
    AtChar(s, e, ",\n");
    FieldRead(f, depth, tab, s, o);
    OneField(s, o, f, e, acc);
    SkipNone(s, e);
    LineAfter(s, e, acc + [f]);
  }

  lemma FirstInserted(acc: seq<Field>, fields: seq<Field>)
    requires fields != [] && Sorted(acc + fields)
    ensures Insert(acc, fields[0].key, fields[0].value) == acc + [fields[0]]
  {
    var f := fields[0];
    forall g | g in acc ensures Less(g.key, f.key) {
      var i :| 0 <= i < |acc| && acc[i] == g;
      assert (acc + fields)[i] == g && (acc + fields)[|acc|] == f;
    }
    hide Less, Insert;
    InsertLast(acc, f.key, f.value);
  }

  lemma LineAfter(s: string, e: nat, acc: seq<Field>)
    requires At(s, e, ",\n")
    ensures FieldsFrom(s, e + 1, acc) == FieldsFrom(s, e + 2, acc)
  {
    assert s[e + 1] == s[e..e + 2][1];
    assert SkipWs(s, e + 1) == SkipWs(s, e + 2);
    LeadingBlank(s, e + 1);
    LeadingBlank(s, e + 2);
    hide FieldsFrom, ParseNext, SkipWs;
  }

  // ---------- What loading produces ----------

  ghost predicate Good(v: Json) {
    Valid(v) && Escaped(v)
  }

  lemma {:induction false} InsertGood(fields: seq<Field>, key: Json, v: Json)
    requires Good(Object(fields)) && Good(v)
    ensures Good(Object(Insert(fields, KeyText(key), v)))
  {
    InsertIsUpdate(fields, KeyText(key), v);
    if key.String? {
      EscapeIsEscaped(key.text);
    }
    hide Insert, KeyText, EscapedKey;
  }

  /** Every loaded value has ordered fields, 64-bit numbers and escaped keys. */
  lemma {:induction false} LoadedGood(s: string, o: nat)
    ensures ParseNext(s, o).Parsed? ==> Good(ParseNext(s, o).value)
    decreases |s| + 2 - o, 1
  {
    hide StringFrom, NumberEnd, SkipWs, Strtoull, ItemsFrom, FieldsFrom, Substr;
    if o <= |s| {
      var p := SkipWs(s, o);
      var c := CharAt(s, p);
      if c == '[' {
        var q := SkipWs(s, p + 1);
        LoadedItemsGood(s, q, []);
      } else if c == '{' {
        var q := SkipWs(s, p + 1);
        LoadedFieldsGood(s, q, []);
      } else if c == '\"' {
        LoadedString(s, p + 1, "");
      }
    }
  }

  lemma {:induction false} LoadedString(s: string, o: nat, val: string)
    ensures StringFrom(s, o, val).Parsed? ==> StringFrom(s, o, val).value.String?
    decreases |s| + 2 - o
  {
    if o <= |s| && CharAt(s, o) != '\"' {
      if CharAt(s, o) != '\\' {
        LoadedString(s, o + 1, val + [CharAt(s, o)]);
      } else {
        var e := CharAt(s, o + 1);
        if Simple(e) {
          LoadedString(s, o + 2, val + [Unescaped(e)]);
        } else if e != 'u' {
          LoadedString(s, o + 2, val + "\\");
        } else if Hex4(s, o + 2) {
          LoadedString(s, o + 6, val + "\\u" + s[o + 2..o + 6]);
        }
      }
    }
  }

  lemma {:induction false} LoadedItemsGood(s: string, o: nat, items: seq<Json>)
    requires Good(Array(items))
    ensures ItemsFrom(s, o, items).Parsed? ==> Good(ItemsFrom(s, o, items).value)
    decreases |s| + 2 - o, 2
  {
    hide ParseNext, SkipWs;
    var v := ParseNext(s, o);
    LoadedGood(s, o);
    if v.Parsed? && v.at <= |s| {
      var p := SkipWs(s, v.at);
      if CharAt(s, p) == ',' {
        LoadedItemsGood(s, p + 1, items + [v.value]);
      }
    }
  }

  lemma {:induction false} LoadedFieldsGood(s: string, o: nat, fields: seq<Field>)
    requires Good(Object(fields))
    ensures FieldsFrom(s, o, fields).Parsed? ==> Good(FieldsFrom(s, o, fields).value)
    decreases |s| + 2 - o, 2
  {
    hide ParseNext, SkipWs, Valid, Escaped, Insert, KeyText;
    var k := ParseNext(s, o);
    if k.Parsed? && k.at <= |s| {
      var colon := SkipWs(s, k.at);
      if CharAt(s, colon) == ':' {
        var q := SkipWs(s, colon + 1);
        var v := ParseNext(s, q);
        if v.Parsed? && v.at <= |s| {
          LoadedGood(s, q);
          InsertGood(fields, k.value, v.value);
          var p := SkipWs(s, v.at);
          if CharAt(s, p) == ',' {
            LoadedFieldsGood(s, p + 1, Insert(fields, KeyText(k.value), v.value));
          }
        }
      }
    }
  }

  // ---------- The round trips ----------

  /** A printed value is loaded again, and the whole text read, if and only if it
      is no number and its keys are in escaped form. */
  lemma DumpThenLoad(v: Json, depth: nat, tab: string)
    requires Valid(v) && Blank(tab)
    ensures var d := Dump(v, depth, tab);
            && (Load(d).Parsed? && Load(d).value == v <==> !v.Integral? && Escaped(v))
            && (!v.Integral? && Escaped(v) ==> Load(d).at == |d|)
  {
    hide Dump, ParseNext, Valid, Escaped;
    var d := Dump(v, depth, tab);
    LoadedGood(d, 0);
    if v.Integral? {
      BareNumber(v.number, depth, tab);
    } else if Escaped(v) {
      ValueRead(v, depth, tab, d, 0);
    }
  }

  /** A number that no character follows is not read as one. */
  lemma BareNumber(n: nat, depth: nat, tab: string)
    ensures Load(Dump(Integral(n), depth, tab)) == Parsed(Null, |Decimal(n)| + 1)
  {
    hide Decimal, Strtoull, NumberEnd;
    NumberAt(Decimal(n), 0, n);
  }

  /** What was loaded from any text is found again after printing it, unless it
      is a lone number. */
  lemma LoadThenDumpThenLoad(t: string, depth: nat, tab: string)
    requires Load(t).Parsed? && Blank(tab)
    ensures var v := Load(t).value;
            var d := Dump(v, depth, tab);
            !v.Integral? <==> Load(d) == Parsed(v, |d|)
  {
    hide Dump, ParseNext, Valid, Escaped;
    LoadedGood(t, 0);
    DumpThenLoad(Load(t).value, depth, tab);
  }
}
