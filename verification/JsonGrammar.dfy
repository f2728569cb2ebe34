/** Texts of the JSON grammar (RFC 8259), written by anybody, and what the parser reads
    in them. Numbers are decimal digits, below 2^64. */
module JsonGrammar {
  import opened JsonText
  import opened JsonParser
  import opened JsonRoundTrip
  import opened Texts

  // ---------- Strings ----------

  /** The two-character escapes of section 7, by code point. */
  predicate Escapes(e: char, code: nat) {
    || (e == '\"' && code == 0x22) || (e == '\\' && code == 0x5C) || (e == '/' && code == 0x2F)
    || (e == 'b' && code == 0x08) || (e == 'f' && code == 0x0C) || (e == 'n' && code == 0x0A)
    || (e == 'r' && code == 0x0D) || (e == 't' && code == 0x09)
  }

  /** "\u" and four hexadecimal digits. */
  ghost predicate IsUnicode(t: string) {
    && |t| >= 6 && t[0] == '\\' && t[1] == 'u'
    && forall k :: 2 <= k < 6 ==> IsDigitOf(t[k])
  }

  /** What stands between two quotes, and the string that the parser makes of it: every
      character is itself, an escape its code point, and a unicode escape stays as it is
      written. */
  ghost predicate Spells(t: string, x: string)
    decreases |t|
  {
    if t == "" then x == ""
    else if IsUnicode(t) then |x| >= 6 && x[..6] == t[..6] && Spells(t[6..], x[6..])
    else if t[0] == '\\' then |t| >= 2 && x != "" && Escapes(t[1], x[0] as int) && Spells(t[2..], x[1..])
    else t[0] != '\"' && x != "" && x[0] == t[0] && Spells(t[1..], x[1..])
  }

  lemma EscapeMeans(e: char, c: char)
    requires Escapes(e, c as int)
    ensures Simple(e) && Unescaped(e) == c
  {
  }

  lemma HexDigits(d: char)
    ensures IsHex(d) <==> IsDigitOf(d)
  {
    if '0' <= d <= '9' {
      assert StandsFor(d, d as int - '0' as int);
    } else if 'a' <= d <= 'f' {
      assert StandsFor(d, d as int - 'a' as int + 10);
    } else if 'A' <= d <= 'F' {
      assert StandsFor(d, d as int - 'A' as int + 10);
    }
  }

  /** One piece of a string's text is read as what it spells. */
  lemma UnicodeRead(s: string, o: nat, t: string, rest: string, val: string)
    requires IsUnicode(t) && At(s, o, t + rest)
    ensures StringFrom(s, o, val) == StringFrom(s, o + 6, val + t[..6]) && At(s, o + 6, t[6..] + rest)
  {
    HexDigits(t[2]);
    HexDigits(t[3]);
    HexDigits(t[4]);
    HexDigits(t[5]);
    var piece := t[..6];
    assert t + rest == piece + (t[6..] + rest);
    AtParts(s, o, piece, t[6..] + rest);
    assert s[o] == s[o..o + 6][0] && s[o + 1] == s[o..o + 6][1];
    assert s[o + 2] == s[o..o + 6][2] && s[o + 3] == s[o..o + 6][3];
    assert s[o + 4] == s[o..o + 6][4] && s[o + 5] == s[o..o + 6][5];
    hide IsHex, IsDigitOf;
    assert piece == "\\u" + s[o + 2..o + 6];
    assert val + "\\u" + s[o + 2..o + 6] == val + piece;
  }

  lemma EscapeRead(s: string, o: nat, t: string, c: char, rest: string, val: string)
    requires |t| >= 2 && t[0] == '\\' && Escapes(t[1], c as int) && At(s, o, t + rest)
    ensures StringFrom(s, o, val) == StringFrom(s, o + 2, val + [c]) && At(s, o + 2, t[2..] + rest)
  {
    var piece := t[..2];
    assert t + rest == piece + (t[2..] + rest);
    AtParts(s, o, piece, t[2..] + rest);
    assert s[o] == s[o..o + 2][0] && s[o + 1] == s[o..o + 2][1];
    EscapeMeans(t[1], c);
    hide Simple, Unescaped;
  }

  lemma CharRead(s: string, o: nat, t: string, rest: string, val: string)
    requires t != "" && t[0] != '\\' && t[0] != '\"' && At(s, o, t + rest)
    ensures StringFrom(s, o, val) == StringFrom(s, o + 1, val + [t[0]]) && At(s, o + 1, t[1..] + rest)
  {
    assert t + rest == [t[0]] + (t[1..] + rest);
    AtParts(s, o, [t[0]], t[1..] + rest);
    AtChar(s, o, [t[0]]);
  }

  /** Every spelling of every string is read as the string, up to its quote. */
  lemma {:induction false} StringSpelled(s: string, o: nat, t: string, x: string, val: string)
    requires At(s, o, t + "\"") && Spells(t, x)
    ensures StringFrom(s, o, val) == Parsed(String(val + x), o + |t| + 1)
    decreases |t|
  {
    hide IsUnicode, Escapes, StringFrom;
    if t == "" {
      assert t + "\"" == "\"" && val + x == val;
      AtChar(s, o, "\"");
      QuoteRead(s, o, val);
    } else if IsUnicode(t) {
      UnicodeLength(t);
      UnicodeRead(s, o, t, "\"", val);
      StringSpelled(s, o + 6, t[6..], x[6..], val + x[..6]);
      assert val + x[..6] + x[6..] == val + x;
    } else if t[0] == '\\' {
      EscapeRead(s, o, t, x[0], "\"", val);
      StringSpelled(s, o + 2, t[2..], x[1..], val + [x[0]]);
      assert val + [x[0]] + x[1..] == val + x;
    } else {
      CharRead(s, o, t, "\"", val);
      StringSpelled(s, o + 1, t[1..], x[1..], val + [x[0]]);
      assert val + [x[0]] + x[1..] == val + x;
    }
  }

  lemma UnicodeLength(t: string)
    requires IsUnicode(t)
    ensures |t| >= 6
  {
  }

  lemma QuoteRead(s: string, o: nat, val: string)
    requires o < |s| && s[o] == '\"'
    ensures StringFrom(s, o, val) == Parsed(String(val), o + 1)
  {
  }

  /** The printer's form of a string without unicode escapes is one of its spellings. */
  lemma {:induction false} EscapeSpells(x: string)
    requires forall k :: 0 <= k < |x| ==> x[k] != '\\'
    ensures Spells(Escape(x), x)
  {
    if x == "" {
    } else {
      EscapeSpells(x[1..]);
      var e := EscapeChar(x[0]);
      assert Escape(x) == e + Escape(x[1..]);
      assert Escape(x)[|e|..] == Escape(x[1..]);
    }
  }

  // ---------- Unicode escapes ----------

  /** The code that four hexadecimal digits are. */
  ghost predicate CodeIs(t: string, code: nat)
    requires |t| >= 6
  {
    exists a: nat, b: nat, c: nat, d: nat ::
      && StandsFor(t[2], a) && StandsFor(t[3], b) && StandsFor(t[4], c) && StandsFor(t[5], d)
      && code == 4096 * a + 256 * b + 16 * c + d
  }

  /** The codes that a string's text denotes by section 7. */
  ghost predicate Denotes(t: string, codes: seq<nat>)
    decreases |t|
  {
    if t == "" then codes == []
    else if IsUnicode(t) then codes != [] && CodeIs(t, codes[0]) && Denotes(t[6..], codes[1..])
    else if t[0] == '\\' then |t| >= 2 && codes != [] && Escapes(t[1], codes[0]) && Denotes(t[2..], codes[1..])
    else t[0] != '\"' && codes != [] && codes[0] == t[0] as int && Denotes(t[1..], codes[1..])
  }

  /** How many unicode escapes a text has. */
  ghost function Unicodes(t: string): nat {
    if t == "" then 0
    else if IsUnicode(t) then 1 + Unicodes(t[6..])
    else if t[0] == '\\' && |t| >= 2 then Unicodes(t[2..])
    else Unicodes(t[1..])
  }

  predicate SameCodes(x: string, codes: seq<nat>) {
    |x| == |codes| && forall k :: 0 <= k < |x| ==> x[k] as int == codes[k]
  }

  lemma {:induction false} UnicodesCounted(t: string, x: string, codes: seq<nat>)
    requires Spells(t, x) && Denotes(t, codes)
    ensures |x| == |codes| + 5 * Unicodes(t) && (Unicodes(t) == 0 ==> SameCodes(x, codes))
    decreases |t|
  {
    if t == "" {
    } else if IsUnicode(t) {
      UnicodesCounted(t[6..], x[6..], codes[1..]);
    } else {
      var n := if t[0] == '\\' then 2 else 1;
      UnicodesCounted(t[n..], x[1..], codes[1..]);
      OneCode(t, x[0], codes[0]);
      forall k | Unicodes(t) == 0 && 0 <= k < |x| ensures x[k] as int == codes[k] {
        if k > 0 {
          assert x[1..][k - 1] as int == codes[1..][k - 1];
        }
      }
    }
  }

  lemma OneCode(t: string, c: char, code: nat)
    requires t != "" && !IsUnicode(t)
    requires if t[0] == '\\' then |t| >= 2 && Escapes(t[1], c as int) && Escapes(t[1], code) else c == t[0] && code == t[0] as int
    ensures c as int == code
  {
    hide IsUnicode;
  }

  /** The string read has the codes that its text denotes if and only if no code is
      written as a unicode escape. */
  lemma UnicodeExactly(t: string, x: string, codes: seq<nat>)
    requires Spells(t, x) && Denotes(t, codes)
    ensures SameCodes(x, codes) <==> Unicodes(t) == 0
  {
    hide Spells, Denotes, Unicodes;
    UnicodesCounted(t, x, codes);
  }

  /** For example, "\\u0041" denotes an A, and is read as these six characters. */
  lemma UnicodeKept(s: string, o: nat)
    requires At(s, o, "\\u0041\"")
    ensures Denotes("\\u0041", [0x41]) && StringFrom(s, o, "") == Parsed(String("\\u0041"), o + 7)
  {
    EscapedA();
    hide *;
    assert "\\u0041" + "\"" == "\\u0041\"" && "" + "\\u0041" == "\\u0041";
    StringSpelled(s, o, "\\u0041", "\\u0041", "");
  }

  lemma EscapedA()
    ensures Denotes("\\u0041", [0x41]) && Spells("\\u0041", "\\u0041")
  {
    var t := "\\u0041";
    assert StandsFor('0', 0) && StandsFor('4', 4) && StandsFor('1', 1);
    hide StandsFor;
    assert IsUnicode(t);
    assert 0x41 == 4096 * 0 + 256 * 0 + 16 * 4 + 1 && t[2] == '0' && t[3] == '0' && t[4] == '4' && t[5] == '1';
    assert CodeIs(t, 0x41);
    hide IsUnicode, CodeIs;
    assert t[6..] == "" && t[..6] == t && [0x41][1..] == [];
  }

  // ---------- Values ----------

  /** The blanks of section 2. */
  predicate Blanks(w: string) {
    forall k :: 0 <= k < |w| ==> w[k] == ' ' || w[k] == '\t' || w[k] == '\n' || w[k] == '\r'
  }

  /** A text taken apart: any blanks may stand between its tokens. */
  datatype Tree =
    | NullWord
    | BoolWord(flag: bool)
    | Digits(digits: string)
    | Quoted(spelling: string, text: string)
    | Bracketed(blanks: string, items: seq<Item>)
    | Braced(blanks: string, members: seq<Member>)

  datatype Item = Item(before: string, tree: Tree, after: string)

  datatype Member = Member(before: string, spelling: string, key: string, behindKey: string, value: Item)

  ghost predicate WellFormed(t: Tree)
    decreases t
  {
    match t
    case NullWord => true
    case BoolWord(_) => true
    case Digits(d) => d != "" && (forall k :: 0 <= k < |d| ==> '0' <= d[k] <= '9') && Number(d) < UINT64
    case Quoted(spelling, text) => Spells(spelling, text)
    case Bracketed(blanks, items) =>
      Blanks(blanks)
      && forall i :: i in items ==> Blanks(i.before) && WellFormed(i.tree) && Blanks(i.after)
    case Braced(blanks, members) =>
      Blanks(blanks)
      && forall m :: m in members ==>
           && Blanks(m.before) && Spells(m.spelling, m.key) && Blanks(m.behindKey)
           && Blanks(m.value.before) && WellFormed(m.value.tree) && Blanks(m.value.after)
  }

  /** The number that decimal digits are. */
  function Number(d: string): nat
    requires forall k :: 0 <= k < |d| ==> '0' <= d[k] <= '9'
  {
    if d == "" then 0 else 10 * Number(d[..|d| - 1]) + (d[|d| - 1] as int - '0' as int)
  }

  function TextOf(t: Tree): string
    decreases t
  {
    match t
    case NullWord => "null"
    case BoolWord(flag) => if flag then "true" else "false"
    case Digits(d) => d
    case Quoted(spelling, _) => "\"" + (spelling + "\"")
    case Bracketed(blanks, items) => "[" + (if items == [] then blanks + "]" else ItemsText(items))
    case Braced(blanks, members) => "{" + (if members == [] then blanks + "}" else MembersText(members))
  }

  /** Items with the comma or bracket behind each. */
  function ItemsText(items: seq<Item>): string
    decreases items
  {
    if items == [] then ""
    else
      items[0].before + (TextOf(items[0].tree) + (items[0].after +
        (if |items| == 1 then "]" else "," + ItemsText(items[1..]))))
  }

  function MembersText(members: seq<Member>): string
    decreases members
  {
    if members == [] then ""
    else
      var m := members[0];
      m.before + ("\"" + (m.spelling + ("\"" + (m.behindKey + (":" + (m.value.before + (TextOf(m.value.tree) +
        (m.value.after + (if |members| == 1 then "}" else "," + MembersText(members[1..]))))))))))
  }

  /** What the text says; of several members with one key the last counts, and a key is
      kept in its printed form. */
  function ValueOf(t: Tree): Json
    requires WellFormed(t)
    decreases t
  {
    match t
    case NullWord => Null
    case BoolWord(flag) => Boolean(flag)
    case Digits(d) => Integral(Number(d))
    case Quoted(_, text) => String(text)
    case Bracketed(_, items) => Array(ItemValues(items))
    case Braced(_, members) => Object(MemberFields([], members))
  }

  function ItemValues(items: seq<Item>): seq<Json>
    requires forall i :: i in items ==> WellFormed(i.tree)
    decreases items
  {
    if items == [] then [] else [ValueOf(items[0].tree)] + ItemValues(items[1..])
  }

  function MemberFields(fields: seq<Field>, members: seq<Member>): seq<Field>
    requires forall m :: m in members ==> WellFormed(m.value.tree)
    decreases members
  {
    if members == [] then fields
    else MemberFields(Insert(fields, Escape(members[0].key), ValueOf(members[0].value.tree)), members[1..])
  }

  // ---------- Reading ----------

  lemma SkipBlanks(s: string, o: nat, w: string)
    requires At(s, o, w) && Blanks(w)
    ensures SkipWs(s, o) == SkipWs(s, o + |w|) && ParseNext(s, o) == ParseNext(s, o + |w|)
  {
    SkipAll(s, o, w);
    LeadingBlankNext(s, o);
    LeadingBlankNext(s, o + |w|);
  }

  /** Blanks, and then a character that is none. */
  lemma SkipTo(s: string, o: nat, w: string, c: char, rest: string)
    requires At(s, o, w + ([c] + rest)) && Blanks(w) && !IsSpace(c)
    ensures SkipWs(s, o) == o + |w| < |s| && s[o + |w|] == c && At(s, o + |w| + 1, rest)
  {
    AtParts(s, o, w, [c] + rest);
    AtParts(s, o + |w|, [c], rest);
    AtChar(s, o + |w|, [c]);
    SkipBlanks(s, o, w);
  }

  lemma {:induction false} DigitsValue(d: string)
    requires forall k :: 0 <= k < |d| ==> '0' <= d[k] <= '9'
    ensures LeadingValue(d, 0) == Number(d)
  {
    if d == "" {
    } else {
      var init, last := d[..|d| - 1], d[|d| - 1];
      DigitsValue(init);
      assert last == Digit(last as int - '0' as int) && d == init + [last];
      LeadingSnoc(init, last as int - '0' as int, 0);
    }
  }

  lemma DigitsRead(s: string, o: nat, d: string)
    requires WellFormed(Digits(d)) && At(s, o, d) && o + |d| < |s| && EndsNumber(s[o + |d|])
    ensures ParseNext(s, o) == Parsed(Integral(Number(d)), o + |d|)
  {
    DigitsValue(d);
    assert forall k :: 0 <= k < |d| ==> s[o + k] == s[o..o + |d|][k] == d[k];
    forall k | o <= k < o + |d| ensures InNumber(s[k]) && s[k] != '.' {
      assert s[k] == s[o + (k - o)];
    }
    NumberEnds(s, o, o + |d|);
    assert s[o] == d[0] && SkipWs(s, o) == o && d[0] != '-';
    hide LeadingValue, Number, NumberEnd, SkipWs;
  }

  lemma WordRead(s: string, o: nat, t: Tree)
    requires (t.NullWord? || t.BoolWord?) && At(s, o, TextOf(t))
    ensures ParseNext(s, o) == Parsed(ValueOf(t), o + |TextOf(t)|)
  {
    var d := TextOf(t);
    AtChar(s, o, d);
    assert SkipWs(s, o) == o;
    assert Substr(s, o, |d|) == d;
    if t == BoolWord(false) {
      assert Substr(s, o, 4)[0] == 'f';
    }
  }

  lemma QuotedRead(s: string, o: nat, spelling: string, x: string)
    requires At(s, o, "\"" + (spelling + "\"")) && Spells(spelling, x)
    ensures ParseNext(s, o) == Parsed(String(x), o + |spelling| + 2)
  {
    hide *;
    AtParts(s, o, "\"", spelling + "\"");
    AtChar(s, o, "\"");
    StringSpelled(s, o + 1, spelling, x, "");
    assert "" + x == x;
    StringNext(s, o);
  }

  lemma StringNext(s: string, o: nat)
    requires o < |s| && s[o] == '\"'
    ensures ParseNext(s, o) == StringFrom(s, o + 1, "")
  {
    hide StringFrom;
    assert SkipWs(s, o) == o;
  }

  /** What may follow a text: something that ends a number. */
  predicate Ended(t: Tree, s: string, e: nat) {
    t.Digits? ==> e < |s| && EndsNumber(s[e])
  }

  lemma EndedBy(s: string, e: nat, after: string, c: char, rest: string)
    requires At(s, e, after + ([c] + rest)) && Blanks(after) && (c == ',' || c == ']' || c == '}')
    ensures e < |s| && EndsNumber(s[e]) && forall t :: Ended(t, s, e)
  {
    assert (after + ([c] + rest))[0] == if after == "" then c else after[0];
    AtChar(s, e, after + ([c] + rest));
  }

  /** Every text of the grammar, with any blanks between its tokens and any spelling of
      its strings, is read as what it says, up to its end. */
  lemma {:induction false} TreeRead(t: Tree, s: string, o: nat)
    requires WellFormed(t) && At(s, o, TextOf(t)) && Ended(t, s, o + |TextOf(t)|)
    ensures ParseNext(s, o) == Parsed(ValueOf(t), o + |TextOf(t)|)
    decreases t, 2
  {
    match t
    case NullWord => WordRead(s, o, t);
    case BoolWord(_) => WordRead(s, o, t);
    case Digits(d) => DigitsRead(s, o, d);
    case Quoted(spelling, text) => QuotedRead(s, o, spelling, text);
    case Bracketed(_, _) => BracketedRead(t, s, o);
    case Braced(_, _) => BracedTreeRead(t, s, o);
  }

  lemma TreeParts(t: Tree)
    requires WellFormed(t)
    ensures t.Bracketed? ==> TextOf(t) == "[" + (if t.items == [] then t.blanks + "]" else ItemsText(t.items))
    ensures t.Bracketed? ==> ValueOf(t) == Array(ItemValues(t.items)) && Blanks(t.blanks)
    ensures t.Braced? ==> TextOf(t) == "{" + (if t.members == [] then t.blanks + "}" else MembersText(t.members))
    ensures t.Braced? ==> ValueOf(t) == Object(MemberFields([], t.members)) && Blanks(t.blanks)
  {
  }

  lemma OpenRead(s: string, o: nat, c: char, rest: string)
    requires At(s, o, [c] + rest) && (c == '[' || c == '{')
    ensures o < |s| && s[o] == c && At(s, o + 1, rest) && SkipWs(s, o) == o
    ensures var p := SkipWs(s, o + 1);
            && (c == '[' ==> ParseNext(s, o) == if CharAt(s, p) == ']' then Parsed(Array([]), p + 1)
                                                else ItemsFrom(s, o + 1, []))
            && (c == '{' ==> ParseNext(s, o) == if CharAt(s, p) == '}' then Parsed(Object([]), p + 1)
                                                else FieldsFrom(s, o + 1, []))
  {
    AtParts(s, o, [c], rest);
    AtChar(s, o, [c]);
    assert SkipWs(s, o) == o;
    LeadingBlank(s, o + 1);
    hide SkipWs, ItemsFrom, FieldsFrom;
  }

  lemma {:induction false} BracketedRead(t: Tree, s: string, o: nat)
    requires t.Bracketed? && WellFormed(t) && At(s, o, TextOf(t))
    ensures ParseNext(s, o) == Parsed(ValueOf(t), o + |TextOf(t)|)
    decreases t, 1
  {
    hide *;
    TreeParts(t);
    if t.items == [] {
      OpenRead(s, o, '[', t.blanks + "]");
      assert t.blanks + "]" == t.blanks + ([']'] + "");
      CharThere(s, o);
      SkipTo(s, o + 1, t.blanks, ']', "");
      CharThere(s, o + 1 + |t.blanks|);
      NoItems();
    } else {
      OpenRead(s, o, '[', ItemsText(t.items));
      ItemsFormed(t);
      NotClosed(t.items, s, o + 1);
      ItemsRead(t.items, s, o + 1, []);
      assert [] + ItemValues(t.items) == ItemValues(t.items);
    }
  }

  lemma CharThere(s: string, o: nat)
    requires o < |s|
    ensures CharAt(s, o) == s[o] && !IsSpace(']') && !IsSpace('}') && !IsSpace(',') && !IsSpace(':') && !IsSpace('\"')
  {
  }

  lemma NoItems()
    ensures ItemValues([]) == [] && MemberFields([], []) == []
  {
  }

  ghost predicate GoodItem(i: Item) {
    Blanks(i.before) && WellFormed(i.tree) && Blanks(i.after)
  }

  ghost predicate GoodItems(items: seq<Item>) {
    forall i :: i in items ==> GoodItem(i)
  }

  lemma ItemsFormed(t: Tree)
    requires t.Bracketed? && WellFormed(t)
    ensures GoodItems(t.items) && forall i :: i in t.items ==> WellFormed(i.tree)
  {
  }

  lemma FirstItem(items: seq<Item>)
    requires items != [] && GoodItems(items)
    ensures forall i :: i in items ==> WellFormed(i.tree)
    ensures var i := items[0];
            && GoodItem(i) && Blanks(i.before) && WellFormed(i.tree) && Blanks(i.after) && GoodItems(items[1..])
            && ItemsText(items) ==
               i.before + (TextOf(i.tree) + (i.after + (if |items| == 1 then "]" else "," + ItemsText(items[1..]))))
            && ItemValues(items) == [ValueOf(i.tree)] + ItemValues(items[1..])
  {
    assert items[0] in items;
  }

  lemma NotClosed(items: seq<Item>, s: string, o: nat)
    requires items != [] && GoodItems(items) && At(s, o, ItemsText(items))
    ensures o <= |s| && CharAt(s, SkipWs(s, o)) != ']'
  {
    hide *;
    FirstItem(items);
    var i := items[0];
    var rest := i.after + (if |items| == 1 then "]" else "," + ItemsText(items[1..]));
    FirstOfTree(i.tree);
    var d := TextOf(i.tree);
    assert d + rest == [d[0]] + (d[1..] + rest);
    SkipTo(s, o, i.before, d[0], d[1..] + rest);
    CharThere(s, o + |i.before|);
  }

  lemma FirstOfTree(t: Tree)
    requires WellFormed(t)
    ensures var d := TextOf(t); d != "" && !IsSpace(d[0]) && d[0] != ']' && d[0] != '}'
  {
    hide ItemsText, MembersText;
  }

  lemma ItemHas(i: Item)
    requires GoodItem(i)
    ensures Blanks(i.before) && WellFormed(i.tree) && Blanks(i.after)
  {
  }

  /** Where the parts of an item are, and what ends it. */
  lemma ItemPlaced(i: Item, c: char, rest: string, s: string, o: nat)
    requires GoodItem(i) && At(s, o, i.before + (TextOf(i.tree) + (i.after + ([c] + rest))))
    requires c == ',' || c == ']' || c == '}'
    ensures var p := o + |i.before|;
            var e := p + |TextOf(i.tree)|;
            && At(s, p, TextOf(i.tree)) && Ended(i.tree, s, e)
            && ParseNext(s, o) == ParseNext(s, p) && SkipWs(s, o) == SkipWs(s, p)
            && SkipWs(s, e) == e + |i.after| < |s| && s[e + |i.after|] == c && At(s, e + |i.after| + 1, rest)
  {
    var d := TextOf(i.tree);
    hide *;
    ItemHas(i);
    AtParts(s, o, i.before, d + (i.after + ([c] + rest)));
    AtParts(s, o + |i.before|, d, i.after + ([c] + rest));
    SkipBlanks(s, o, i.before);
    EndedBy(s, o + |i.before| + |d|, i.after, c, rest);
    CharThere(s, 0);
    SkipTo(s, o + |i.before| + |d|, i.after, c, rest);
  }

  /** The loop over items. */
  lemma {:induction false} ItemsRead(items: seq<Item>, s: string, o: nat, acc: seq<Json>)
    requires items != [] && GoodItems(items) && At(s, o, ItemsText(items))
    ensures ItemsFrom(s, o, acc) == Parsed(Array(acc + ItemValues(items)), o + |ItemsText(items)|)
    decreases items, 1
  {
    hide *;
    FirstItem(items);
    assert forall i :: i in items[1..] ==> i in items;
    var i := items[0];
    var c := if |items| == 1 then ']' else ',';
    var rest := if |items| == 1 then "" else ItemsText(items[1..]);
    assert (if |items| == 1 then "]" else "," + ItemsText(items[1..])) == [c] + rest;
    ItemPlaced(i, c, rest, s, o);
    var p := o + |i.before|;
    var e := p + |TextOf(i.tree)|;
    var v := ValueOf(i.tree);
    TreeRead(i.tree, s, p);
    OneItemRead(s, o, acc, v, e, e + |i.after|);
    if |items| == 1 {
      NoItems();
      assert items[1..] == [] && acc + ([v] + []) == acc + [v];
    } else {
      ItemsRead(items[1..], s, e + |i.after| + 1, acc + [v]);
      assert acc + ([v] + ItemValues(items[1..])) == acc + [v] + ItemValues(items[1..]);
    }
  }

  lemma OneItemRead(s: string, o: nat, acc: seq<Json>, v: Json, e: nat, p: nat)
    requires ParseNext(s, o) == Parsed(v, e) && e <= p < |s| && SkipWs(s, e) == p && (s[p] == ',' || s[p] == ']')
    ensures ItemsFrom(s, o, acc) ==
            if s[p] == ',' then ItemsFrom(s, p + 1, acc + [v]) else Parsed(Array(acc + [v]), p + 1)
  {
    hide ParseNext, SkipWs;
  }

  lemma {:induction false} BracedTreeRead(t: Tree, s: string, o: nat)
    requires t.Braced? && WellFormed(t) && At(s, o, TextOf(t))
    ensures ParseNext(s, o) == Parsed(ValueOf(t), o + |TextOf(t)|)
    decreases t, 1
  {
    hide *;
    TreeParts(t);
    if t.members == [] {
      OpenRead(s, o, '{', t.blanks + "}");
      assert t.blanks + "}" == t.blanks + (['}'] + "");
      CharThere(s, o);
      SkipTo(s, o + 1, t.blanks, '}', "");
      CharThere(s, o + 1 + |t.blanks|);
      NoItems();
    } else {
      OpenRead(s, o, '{', MembersText(t.members));
      MembersFormed(t);
      QuoteFirst(t.members, s, o + 1);
      MembersRead(t.members, s, o + 1, []);
    }
  }

  ghost predicate GoodMember(m: Member) {
    Blanks(m.before) && Spells(m.spelling, m.key) && Blanks(m.behindKey) && GoodItem(m.value)
  }

  ghost predicate GoodMembers(members: seq<Member>) {
    forall m :: m in members ==> GoodMember(m)
  }

  lemma MembersFormed(t: Tree)
    requires t.Braced? && WellFormed(t)
    ensures GoodMembers(t.members)
  {
  }

  function KeyTextOf(m: Member, tail: string): string {
    m.before + (['\"'] + (m.spelling + ("\"" + (m.behindKey + ([':'] + tail)))))
  }

  function ValueTail(m: Member, tail: string): string {
    m.value.before + (TextOf(m.value.tree) + (m.value.after + tail))
  }

  lemma FirstMember(members: seq<Member>)
    requires members != [] && GoodMembers(members)
    ensures var m := members[0];
            && GoodMember(m) && GoodItem(m.value) && WellFormed(m.value.tree) && GoodMembers(members[1..])
            && MembersText(members) ==
               KeyTextOf(m, ValueTail(m, if |members| == 1 then "}" else "," + MembersText(members[1..])))
    ensures forall fields :: MemberFields(fields, members) ==
              MemberFields(Insert(fields, Escape(members[0].key), ValueOf(members[0].value.tree)), members[1..])
  {
    assert members[0] in members;
    hide TextOf, ValueOf, Insert, Escape, Spells;
  }

  lemma QuoteFirst(members: seq<Member>, s: string, o: nat)
    requires members != [] && GoodMembers(members) && At(s, o, MembersText(members))
    ensures o <= |s| && CharAt(s, SkipWs(s, o)) == '\"'
  {
    FirstMember(members);
    var m := members[0];
    var tail := ValueTail(m, if |members| == 1 then "}" else "," + MembersText(members[1..]));
    hide MembersText, SkipWs, At, Spells, WellFormed;
    SkipTo(s, o, m.before, '\"', m.spelling + ("\"" + (m.behindKey + ([':'] + tail))));
  }

  /** A key and its colon. */
  lemma KeyRead(m: Member, tail: string, s: string, o: nat, fields: seq<Field>)
    requires GoodMember(m) && At(s, o, KeyTextOf(m, tail))
    ensures var p := o + |m.before| + |m.spelling| + |m.behindKey| + 3;
            && p <= |s| && At(s, p, tail) && |KeyTextOf(m, tail)| == p - o + |tail|
            && FieldsFrom(s, o, fields) == ValueFrom(s, SkipWs(s, p), fields, Escape(m.key))
  {
    hide *;
    KeyParts(m, tail);
    NoSpaces();
    var q := o + |m.before|;
    var behind := m.behindKey + ([':'] + tail);
    SkipTo(s, o, m.before, '\"', m.spelling + ("\"" + behind));
    AtParts(s, o, m.before, ['\"'] + (m.spelling + ("\"" + behind)));
    SkipBlanks(s, o, m.before);
    assert ['\"'] + (m.spelling + ("\"" + behind)) == "\"" + (m.spelling + "\"") + behind;
    AtParts(s, q, "\"" + (m.spelling + "\""), behind);
    QuotedRead(s, q, m.spelling, m.key);
    SkipTo(s, q + |m.spelling| + 2, m.behindKey, ':', tail);
    AtEnd(s, q + |m.spelling| + 2 + |m.behindKey| + 1, tail);
    ColonRead(s, o, fields, m.key, q + |m.spelling| + 2, q + |m.spelling| + 2 + |m.behindKey|);
  }

  lemma NoSpaces()
    ensures !IsSpace('\"') && !IsSpace(':')
  {
  }

  lemma KeyParts(m: Member, tail: string)
    requires GoodMember(m)
    ensures Blanks(m.before) && Spells(m.spelling, m.key) && Blanks(m.behindKey)
    ensures KeyTextOf(m, tail) == m.before + (['\"'] + (m.spelling + ("\"" + (m.behindKey + ([':'] + tail)))))
  {
    hide Blanks, Spells;
  }

  lemma AtEnd(s: string, o: nat, d: string)
    requires At(s, o, d)
    ensures o + |d| <= |s|
  {
  }

  lemma ColonRead(s: string, o: nat, fields: seq<Field>, key: string, e: nat, colon: nat)
    requires ParseNext(s, o) == Parsed(String(key), e) && e <= colon < |s| && SkipWs(s, e) == colon && s[colon] == ':'
    ensures FieldsFrom(s, o, fields) == ValueFrom(s, SkipWs(s, colon + 1), fields, Escape(key))
  {
    hide ParseNext, SkipWs, ValueFrom, Escape;
  }

  lemma ValueThen(s: string, o: nat, fields: seq<Field>, key: string, v: Json, e: nat, p: nat)
    requires o <= |s| && ParseNext(s, o) == Parsed(v, e) && e <= p < |s| && SkipWs(s, e) == p
    requires s[p] == ',' || s[p] == '}'
    ensures var fields' := Insert(fields, key, v);
            ValueFrom(s, SkipWs(s, o), fields, key) ==
            if s[p] == ',' then FieldsFrom(s, p + 1, fields') else Parsed(Object(fields'), p + 1)
  {
    LeadingBlankNext(s, o);
    hide ParseNext, SkipWs, FieldsFrom, Insert;
  }

  /** The loop over members. */
  lemma {:induction false} MembersRead(members: seq<Member>, s: string, o: nat, fields: seq<Field>)
    requires members != [] && GoodMembers(members) && At(s, o, MembersText(members))
    ensures FieldsFrom(s, o, fields) == Parsed(Object(MemberFields(fields, members)), o + |MembersText(members)|)
    decreases members, 2
  {
    hide *;
    FirstMember(members);
    var m := members[0];
    var i := m.value;
    var c := if |members| == 1 then '}' else ',';
    var rest := if |members| == 1 then "" else MembersText(members[1..]);
    MembersEnd(members, c, rest);
    KeyRead(m, ValueTail(m, [c] + rest), s, o, fields);
    var p := o + |m.before| + |m.spelling| + |m.behindKey| + 3;
    TailIs(m, [c] + rest);
    ItemPlaced(i, c, rest, s, p);
    var q := p + |i.before|;
    var e := q + |TextOf(i.tree)|;
    var v := ValueOf(i.tree);
    TreeRead(i.tree, s, q);
    ValueThen(s, p, fields, Escape(m.key), v, e, e + |i.after|);
    var fields' := Insert(fields, Escape(m.key), v);
    if |members| == 1 {
      NoMembers(fields');
      assert members[1..] == [];
    } else {
      MembersRead(members[1..], s, e + |i.after| + 1, fields');
    }
  }

  lemma MembersEnd(members: seq<Member>, c: char, rest: string)
    requires members != [] && c == (if |members| == 1 then '}' else ',')
    requires rest == if |members| == 1 then "" else MembersText(members[1..])
    ensures (if |members| == 1 then "}" else "," + MembersText(members[1..])) == [c] + rest
  {
    hide MembersText;
  }

  lemma TailIs(m: Member, tail: string)
    ensures ValueTail(m, tail) == m.value.before + (TextOf(m.value.tree) + (m.value.after + tail))
  {
  }

  lemma NoMembers(fields: seq<Field>)
    ensures MemberFields(fields, []) == fields
  {
  }

  /** Of the members with one key the last one's value is kept. */
  lemma {:induction false} LastCounts(members: seq<Member>, fields: seq<Field>, k: nat)
    requires GoodMembers(members) && Sorted(fields) && k < |members|
    requires forall m :: m in members ==> WellFormed(m.value.tree)
    requires forall j :: k < j < |members| ==> Escape(members[j].key) != Escape(members[k].key)
    ensures Sorted(MemberFields(fields, members))
    ensures Field(Escape(members[k].key), ValueOf(members[k].value.tree)) in MemberFields(fields, members)
    decreases |members|
  {
    hide WellFormed, ValueOf, Insert, GoodMember, Escape, Sorted;
    var m, rest := members[0], members[1..];
    var fields' := Insert(fields, Escape(m.key), ValueOf(m.value.tree));
    InsertIsUpdate(fields, Escape(m.key), ValueOf(m.value.tree));
    if k > 0 {
      LastCounts(rest, fields', k - 1);
    } else {
      OthersKeep(rest, fields', Field(Escape(m.key), ValueOf(m.value.tree)));
    }
  }

  lemma {:induction false} OthersKeep(members: seq<Member>, fields: seq<Field>, f: Field)
    requires Sorted(fields) && f in fields && forall m :: m in members ==> WellFormed(m.value.tree)
    requires forall j :: 0 <= j < |members| ==> Escape(members[j].key) != f.key
    ensures Sorted(MemberFields(fields, members)) && f in MemberFields(fields, members)
    decreases |members|
  {
    hide WellFormed, ValueOf, Insert, Escape, Sorted;
    if members == [] {
    } else {
      InsertIsUpdate(fields, Escape(members[0].key), ValueOf(members[0].value.tree));
      OthersKeep(members[1..], Insert(fields, Escape(members[0].key), ValueOf(members[0].value.tree)), f);
    }
  }

  /** A whole text, with blanks around it, is loaded as what it says; a number, only if
      a blank follows it. */
  lemma Loaded(before: string, t: Tree, after: string)
    requires WellFormed(t) && Blanks(before) && Blanks(after) && (t.Digits? ==> after != "")
    ensures Load(before + TextOf(t) + after) == Parsed(ValueOf(t), |before| + |TextOf(t)|)
  {
    var s := before + TextOf(t) + after;
    hide TextOf, WellFormed, ParseNext, ValueOf, SkipWs;
    assert s[0..0 + |before|] == before && s[|before|..|before| + |TextOf(t)|] == TextOf(t);
    SkipBlanks(s, 0, before);
    if t.Digits? {
      assert s[|before| + |TextOf(t)|] == after[0];
    }
    TreeRead(t, s, |before|);
  }
}
