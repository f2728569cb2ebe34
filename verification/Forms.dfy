/** Form data: finding the k-th field of a name, ignoring case. */
module Forms {
  import opened Texts
  import opened UrlText

  /** mg_strncasecmp of a name with as many characters. */
  predicate EqualFold(a: string, b: string) {
    |a| == |b| && forall i :: 0 <= i < |a| ==> SameLetter(a[i], b[i])
  }

  /** A field, its value in any spelling. */
  datatype Pair = Pair(name: string, text: string)

  /** The value of the k-th pair with a name. */
  function Nth(pairs: seq<Pair>, name: string, k: nat): Option<string> {
    if pairs == [] then None
    else if !EqualFold(name, pairs[0].name) then Nth(pairs[1..], name, k)
    else if k == 0 then Some(Decode(pairs[0].text, true))
    else Nth(pairs[1..], name, k - 1)
  }

  predicate Plain(s: string) { '&' !in s && '=' !in s }

  function PairText(p: Pair): string {
    p.name + "=" + p.text
  }

  function Join(pairs: seq<Pair>): string {
    if pairs == [] then ""
    else PairText(pairs[0]) + (if |pairs| == 1 then "" else "&" + Join(pairs[1..]))
  }

  // ---------- getParam ----------

  /** A field of the name starts at p. */
  predicate StartsAt(data: string, p: nat, name: string) {
    && p + |name| < |data| && (p == 0 || data[p - 1] == '&') && data[p + |name|] == '='
    && EqualFold(name, data[p..p + |name|])
  }

  /** memchr for '&', from p on. */
  function ValueEnd(data: string, p: nat): (e: nat)
    requires p <= |data|
    ensures p <= e <= |data| && '&' !in data[p..e] && (e < |data| ==> data[e] == '&')
    decreases |data| - p
  {
    if p == |data| || data[p] == '&' then p
    else
      var e := ValueEnd(data, p + 1);
      assert data[p..e] == [data[p]] + data[p + 1..e];
      e
  }

  function ValueAt(data: string, p: nat): string
    requires p <= |data|
  {
    Decode(data[p..ValueEnd(data, p)], true)
  }

  /** The loop from p on, with occurrence matches still to pass. */
  function Scan(data: string, p: nat, name: string, occurrence: nat): Option<string>
    decreases |data| - p
  {
    if p + |name| >= |data| then None
    else if !StartsAt(data, p, name) then Scan(data, p + 1, name, occurrence)
    else if occurrence == 0 then Some(ValueAt(data, p + |name| + 1))
    else Scan(data, p + 1, name, occurrence - 1)
  }

  method GetParam(data: string, name: string, occurrence: nat) returns (found: bool, dst: string)
    ensures found == Scan(data, 0, name, occurrence).Some?
    ensures dst == if found then Scan(data, 0, name, occurrence).value else ""
  {
    dst := "";
    if |data| == 0 {
      return false, dst;
    }
    var p, left := 0, occurrence;
    while p + |name| < |data|
      invariant Scan(data, p, name, left) == Scan(data, 0, name, occurrence)
      decreases |data| - p
    {
      if (p == 0 || data[p - 1] == '&') && data[p + |name|] == '=' && EqualFold(name, data[p..p + |name|]) {
        if left == 0 {
          var s := p + |name| + 1;
          var e := FindEnd(data, s);
          dst := UrlDecode(data[s..e], true);
          return true, dst;
        }
        left := left - 1;
      }
      p := p + 1;
    }
    return false, dst;
  }

  method FindEnd(data: string, p: nat) returns (e: nat)
    requires p <= |data|
    ensures e == ValueEnd(data, p)
  {
    e := p;
    while e < |data| && data[e] != '&'
      invariant p <= e <= |data| && ValueEnd(data, e) == ValueEnd(data, p)
    {
      e := e + 1;
    }
  }

  // ---------- Retrieval ----------

  /** Positions inside a text without '&' start no field. */
  lemma {:induction false} ScanPast(data: string, p: nat, e: nat, name: string, occurrence: nat)
    requires 0 < p <= e <= |data| && forall q :: p - 1 <= q < e - 1 ==> data[q] != '&'
    ensures Scan(data, p, name, occurrence) == Scan(data, e, name, occurrence)
    decreases e - p
  {
    if p == e {
    } else {
      ScanPast(data, p + 1, e, name, occurrence);
      ScanBeyond(data, e, name, occurrence);
    }
  }

  lemma ScanBeyond(data: string, e: nat, name: string, occurrence: nat)
    ensures e + |name| >= |data| ==> Scan(data, e, name, occurrence) == None
  {
  }

  lemma {:induction false} ValueEnds(data: string, p: nat, e: nat)
    requires p <= e <= |data| && '&' !in data[p..e] && (e < |data| ==> data[e] == '&')
    ensures ValueEnd(data, p) == e
    decreases e - p
  {
    if p == e {
    } else {
      assert data[p] == data[p..e][0];
      assert data[p + 1..e] == data[p..e][1..];
      ValueEnds(data, p + 1, e);
    }
  }

  /** The one '=' of a pair, and no '&' in it. */
  ghost predicate PairAt(data: string, p: nat, m: nat, e: nat) {
    && p + m < e <= |data| && data[p + m] == '=' && (e < |data| ==> data[e] == '&')
    && forall q :: p <= q < e && q != p + m ==> data[q] != '=' && data[q] != '&'
  }

  lemma PairChars(data: string, p: nat, pair: Pair)
    requires Plain(pair.text) && Plain(pair.name) && At(data, p, PairText(pair))
    requires var e := p + |PairText(pair)|; e < |data| ==> data[e] == '&'
    ensures PairAt(data, p, |pair.name|, p + |PairText(pair)|)
    ensures data[p..p + |pair.name|] == pair.name
    ensures data[p + |pair.name| + 1..p + |PairText(pair)|] == pair.text
  {
    var v := pair.text;
    var m := |pair.name|;
    AtParts(data, p, pair.name + "=", v);
    AtParts(data, p, pair.name, "=");
    assert data[p + m] == data[p + m..p + m + 1][0] == '=';
    forall q | p <= q < p + |PairText(pair)| && q != p + m ensures data[q] != '=' && data[q] != '&' {
      if q < p + m {
        assert data[q] == data[p..p + m][q - p] && pair.name[q - p] in pair.name;
      } else {
        assert data[q] == data[p + m + 1..p + m + 1 + |v|][q - p - m - 1] && v[q - p - m - 1] in v;
      }
    }
  }

  lemma SameLength(data: string, p: nat, m: nat, e: nat, name: string)
    requires PairAt(data, p, m, e) && '&' !in name && StartsAt(data, p, name)
    ensures |name| == m
  {
    forall q | p <= q < p + |name| ensures data[q] != '&' {
      assert SameLetter(name[q - p], data[p..p + |name|][q - p]) && name[q - p] in name;
    }
  }

  /** At the start of a pair, the name is found if and only if it is the pair's. */
  lemma PairStarts(data: string, p: nat, pair: Pair, name: string)
    requires Plain(pair.text) && Plain(pair.name) && '&' !in name
    requires At(data, p, PairText(pair)) && (p == 0 || data[p - 1] == '&')
    requires var e := p + |PairText(pair)|; e < |data| ==> data[e] == '&'
    ensures StartsAt(data, p, name) <==> EqualFold(name, pair.name)
    ensures EqualFold(name, pair.name) ==> ValueAt(data, p + |name| + 1) == Decode(pair.text, true)
  {
    hide PairText, Decode, At, Plain;
    var m, e := |pair.name|, p + |PairText(pair)|;
    PairChars(data, p, pair);
    if StartsAt(data, p, name) {
      SameLength(data, p, m, e, name);
    }
    if EqualFold(name, pair.name) {
      ValueEnds(data, p + m + 1, e);
    }
  }

  ghost predicate PairsFrom(pairs: seq<Pair>, data: string, p: nat, name: string) {
    && (forall x :: x in pairs ==> Plain(x.text) && Plain(x.name))
    && '&' !in name && pairs != []
    && p <= |data| && data[p..] == Join(pairs) && (p == 0 || data[p - 1] == '&')
  }

  lemma FirstPair(pairs: seq<Pair>, data: string, p: nat, name: string) returns (e: nat)
    requires PairsFrom(pairs, data, p, name)
    ensures e == p + |PairText(pairs[0])| <= |data| && At(data, p, PairText(pairs[0]))
    ensures if |pairs| == 1 then e == |data| else e < |data| && data[e] == '&'
    ensures |pairs| > 1 ==> PairsFrom(pairs[1..], data, e + 1, name)
  {
    hide PairText;
    var t := PairText(pairs[0]);
    e := p + |t|;
    var rest := if |pairs| == 1 then "" else "&" + Join(pairs[1..]);
    assert data[p..] == t + rest;
    assert data[p..e] == data[p..][..|t|] && data[e..] == data[p..][|t|..];
    if |pairs| > 1 {
      assert data[e] == data[e..][0] == '&';
      assert data[e + 1..] == data[e..][1..] == Join(pairs[1..]);
    }
  }

  /** getParam finds the value of the k-th field that has the name, or nothing. */
  lemma {:induction false} JoinScanned(pairs: seq<Pair>, data: string, p: nat, name: string, k: nat)
    requires PairsFrom(pairs, data, p, name)
    ensures Scan(data, p, name, k) == Nth(pairs, name, k)
    decreases |pairs|, 1
  {
    hide PairText, StartsAt, EqualFold, ValueAt, Join;
    var e := FirstPair(pairs, data, p, name);
    PairStarts(data, p, pairs[0], name);
    AfterPair(pairs, data, p, name, k);
    ScanBeyond(data, p + 1, name, k);
    if EqualFold(name, pairs[0].name) {
      StartFits(data, p, name);
      if k > 0 {
        AfterPair(pairs, data, p, name, k - 1);
      }
    }
  }

  lemma StartFits(data: string, p: nat, name: string)
    requires StartsAt(data, p, name)
    ensures p + |name| < |data|
  {
  }

  lemma {:induction false} AfterPair(pairs: seq<Pair>, data: string, p: nat, name: string, k: nat)
    requires PairsFrom(pairs, data, p, name)
    ensures Scan(data, p + 1, name, k) == Nth(pairs[1..], name, k)
    decreases |pairs|, 0
  {
    hide PairText, StartsAt, EqualFold, Join;
    var e := FirstPair(pairs, data, p, name);
    PairChars(data, p, pairs[0]);
    if |pairs| == 1 {
      ScanPast(data, p + 1, e, name, k);
      ScanBeyond(data, e, name, k);
    } else {
      ScanPast(data, p + 1, e + 1, name, k);
      JoinScanned(pairs[1..], data, e + 1, name, k);
    }
  }

  /** Retrieval from any list of fields. */
  lemma Retrieved(pairs: seq<Pair>, name: string, k: nat)
    requires forall x :: x in pairs ==> Plain(x.text) && Plain(x.name)
    requires '&' !in name
    ensures Scan(Join(pairs), 0, name, k) == Nth(pairs, name, k)
  {
    if pairs != [] {
      hide PairText, Scan, Nth;
      var data := Join(pairs);
      assert data[0..] == data;
      JoinScanned(pairs, data, 0, name, k);
    }
  }

  /** An encoded value is such a spelling, and is retrieved as it was. */
  lemma {:induction false} EncodedPlain(s: string)
    requires IsBytes(s)
    ensures Plain(Encode(s)) && Decode(Encode(s), true) == s
  {
    DecodeEncode(s, true);
    if s == "" {
    } else {
      EncodedPlain(s[1..]);
    }
  }

  // ---------- Names that span fields ----------

  /** The text from the start of the first field to the end of the name of field j. */
  function Span(pairs: seq<Pair>, j: nat): string
    requires j < |pairs|
  {
    if j == 0 then pairs[0].name else PairText(pairs[0]) + "&" + Span(pairs[1..], j - 1)
  }

  /** The name reads like fields i to j, the last one's value left out. */
  predicate ReadsAs(pairs: seq<Pair>, name: string, i: nat, j: nat)
  {
    i < j < |pairs| && EqualFold(name, Span(pairs[i..], j - i))
  }

  lemma PrefixBehind(a: string, whole: string, part: string)
    requires |part| < |whole| && whole[..|part|] == part
    ensures (a + whole)[..|a + part|] == a + part && (a + whole)[|a + part|] == whole[|part|]
  {
  }

  lemma FoldKeepsAmpersand(a: string, b: string)
    requires EqualFold(a, b)
    ensures '&' in a <==> '&' in b
  {
    forall k | 0 <= k < |a| ensures a[k] == '&' <==> b[k] == '&' {
      assert Lower(a[k]) == Lower(b[k]);
    }
  }

  lemma JoinTail(pairs: seq<Pair>)
    requires |pairs| > 1
    ensures var e := |PairText(pairs[0])|;
            e < |Join(pairs)| && Join(pairs)[e] == '&' && Join(pairs)[e + 1..] == Join(pairs[1..])
  {
    hide PairText;
    var t, rest := PairText(pairs[0]), Join(pairs[1..]);
    assert Join(pairs) == t + ("&" + rest);
    assert (t + ("&" + rest))[|t| + 1..] == rest;
  }

  lemma SuffixOfSuffix(data: string, e: nat, r: nat)
    requires 0 < e && e + r <= |data|
    ensures data[e + r..] == data[e..][r..] && (r > 0 ==> data[e + r - 1] == data[e..][r - 1])
  {
  }

  /** Every field's text goes on to the end. */
  lemma {:induction false} JoinSuffix(pairs: seq<Pair>, i: nat) returns (q: nat)
    requires i < |pairs|
    ensures q <= |Join(pairs)| && Join(pairs)[q..] == Join(pairs[i..]) && (q == 0 || Join(pairs)[q - 1] == '&')
  {
    hide PairText, Join;
    if i == 0 {
      q := 0;
      assert pairs[0..] == pairs && Join(pairs)[0..] == Join(pairs);
    } else {
      JoinTail(pairs);
      var r := JoinSuffix(pairs[1..], i - 1);
      assert pairs[1..][i - 1..] == pairs[i..];
      q := |PairText(pairs[0])| + 1 + r;
      SuffixOfSuffix(Join(pairs), |PairText(pairs[0])| + 1, r);
    }
  }

  lemma {:induction false} SpanInJoin(pairs: seq<Pair>, j: nat)
    requires j < |pairs|
    ensures var n := |Span(pairs, j)|;
            n < |Join(pairs)| && Join(pairs)[..n] == Span(pairs, j) && Join(pairs)[n] == '='
    ensures j > 0 ==> '&' in Span(pairs, j)
  {
    var t := PairText(pairs[0]);
    if j == 0 {
      var v := pairs[0].text;
      assert t == pairs[0].name + ("=" + v);
      assert Join(pairs) == t + (if |pairs| == 1 then "" else "&" + Join(pairs[1..]));
    } else {
      hide PairText;
      var a, rest := t + "&", Span(pairs[1..], j - 1);
      SpanInJoin(pairs[1..], j - 1);
      assert Join(pairs) == a + Join(pairs[1..]);
      PrefixBehind(a, Join(pairs[1..]), rest);
      assert (a + rest)[|t|] == '&';
    }
  }

  lemma FoldStarts(data: string, q: nat, t: string, name: string)
    requires q <= |data| && (q == 0 || data[q - 1] == '&') && |t| < |data[q..]|
    requires data[q..][..|t|] == t && data[q..][|t|] == '=' && EqualFold(name, t)
    ensures StartsAt(data, q, name)
  {
    assert data[q..q + |t|] == t;
  }

  lemma SpanStarts(pairs: seq<Pair>, i: nat, j: nat, name: string) returns (q: nat)
    requires ReadsAs(pairs, name, i, j)
    ensures StartsAt(Join(pairs), q, name)
  {
    hide Join, Span, EqualFold;
    q := JoinSuffix(pairs, i);
    SpanInJoin(pairs[i..], j - i);
    FoldStarts(Join(pairs), q, Span(pairs[i..], j - i), name);
  }

  lemma PairFront(pairs: seq<Pair>)
    requires pairs != [] && forall p :: p in pairs ==> Plain(p.text) && Plain(p.name)
    ensures var e := |PairText(pairs[0])|;
            e <= |Join(pairs)| && Join(pairs)[..e] == PairText(pairs[0]) && PairAt(Join(pairs), 0, |pairs[0].name|, e)
    ensures Join(pairs)[..|pairs[0].name|] == pairs[0].name
    ensures |pairs| == 1 ==> |Join(pairs)| == |PairText(pairs[0])|
  {
    var t := PairText(pairs[0]);
    var data := Join(pairs);
    assert data == t + (if |pairs| == 1 then "" else "&" + Join(pairs[1..]));
    hide PairText, Join;
    assert data[0..0 + |t|] == t;
    PairChars(data, 0, pairs[0]);
  }

  /** A text from the start that is followed by '=' ends with the name of a field. */
  lemma {:induction false} EndsAtName(pairs: seq<Pair>, n: nat) returns (j: nat)
    requires pairs != [] && forall p :: p in pairs ==> Plain(p.text) && Plain(p.name)
    requires n < |Join(pairs)| && Join(pairs)[n] == '='
    ensures j < |pairs| && Join(pairs)[..n] == Span(pairs, j)
  {
    hide PairText, Join;
    var e := |PairText(pairs[0])|;
    PairFront(pairs);
    if n < e {
      j := 0;
      assert n == |pairs[0].name|;
    } else {
      JoinTail(pairs);
      var data, rest := Join(pairs), Join(pairs[1..]);
      assert rest[n - e - 1] == data[e + 1..][n - e - 1] == data[n];
      var k := EndsAtName(pairs[1..], n - e - 1);
      j := k + 1;
      assert data[..n] == data[..e] + [data[e]] + data[e + 1..][..n - e - 1];
    }
  }

  /** A name with '&' that is found reads like several fields. */
  lemma {:induction false} StartIsSpan(pairs: seq<Pair>, q: nat, name: string) returns (i: nat, j: nat)
    requires forall p :: p in pairs ==> Plain(p.text) && Plain(p.name)
    requires StartsAt(Join(pairs), q, name) && '&' in name
    ensures ReadsAs(pairs, name, i, j)
    decreases |pairs|
  {
    hide *;
    SomePair(pairs, q, name);
    if q == 0 {
      i := 0;
      j := FirstIsSpan(pairs, name);
    } else {
      var r := LaterStart(pairs, q, name);
      i, j := StartIsSpan(pairs[1..], r, name);
      LaterReads(pairs, name, i, j);
      i, j := i + 1, j + 1;
    }
  }

  /** A field that does not start at the front starts behind the first pair. */
  lemma LaterStart(pairs: seq<Pair>, q: nat, name: string) returns (r: nat)
    requires pairs != [] && forall p :: p in pairs ==> Plain(p.text) && Plain(p.name)
    requires 0 < q && StartsAt(Join(pairs), q, name)
    ensures |pairs| > 1 && StartsAt(Join(pairs[1..]), r, name)
  {
    hide PairText, Join, StartsAt, Plain, PairAt;
    var e := |PairText(pairs[0])|;
    PairFront(pairs);
    NotInside(Join(pairs), |pairs[0].name|, e, q, name);
    JoinTail(pairs);
    TailStarts(Join(pairs), e, Join(pairs[1..]), q, name);
    r := q - e - 1;
  }

  lemma SomePair(pairs: seq<Pair>, q: nat, name: string)
    requires StartsAt(Join(pairs), q, name)
    ensures pairs != []
  {
  }

  lemma LaterReads(pairs: seq<Pair>, name: string, i: nat, j: nat)
    requires pairs != [] && ReadsAs(pairs[1..], name, i, j)
    ensures ReadsAs(pairs, name, i + 1, j + 1)
  {
    hide Span, EqualFold;
    assert pairs[1..][i..] == pairs[i + 1..];
  }

  lemma FirstIsSpan(pairs: seq<Pair>, name: string) returns (j: nat)
    requires pairs != [] && forall p :: p in pairs ==> Plain(p.text) && Plain(p.name)
    requires StartsAt(Join(pairs), 0, name) && '&' in name
    ensures ReadsAs(pairs, name, 0, j)
  {
    FirstSpan(pairs);
    hide Span, EqualFold, Join, StartsAt, Plain;
    StartEnds(Join(pairs), name);
    j := EndsAtName(pairs, |name|);
    FoldKeepsAmpersand(name, Span(pairs, j));
    assert pairs[0..] == pairs;
  }

  lemma FirstSpan(pairs: seq<Pair>)
    requires pairs != [] && forall p :: p in pairs ==> Plain(p.text) && Plain(p.name)
    ensures '&' !in Span(pairs, 0)
  {
  }

  lemma StartEnds(data: string, name: string)
    requires StartsAt(data, 0, name)
    ensures |name| < |data| && data[|name|] == '=' && EqualFold(name, data[..|name|])
  {
    assert data[0..0 + |name|] == data[..|name|];
  }

  lemma NotInside(data: string, m: nat, e: nat, q: nat, name: string)
    requires PairAt(data, 0, m, e) && 0 < q && StartsAt(data, q, name)
    ensures e < q < |data|
  {
  }

  lemma TailStarts(data: string, e: nat, rest: string, q: nat, name: string)
    requires StartsAt(data, q, name) && e < q && data[e + 1..] == rest
    ensures StartsAt(rest, q - e - 1, name)
  {
    assert data[q..q + |name|] == rest[q - e - 1..q - e - 1 + |name|];
    assert data[q + |name|] == rest[q - e - 1 + |name|];
    if q > e + 1 {
      assert data[q - 1] == rest[q - e - 2];
    }
  }

  lemma {:induction false} AmpersandIsNoName(pairs: seq<Pair>, name: string, k: nat)
    requires '&' in name && forall p :: p in pairs ==> Plain(p.name)
    ensures Nth(pairs, name, k) == None
  {
    if pairs == [] {
    } else {
      if EqualFold(name, pairs[0].name) {
        FoldKeepsAmpersand(name, pairs[0].name);
        assert false;
      }
      AmpersandIsNoName(pairs[1..], name, k);
    }
  }

  lemma {:induction false} ScanNothing(data: string, p: nat, name: string, k: nat)
    requires forall q: nat :: !StartsAt(data, q, name)
    ensures Scan(data, p, name, k) == None
    decreases |data| - p
  {
    hide StartsAt;
    if p + |name| < |data| {
      ScanNothing(data, p + 1, name, k);
    }
  }

  lemma {:induction false} ScanSomething(data: string, p: nat, q: nat, name: string)
    requires p <= q && StartsAt(data, q, name)
    ensures Scan(data, p, name, 0).Some?
    decreases q - p
  {
    if p == q {
    } else {
      ScanSomething(data, p + 1, q, name);
    }
  }

  /** Retrieval is right exactly if the name does not read like several fields. */
  lemma RetrievedExactly(pairs: seq<Pair>, name: string)
    requires forall x :: x in pairs ==> Plain(x.text) && Plain(x.name)
    ensures (forall k: nat :: Scan(Join(pairs), 0, name, k) == Nth(pairs, name, k)) <==>
            (forall i: nat, j: nat :: !ReadsAs(pairs, name, i, j))
  {
    hide Scan, Nth, Join, StartsAt, Span, EqualFold;
    var data := Join(pairs);
    if i: nat, j: nat :| ReadsAs(pairs, name, i, j) {
      var q := SpanStarts(pairs, i, j, name);
      ScanSomething(data, 0, q, name);
      SpanInJoin(pairs[i..], j - i);
      FoldKeepsAmpersand(name, Span(pairs[i..], j - i));
      AmpersandIsNoName(pairs, name, 0);
      assert Scan(data, 0, name, 0) != Nth(pairs, name, 0);
    } else {
      forall k: nat ensures Scan(data, 0, name, k) == Nth(pairs, name, k) {
        if '&' in name {
          forall q: nat | StartsAt(data, q, name) ensures false {
            var i, j := StartIsSpan(pairs, q, name);
          }
          ScanNothing(data, 0, name, k);
          AmpersandIsNoName(pairs, name, k);
        } else {
          Retrieved(pairs, name, k);
        }
      }
    }
  }

  /** A name with '&' can be found across two fields. */
  lemma NameAcrossFields()
    ensures var pairs := [Pair("a", "1"), Pair("b", "2")];
            Scan(Join(pairs), 0, "a=1&b", 0) == Some("2") && Nth(pairs, "a=1&b", 0) == None
  {
    var pairs := [Pair("a", "1"), Pair("b", "2")];
    assert Join(pairs[1..]) == "b=2";
    assert Join(pairs) == "a=1&b=2";
    var data := "a=1&b=2";
    assert data[0..5] == "a=1&b";
    assert ValueEnd(data, 7) == 7 && data[6..7] == "2";
    assert Decode("2", true) == "2";
  }
}
