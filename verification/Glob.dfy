/** Matching a string's beginning against a pattern, ignoring case: '?' is any
    character, '*' any characters but '/', '**' any characters, '$' the end of
    the string, '|' separates alternatives. */
module Glob {
  import opened Texts

  // ---------- What a match is ----------

  /** strcspn(s, "/"). */
  function Segment(s: string): (n: nat)
    ensures n <= |s| && '/' !in s[..n] && (n < |s| ==> s[n] == '/')
  {
    if s == "" || s[0] == '/' then 0
    else
      assert forall k :: 1 <= k < 1 + Segment(s[1..]) ==> s[k] == s[1..][k - 1];
      1 + Segment(s[1..])
  }

  predicate IsDouble(p: string) {
    |p| >= 2 && p[0] == '*' && p[1] == '*'
  }

  /** What is left of a pattern behind its star, or double star. */
  function AfterStar(p: string): (q: string)
    requires p != "" && p[0] == '*'
    ensures |q| < |p|
  {
    if IsDouble(p) then p[2..] else p[1..]
  }

  /** The longest text the star can take. */
  function Reach(p: string, s: string): (n: nat)
    requires p != "" && p[0] == '*'
    ensures n <= |s|
  {
    if IsDouble(p) then |s| else Segment(s)
  }

  /** A pattern without alternatives matches the first n characters of s, its
      stars taking texts of the given lengths: "**" any text, '*' one without a
      slash. Behind '$' nothing counts. */
  predicate Matches(p: string, s: string, n: nat, stars: seq<nat>)
    decreases |p|
  {
    if p == "" then n == 0 && stars == []
    else if p[0] == '$' then s == "" && n == 0 && stars == []
    else if p[0] == '*' then
      var double := |p| >= 2 && p[1] == '*';
      stars != [] && stars[0] <= n && stars[0] <= |s| && (double || '/' !in s[..stars[0]])
      && Matches(if double then p[2..] else p[1..], s[stars[0]..], n - stars[0], stars[1..])
    else
      s != "" && n > 0 && (p[0] == '?' || SameLetter(p[0], s[0])) && Matches(p[1..], s[1..], n - 1, stars)
  }

  /** The first difference decides. */
  predicate AtMost(a: seq<nat>, b: seq<nat>) {
    a == [] || (b != [] && (a[0] < b[0] || (a[0] == b[0] && AtMost(a[1..], b[1..]))))
  }

  // ---------- What match_prefix finds ----------

  /** A result moved by the characters in front of it. */
  function Moved(r: int, n: nat): int {
    if r < 0 then -1 else r + n
  }

  function Greedy(p: string, s: string): (r: int)
    ensures -1 <= r <= |s|
    decreases |p|, 0
  {
    if p == "" then 0
    else if p[0] == '?' && s != "" then Moved(Greedy(p[1..], s[1..]), 1)
    else if p[0] == '$' then if s == "" then 0 else -1
    else if p[0] == '*' then Longest(AfterStar(p), s, Reach(p, s))
    else if s != "" && Lower(p[0]) == Lower(s[0]) then Moved(Greedy(p[1..], s[1..]), 1)
    else -1
  }

  /** The rest of a pattern behind a star that takes at most k characters, the
      longest text first. */
  function Longest(q: string, s: string, k: nat): (r: int)
    requires k <= |s|
    ensures -1 <= r <= |s|
    decreases |q|, k + 1
  {
    var r := Greedy(q, s[k..]);
    if r != -1 then k + r else if k == 0 then -1 else Longest(q, s, k - 1)
  }

  /** The result is the match with the greatest star lengths, the first star
      counting most; it is -1 if and only if nothing matches. */
  ghost predicate IsBest(p: string, s: string, r: int, best: seq<nat>) {
    && (r >= 0 ==> Matches(p, s, r, best))
    && (forall n: nat, stars :: Matches(p, s, n, stars) ==> r >= 0 && AtMost(stars, best))
  }

  /** A star reaches as far as a text that it may take. */
  lemma ReachExact(p: string, s: string, k: nat)
    requires p != "" && p[0] == '*'
    ensures k <= Reach(p, s) <==> k <= |s| && (IsDouble(p) || '/' !in s[..k])
  {
    var n := Segment(s);
    if k <= n {
      assert s[..k] == s[..n][..k];
    } else if k <= |s| {
      assert s[..k][n] == s[n];
    }
  }

  /** One step of a star's match. */
  lemma StarMatches(p: string, s: string, n: nat, stars: seq<nat>)
    requires p != "" && p[0] == '*'
    ensures Matches(p, s, n, stars) <==>
              && stars != [] && stars[0] <= n && stars[0] <= Reach(p, s)
              && Matches(AfterStar(p), s[stars[0]..], n - stars[0], stars[1..])
  {
    if stars != [] {
      ReachExact(p, s, stars[0]);
    }
  }

  lemma {:induction false} GreedyIsBest(p: string, s: string) returns (best: seq<nat>)
    ensures IsBest(p, s, Greedy(p, s), best)
    decreases |p|, |s| + 2
  {
    if p == "" || p[0] == '$' {
      best := [];
    } else if p[0] == '*' {
      best := LongestIsBest(p, s, Reach(p, s));
      forall n: nat, stars | Matches(p, s, n, stars) ensures stars[0] <= Reach(p, s) {
        StarMatches(p, s, n, stars);
      }
    } else if s != "" && (p[0] == '?' || Lower(p[0]) == Lower(s[0])) {
      best := GreedyIsBest(p[1..], s[1..]);
      forall n: nat, stars | Matches(p, s, n, stars) ensures Greedy(p, s) >= 0 && AtMost(stars, best) {
        assert Matches(p[1..], s[1..], n - 1, stars);
      }
    } else {
      best := [];
    }
  }

  lemma {:induction false} LongestIsBest(p: string, s: string, k: nat) returns (best: seq<nat>)
    requires p != "" && p[0] == '*' && k <= Reach(p, s)
    ensures var r := Longest(AfterStar(p), s, k);
            && (r >= 0 ==> Matches(p, s, r, best))
            && (forall n: nat, stars :: Matches(p, s, n, stars) && stars[0] <= k ==> r >= 0 && AtMost(stars, best))
    decreases |p|, k + 1
  {
    var q := AfterStar(p);
    var r := Greedy(q, s[k..]);
    var rest := GreedyIsBest(q, s[k..]);
    if r != -1 {
      best := [k] + rest;
      assert best[1..] == rest;
      StarMatches(p, s, k + r, best);
      forall n: nat, stars | Matches(p, s, n, stars) && stars[0] <= k ensures AtMost(stars, best) {
        StarMatches(p, s, n, stars);
        if stars[0] == k {
          assert Matches(q, s[k..], n - k, stars[1..]);
        }
      }
    } else {
      if k == 0 {
        best := [];
      } else {
        best := LongestIsBest(p, s, k - 1);
      }
      forall n: nat, stars | Matches(p, s, n, stars) && stars[0] <= k
        ensures Longest(q, s, k) >= 0 && AtMost(stars, best)
      {
        StarMatches(p, s, n, stars);
        assert Matches(q, s[stars[0]..], n - stars[0], stars[1..]);
      }
    }
  }

  // ---------- Alternatives ----------

  /** The position of the first '|', or the length. */
  function Bar(p: string): (n: nat)
    ensures n <= |p| && '|' !in p[..n] && (n < |p| ==> p[n] == '|')
  {
    if p == "" || p[0] == '|' then 0
    else
      assert forall k :: 1 <= k < 1 + Bar(p[1..]) ==> p[k] == p[1..][k - 1];
      1 + Bar(p[1..])
  }

  /** The first alternative that matches something, or else the last one's
      result. */
  function Match(p: string, s: string): (r: int)
    ensures -1 <= r <= |s|
    decreases |p|
  {
    var n := Bar(p);
    if n == |p| then Greedy(p, s)
    else
      var r := Greedy(p[..n], s);
      if r > 0 then r else Match(p[n + 1..], s)
  }

  function Alternatives(p: string): (a: seq<string>)
    ensures a != []
    decreases |p|
  {
    var n := Bar(p);
    if n == |p| then [p] else [p[..n]] + Alternatives(p[n + 1..])
  }

  lemma {:induction false} MatchIsFirst(p: string, s: string) returns (k: nat)
    ensures var a := Alternatives(p);
            && k < |a| && Match(p, s) == Greedy(a[k], s)
            && (forall i :: 0 <= i < k ==> Greedy(a[i], s) <= 0)
            && (Greedy(a[k], s) > 0 || k == |a| - 1)
    decreases |p|
  {
    hide Greedy;
    var n := Bar(p);
    if n == |p| || Greedy(p[..n], s) > 0 {
      k := 0;
    } else {
      var k' := MatchIsFirst(p[n + 1..], s);
      k := k' + 1;
    }
  }

  // ---------- The function itself ----------

  method Memchr(p: string) returns (n: nat)
    ensures n == Bar(p)
  {
    n := 0;
    while n < |p| && p[n] != '|'
      invariant n <= |p| && Bar(p) == n + Bar(p[n..])
    {
      assert p[n..][1..] == p[n + 1..];
      n := n + 1;
    }
  }

  method Strcspn(s: string) returns (n: nat)
    ensures n == Segment(s)
  {
    n := 0;
    while n < |s| && s[n] != '/'
      invariant n <= |s| && Segment(s) == n + Segment(s[n..])
    {
      assert s[n..][1..] == s[n + 1..];
      n := n + 1;
    }
  }

  /** match_prefix. */
  method MatchPrefix(pattern: string, str: string) returns (r: int)
    ensures r == Match(pattern, str)
    decreases |pattern|
  {
    var bar := Memchr(pattern);
    if bar < |pattern| {
      BarOfLeft(pattern);
      r := MatchPrefix(pattern[..bar], str);
      if r <= 0 {
        r := MatchPrefix(pattern[bar + 1..], str);
      }
      return;
    }
    var i := 0;
    while i < |pattern|
      invariant i <= |pattern| && i <= |str|
      invariant Greedy(pattern, str) == Moved(Greedy(pattern[i..], str[i..]), i)
    {
      var p, s := pattern[i..], str[i..];
      assert p[1..] == pattern[i + 1..];
      if pattern[i] == '?' && i < |str| {
        assert s[1..] == str[i + 1..];
      } else if pattern[i] == '$' {
        return if i == |str| then i else -1;
      } else if pattern[i] == '*' {
        var rest := AfterStar(p);
        NoBar(pattern, |pattern| - |rest|);
        assert rest == pattern[|pattern| - |rest|..];
        r := MatchStar(p, s);
        return if r == -1 then -1 else i + r;
      } else if i == |str| || Lower(pattern[i]) != Lower(str[i]) {
        return -1;
      } else {
        assert s[1..] == str[i + 1..];
      }
      i := i + 1;
    }
    r := i;
  }

  /** The part of match_prefix behind a star: shorter and shorter texts. */
  method MatchStar(p: string, s: string) returns (r: int)
    requires p != "" && p[0] == '*' && '|' !in AfterStar(p)
    ensures r == Longest(AfterStar(p), s, Reach(p, s))
    decreases |p|, 0
  {
    var rest := AfterStar(p);
    BarNone(rest);
    var len;
    if IsDouble(p) {
      len := |s|;
    } else {
      len := Strcspn(s);
    }
    if rest == "" {
      return len;
    }
    while true
      invariant 0 <= len <= |s| && Longest(rest, s, len) == Longest(rest, s, Reach(p, s))
      decreases len
    {
      var res := MatchPrefix(rest, s[len..]);
      if res != -1 {
        return len + res;
      }
      if len == 0 {
        return -1;
      }
      len := len - 1;
    }
  }

  lemma {:induction false} BarNone(p: string)
    requires '|' !in p
    ensures Bar(p) == |p|
  {
    if p == "" {
    } else {
      BarNone(p[1..]);
    }
  }

  lemma BarOfLeft(p: string)
    ensures Bar(p[..Bar(p)]) == Bar(p)
  {
    BarNone(p[..Bar(p)]);
  }

  lemma NoBar(p: string, i: nat)
    requires Bar(p) == |p| && i <= |p|
    ensures '|' !in p[i..]
  {
    assert p[..|p|] == p;
  }
}
