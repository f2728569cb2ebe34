/** Which header names the nested matcher recognises. */
module HttpNames {
  import opened HttpChars
  import opened HttpMachine
  import opened HttpRun
  import opened HttpStretch

  predicate AllTokens(name: seq<byte>) {
    forall i :: 0 <= i < |name| ==> Token(name[i]) != '\0'
  }

  /** A header name in lower case. */
  function Lowered(name: seq<byte>): string {
    if name == [] then [] else Lowered(name[..|name| - 1]) + [Token(name[|name| - 1])]
  }

  /** `w` is a proper prefix of `name`, longer than `least`. */
  predicate Starts(w: string, name: string, least: nat) {
    least < |w| < |name| && w == name[..|w|]
  }

  /** Where the matcher should be after the lower-cased bytes w of a name. */
  function Recognised(w: string): HeaderState {
    if w == CONNECTION || w == PROXY_CONNECTION then Connection
    else if w == CONTENT_LENGTH then ContentLength
    else if w == TRANSFER_ENCODING then TransferEncoding
    else if w == UPGRADE then Upgrade
    else if w == "c" then HC
    else if w == "co" then HCO
    else if w == "con" then HCON
    else if Starts(w, CONNECTION, 3) then MatchingConnection
    else if Starts(w, CONTENT_LENGTH, 3) then MatchingContentLength
    else if Starts(w, PROXY_CONNECTION, 0) then MatchingProxyConnection
    else if Starts(w, TRANSFER_ENCODING, 0) then MatchingTransferEncoding
    else if Starts(w, UPGRADE, 0) then MatchingUpgrade
    else General
  }

  predicate Matching(h: HeaderState) {
    !h.General? && !h.Connection? && !h.ContentLength? && !h.TransferEncoding? && !h.Upgrade?
  }

  /** The matcher is where it should be, its index at the last byte compared. */
  predicate MatcherAt(f: Fields, w: string) {
    f.headerState == Recognised(w) && (Matching(f.headerState) ==> f.index == |w| - 1)
  }

  lemma StartsStep(w: string, c: char, name: string, least: nat)
    ensures Starts(w + [c], name, least) <==> least <= |w| && |w| + 1 < |name| && w == name[..|w|] && c == name[|w|]
    ensures w + [c] == name <==> |w| + 1 == |name| && w == name[..|w|] && c == name[|w|]
  {
    if |w| + 1 <= |name| {
      assert name[..|w| + 1] == name[..|w|] + [name[|w|]];
      if w + [c] == name[..|w| + 1] {
        assert (w + [c])[..|w|] == w;
        assert (w + [c])[|w|] == c;
      }
    }
    if |w| + 1 == |name| {
      assert name[..|w| + 1] == name;
    }
  }

  /** Names that share their first four characters with none of the others. */
  lemma Apart(w: string)
    requires |w| >= 1
    ensures |w| > 3 && Prefix(w, CONNECTION) ==> !Prefix(w, CONTENT_LENGTH)
    ensures Prefix(w, CONNECTION) || Prefix(w, CONTENT_LENGTH) ==> w[0] == 'c'
    ensures Prefix(w, PROXY_CONNECTION) ==> w[0] == 'p'
    ensures Prefix(w, TRANSFER_ENCODING) ==> w[0] == 't'
    ensures Prefix(w, UPGRADE) ==> w[0] == 'u'
    ensures |w| <= 3 && (Prefix(w, CONNECTION) || Prefix(w, CONTENT_LENGTH)) ==> w == "c" || w == "co" || w == "con"
    ensures w == "c" || w == "co" || w == "con" ==> Prefix(w, CONNECTION) && Prefix(w, CONTENT_LENGTH)
  {
    if Prefix(w, CONNECTION) {
      assert w[0] == CONNECTION[0];
      assert |w| > 3 ==> w[3] == CONNECTION[3];
    }
    if Prefix(w, CONTENT_LENGTH) {
      assert w[0] == CONTENT_LENGTH[0];
      assert |w| > 3 ==> w[3] == CONTENT_LENGTH[3];
    }
    if Prefix(w, PROXY_CONNECTION) {
      assert w[0] == PROXY_CONNECTION[0];
    }
    if Prefix(w, TRANSFER_ENCODING) {
      assert w[0] == TRANSFER_ENCODING[0];
    }
    if Prefix(w, UPGRADE) {
      assert w[0] == UPGRADE[0];
    }
  }

  predicate Prefix(w: string, name: string) {
    |w| <= |name| && w == name[..|w|]
  }

  /** No name begins with w. */
  predicate Unlike(w: string) {
    && !Prefix(w, CONNECTION) && !Prefix(w, CONTENT_LENGTH) && !Prefix(w, PROXY_CONNECTION)
    && !Prefix(w, TRANSFER_ENCODING) && !Prefix(w, UPGRADE)
  }

  lemma PrefixStep(w: string, c: char, name: string)
    ensures Prefix(w + [c], name) <==> Prefix(w, name) && |w| < |name| && c == name[|w|]
  {
    StartsStep(w, c, name, 0);
    if |w| + 1 == |name| {
      assert name[..|w| + 1] == name;
    }
    if |w| + 1 < |name| && |w| == 0 {
      assert Starts(w + [c], name, 0) <==> Prefix(w + [c], name);
    }
  }

  /** Recognised, said with prefixes only. */
  lemma RecognisedPrefixes(w: string)
    requires |w| >= 1
    ensures var h := Recognised(w);
            && (w == "c" <==> h == HC) && (w == "co" <==> h == HCO) && (w == "con" <==> h == HCON)
            && (|w| > 3 && Prefix(w, CONNECTION) ==> h == if |w| == |CONNECTION| then Connection else MatchingConnection)
            && (|w| > 3 && Prefix(w, CONTENT_LENGTH) ==>
                  h == if |w| == |CONTENT_LENGTH| then ContentLength else MatchingContentLength)
            && (Prefix(w, PROXY_CONNECTION) ==>
                  h == if |w| == |PROXY_CONNECTION| then Connection else MatchingProxyConnection)
            && (Prefix(w, TRANSFER_ENCODING) ==>
                  h == if |w| == |TRANSFER_ENCODING| then TransferEncoding else MatchingTransferEncoding)
            && (Prefix(w, UPGRADE) ==> h == if |w| == |UPGRADE| then Upgrade else MatchingUpgrade)
            && (Unlike(w) ==> h == General)
  {
    Apart(w);
  }

  /** Where one more byte takes a matcher that is part of the way into `name`. */
  lemma LongStep(w: string, c: byte, name: string, matching: HeaderState, found: HeaderState)
    requires |w| >= 1 && Prefix(w, name) && |w| < |name|
    requires (name == PROXY_CONNECTION && matching == MatchingProxyConnection && found == Connection)
             || (name == TRANSFER_ENCODING && matching == MatchingTransferEncoding && found == TransferEncoding)
             || (name == UPGRADE && matching == MatchingUpgrade && found == Upgrade)
             || (|w| > 3 && name == CONNECTION && matching == MatchingConnection && found == Connection)
             || (|w| > 3 && name == CONTENT_LENGTH && matching == MatchingContentLength && found == ContentLength)
    ensures Recognised(w + [c]) == Match(name, |w|, c, matching, found, General)
  {
    OthersLost(w, c);
    RecognisedPrefixes(w + [c]);
    PrefixStep(w, c, name);
    hide Recognised, Prefix, Starts;
  }

  /** A prefix of one name, longer than what two of them share, does not become
      a prefix of another. */
  lemma OthersLost(w: string, c: char)
    requires |w| >= 1
    ensures Prefix(w, PROXY_CONNECTION) && !Prefix(w + [c], PROXY_CONNECTION) ==> Unlike(w + [c])
    ensures Prefix(w, TRANSFER_ENCODING) && !Prefix(w + [c], TRANSFER_ENCODING) ==> Unlike(w + [c])
    ensures Prefix(w, UPGRADE) && !Prefix(w + [c], UPGRADE) ==> Unlike(w + [c])
    ensures |w| > 3 && Prefix(w, CONNECTION) && !Prefix(w + [c], CONNECTION) ==> Unlike(w + [c])
    ensures |w| > 3 && Prefix(w, CONTENT_LENGTH) && !Prefix(w + [c], CONTENT_LENGTH) ==> Unlike(w + [c])
    ensures Unlike(w) ==> Unlike(w + [c])
  {
    Apart(w);
    PrefixStep(w, c, CONNECTION);
    PrefixStep(w, c, CONTENT_LENGTH);
    PrefixStep(w, c, PROXY_CONNECTION);
    PrefixStep(w, c, TRANSFER_ENCODING);
    PrefixStep(w, c, UPGRADE);
    hide Prefix;
  }

  lemma ShortStep(w: string, c: char)
    requires w == "c" || w == "co" || w == "con"
    ensures Recognised(w + [c]) ==
            if w == "c" then (if c == 'o' then HCO else General)
            else if w == "co" then (if c == 'n' then HCON else General)
            else if c == 'n' then MatchingConnection else if c == 't' then MatchingContentLength else General
  {
    hide Recognised, Prefix, Starts;
    Apart(w);
    Apart(w + [c]);
    RecognisedPrefixes(w + [c]);
    PrefixStep(w, c, CONNECTION);
    PrefixStep(w, c, CONTENT_LENGTH);
    PrefixStep(w, c, PROXY_CONNECTION);
    PrefixStep(w, c, TRANSFER_ENCODING);
    PrefixStep(w, c, UPGRADE);
  }

  /** After the last letter of a name, or away from all names, nothing matches. */
  lemma NoStep(w: string, c: char)
    requires |w| >= 1 && !Matching(Recognised(w))
    ensures Recognised(w + [c]) == General
  {
    OthersLost(w, c);
    RecognisedPrefixes(w);
    RecognisedPrefixes(w + [c]);
    Apart(w);
    Whole(w, c);
  }

  lemma Whole(w: string, c: char)
    requires |w| >= 1 && !Matching(Recognised(w))
    ensures Unlike(w) || w == CONNECTION || w == CONTENT_LENGTH || w == PROXY_CONNECTION || w == TRANSFER_ENCODING
            || w == UPGRADE
    ensures w == CONNECTION ==> !Prefix(w + [c], CONNECTION)
    ensures w == CONTENT_LENGTH ==> !Prefix(w + [c], CONTENT_LENGTH)
    ensures w == PROXY_CONNECTION ==> !Prefix(w + [c], PROXY_CONNECTION)
    ensures w == TRANSFER_ENCODING ==> !Prefix(w + [c], TRANSFER_ENCODING)
    ensures w == UPGRADE ==> !Prefix(w + [c], UPGRADE)
  {
    Apart(w);
    RecognisedPrefixes(w);
  }

  lemma MatchStep(f: Fields, ch: byte, w: string)
    requires |w| >= 1 && MatcherAt(f, w) && Token(ch) != '\0'
    ensures MatcherAt(MatchName(f, ch, Token(ch)), w + [Token(ch)])
  {
    var c := Token(ch);
    assert ch != ' ';
    if !Matching(f.headerState) {
      NoStep(w, c);
      hide Token, Recognised;
    } else if f.headerState.HC? || f.headerState.HCO? || f.headerState.HCON? {
      ShortStep(w, c);
      hide Token;
    } else if f.headerState.MatchingConnection? {
      LongStep(w, c, CONNECTION, MatchingConnection, Connection);
      hide Token, Recognised;
    } else if f.headerState.MatchingContentLength? {
      LongStep(w, c, CONTENT_LENGTH, MatchingContentLength, ContentLength);
      hide Token, Recognised;
    } else if f.headerState.MatchingProxyConnection? {
      LongStep(w, c, PROXY_CONNECTION, MatchingProxyConnection, Connection);
      hide Token, Recognised;
    } else if f.headerState.MatchingTransferEncoding? {
      LongStep(w, c, TRANSFER_ENCODING, MatchingTransferEncoding, TransferEncoding);
      hide Token, Recognised;
    } else {
      LongStep(w, c, UPGRADE, MatchingUpgrade, Upgrade);
      hide Token, Recognised;
    }
  }

  // ---------- Whole names ----------

  lemma NameStart(cfg: Config, f: Fields, ch: byte)
    requires f.state.HeaderFieldStart? && Token(ch) != '\0'
    ensures Dispatch(cfg, f, false, ch) ==
            Stay(f.(index := 0, state := HeaderField, headerState := FirstNameState(Token(ch))), MarkTake(Field))
  {
  }

  lemma NameNext(cfg: Config, f: Fields, ch: byte)
    requires f.state.HeaderField? && Token(ch) != '\0'
    ensures Dispatch(cfg, f, false, ch) == Stay(MatchName(f, ch, Token(ch)), Take(Field))
    ensures var g := MatchName(f, ch, Token(ch)); g == f.(headerState := g.headerState, index := g.index)
  {
    hide Token, Match;
  }

  /** The bytes of a header name. */
  lemma {:induction false} NameRun(cfg: Config, m: Machine, name: seq<byte>)
    requires m.f.state.HeaderFieldStart? && name != [] && AllTokens(name)
    requires m.f.nread + |name| <= HTTP_MAX_HEADER_SIZE
    ensures var r := Run(cfg, m, name);
            && r.Running? && MatcherAt(r.m.f, Lowered(name)) && !r.m.skip
            && r.m.f == m.f.(state := HeaderField, headerState := r.m.f.headerState, index := r.m.f.index,
                             nread := m.f.nread + |name|)
            && r.m.log == Absorb(m.log, Data(Field, name))
    decreases |name|
  {
    hide Run, Byte, Passes, Dispatch, Token, MatchName, Absorb, MatcherAt;
    var init, last := name[..|name| - 1], name[|name| - 1];
    RunLast(cfg, m, name);
    if init == [] {
      RunNothing(cfg, m);
      assert name == [last];
      assert Lowered(name) == [Token(last)];
      hide Lowered;
      FirstNameByte(cfg, m, last);
    } else {
      hide Lowered;
      NameRun(cfg, m, init);
      LoweredLast(name);
      AbsorbSplit(m.log, Field, init, [last]);
      assert init + [last] == name;
      NextNameByte(cfg, Run(cfg, m, init).m, last, Lowered(init));
    }
  }

  lemma FirstNameByte(cfg: Config, m: Machine, ch: byte)
    requires m.f.state.HeaderFieldStart? && Token(ch) != '\0' && m.f.nread < HTTP_MAX_HEADER_SIZE
    ensures var r := Run(cfg, m, [ch]);
            && r.Running? && MatcherAt(r.m.f, [Token(ch)]) && !r.m.skip
            && r.m.f == m.f.(state := HeaderField, headerState := r.m.f.headerState, index := r.m.f.index,
                             nread := m.f.nread + 1)
            && r.m.log == Absorb(m.log, Data(Field, [ch]))
  {
    NameStart(cfg, Counted(m.f), ch);
    hide Run, Byte, Dispatch, Token, Absorb, MatcherAt;
    OneStay(cfg, m, ch, Counted(m.f).(index := 0, state := HeaderField, headerState := FirstNameState(Token(ch))),
            MarkTake(Field));
  }

  lemma NextNameByte(cfg: Config, m: Machine, ch: byte, w: string)
    requires m.f.state.HeaderField? && Token(ch) != '\0' && m.f.nread < HTTP_MAX_HEADER_SIZE
    requires |w| >= 1 && MatcherAt(m.f, w)
    ensures var r := Run(cfg, m, [ch]);
            && r.Running? && MatcherAt(r.m.f, w + [Token(ch)]) && !r.m.skip
            && r.m.f == m.f.(headerState := r.m.f.headerState, index := r.m.f.index, nread := m.f.nread + 1)
            && r.m.log == Absorb(m.log, Data(Field, [ch]))
  {
    MatchStep(Counted(m.f), ch, w);
    NameNext(cfg, Counted(m.f), ch);
    hide Run, Byte, Dispatch, Token, Absorb, MatcherAt, MatchName;
    OneStay(cfg, m, ch, MatchName(Counted(m.f), ch, Token(ch)), Take(Field));
  }

  lemma LoweredLast(name: seq<byte>)
    requires |name| >= 2
    ensures Lowered(name) == Lowered(name[..|name| - 1]) + [Token(name[|name| - 1])]
    ensures |Lowered(name[..|name| - 1])| >= 1
  {
  }

  lemma Colon(cfg: Config, f: Fields)
    requires f.state.HeaderField?
    ensures Dispatch(cfg, f, false, ':') == Stay(f.(state := HeaderValueDiscardWs), Flush(Field))
  {
  }

  /** After a name and its colon the parser treats the value as a content length,
      a transfer encoding, an upgrade or a connection option exactly if the name
      is, in any case, the one that says so. */
  lemma NameRecognised(cfg: Config, m: Machine, name: seq<byte>)
    requires m.f.state.HeaderFieldStart? && name != [] && AllTokens(name)
    requires m.f.nread + |name| + 1 <= HTTP_MAX_HEADER_SIZE
    ensures var r, w := Run(cfg, m, name + ":"), Lowered(name);
            && r.Running? && r.m.f.state.HeaderValueDiscardWs? && !r.m.skip
            && (r.m.f.headerState.ContentLength? <==> w == "content-length")
            && (r.m.f.headerState.TransferEncoding? <==> w == "transfer-encoding")
            && (r.m.f.headerState.Upgrade? <==> w == "upgrade")
            && (r.m.f.headerState.Connection? <==> w == "connection" || w == "proxy-connection")
            && r.m.f == m.f.(state := HeaderValueDiscardWs, headerState := Recognised(w), index := r.m.f.index,
                             nread := m.f.nread + |name| + 1)
            && r.m.log == Absorb(m.log, Data(Field, name))
  {
    hide Run, Byte, Passes, Dispatch, Lowered, Absorb, Recognised;
    NameRun(cfg, m, name);
    RunAppend(cfg, m, name, ":");
    RecognisedNames(Lowered(name));
    var n := Run(cfg, m, name).m;
    Colon(cfg, Counted(n.f));
    assert ":"[0..] == ":" && ":"[1..] == "";
    var g := Counted(n.f).(state := HeaderValueDiscardWs);
    RunStay(cfg, n, ":", 0, g, Flush(Field));
    FieldLast(m.log, name);
    RunNothing(cfg, Machine(g, false, n.log));
  }

  lemma RecognisedNames(w: string)
    ensures var h := Recognised(w);
            && (h.ContentLength? <==> w == "content-length") && (h.TransferEncoding? <==> w == "transfer-encoding")
            && (h.Upgrade? <==> w == "upgrade") && (h.Connection? <==> w == "connection" || w == "proxy-connection")
  {
  }

  lemma FieldLast(log: Log, name: seq<byte>)
    ensures Absorb(Absorb(log, Data(Field, name)), Data(Field, [])) == Absorb(log, Data(Field, name))
  {
    AbsorbSplit(log, Field, name, []);
    assert name + [] == name;
  }
}
