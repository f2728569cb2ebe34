/** The options of a Connection header: how the nested matcher reads a list of
    them, and where it reads less than the list says. */
module HttpConnection {
  import opened HttpChars
  import opened HttpMachine
  import opened HttpRun
  import opened HttpStretch
  import opened HttpNames
  import opened HttpHeaders

  // ---------- Options ----------

  predicate Begins(option: seq<byte>, word: string) {
    |option| <= |word| && forall i :: 0 <= i < |option| ==> Lower(option[i]) == word[i]
  }

  /** The option is the word, in any letter case. */
  predicate Is(option: seq<byte>, word: string) {
    |option| == |word| && Begins(option, word)
  }

  predicate Named(option: seq<byte>) {
    Is(option, KEEP_ALIVE) || Is(option, CLOSE) || Is(option, UPGRADE)
  }

  /** The option is the beginning of a word, but not all of it. */
  predicate Partial(option: seq<byte>) {
    !Named(option) && (Begins(option, KEEP_ALIVE) || Begins(option, CLOSE) || Begins(option, UPGRADE))
  }

  /** The header state that tells an option. */
  function AfterOption(option: seq<byte>): HeaderState {
    if Begins(option, KEEP_ALIVE) then if Named(option) then ConnectionKeepAlive else MatchingKeepAlive
    else if Begins(option, CLOSE) then if Named(option) then ConnectionClose else MatchingClose
    else if Begins(option, UPGRADE) then if Named(option) then ConnectionUpgrade else MatchingUpgradeToken
    else MatchingToken
  }

  predicate Seen(h: HeaderState) {
    h.ConnectionKeepAlive? || h.ConnectionClose? || h.ConnectionUpgrade?
  }

  predicate Part(h: HeaderState) {
    h.MatchingKeepAlive? || h.MatchingClose? || h.MatchingUpgradeToken?
  }

  /** Header states inside a list. */
  predicate InList(h: HeaderState) {
    Seen(h) || Part(h) || h.MatchingToken? || h.MatchingTokenStart? || h.General?
  }

  predicate MatcherOn(f: Fields, option: seq<byte>) {
    f.headerState == AfterOption(option) && (Part(f.headerState) ==> f.index == |option| - 1)
  }

  predicate OptionByte(ch: byte) {
    Token(ch) != '\0'
  }

  lemma OptionByteFacts(ch: byte)
    requires OptionByte(ch)
    ensures IsHeaderChar(ch) && ch != CR && ch != LF && ch != ',' && !IsBlank(ch)
    ensures Token(Lower(ch)) == '\0' <==> ch == '_'
  {
  }

  lemma BeginsStep(option: seq<byte>, ch: byte, word: string)
    ensures Begins(option + [ch], word) <==>
              Begins(option, word) && |option| < |word| && Lower(ch) == word[|option|]
  {
    if Begins(option + [ch], word) {
      assert (option + [ch])[|option|] == ch;
      forall i | 0 <= i < |option| ensures Lower(option[i]) == word[i] {
        assert (option + [ch])[i] == option[i];
      }
    }
  }

  lemma OneWord(option: seq<byte>)
    requires option != []
    ensures Begins(option, KEEP_ALIVE) ==> Lower(option[0]) == 'k'
    ensures Begins(option, CLOSE) ==> Lower(option[0]) == 'c'
    ensures Begins(option, UPGRADE) ==> Lower(option[0]) == 'u'
  {
  }

  lemma FirstOf(ch: byte)
    ensures AfterOption([ch]) ==
            if Lower(ch) == 'k' then MatchingKeepAlive else if Lower(ch) == 'c' then MatchingClose
            else if Lower(ch) == 'u' then MatchingUpgradeToken else MatchingToken
  {
    hide Lower;
    assert Begins([ch], KEEP_ALIVE) <==> Lower(ch) == KEEP_ALIVE[0];
    assert Begins([ch], CLOSE) <==> Lower(ch) == CLOSE[0];
    assert Begins([ch], UPGRADE) <==> Lower(ch) == UPGRADE[0];
  }

  /** No option begins like two words. */
  lemma OptionStep(option: seq<byte>, ch: byte)
    requires option != []
    ensures AfterOption(option).MatchingToken? ==> AfterOption(option + [ch]).MatchingToken?
    ensures Seen(AfterOption(option)) ==> AfterOption(option + [ch]).MatchingToken?
    ensures AfterOption(option).MatchingKeepAlive? ==>
              |option| < |KEEP_ALIVE| && AfterOption(option + [ch]) ==
              if Lower(ch) != KEEP_ALIVE[|option|] then MatchingToken
              else if |option| + 1 == |KEEP_ALIVE| then ConnectionKeepAlive else MatchingKeepAlive
    ensures AfterOption(option).MatchingClose? ==>
              |option| < |CLOSE| && AfterOption(option + [ch]) ==
              if Lower(ch) != CLOSE[|option|] then MatchingToken
              else if |option| + 1 == |CLOSE| then ConnectionClose else MatchingClose
    ensures AfterOption(option).MatchingUpgradeToken? ==>
              |option| < |UPGRADE| && AfterOption(option + [ch]) ==
              if Lower(ch) != UPGRADE[|option|] then MatchingToken
              else if |option| + 1 == |UPGRADE| then ConnectionUpgrade else MatchingUpgradeToken
  {
    hide Lower;
    BeginsStep(option, ch, KEEP_ALIVE);
    BeginsStep(option, ch, CLOSE);
    BeginsStep(option, ch, UPGRADE);
    OneWord(option);
    OneWord(option + [ch]);
    assert (option + [ch])[0] == option[0];
    hide Begins;
  }

  lemma MatcherStep(f: Fields, option: seq<byte>, ch: byte)
    requires option != [] && MatcherOn(f, option) && ch != ',' && !IsBlank(ch)
    ensures var a := ValueByte(f, ch);
            && a.Stay? && a.effect == Take(Value) && MatcherOn(a.f, option + [ch])
            && a.f == f.(headerState := a.f.headerState, index := a.f.index)
  {
    OptionStep(option, ch);
    AfterOptionStates(option);
    hide ValueByte, Lower, AfterOption, IsBlank;
  }

  // ---------- One byte at a time ----------

  lemma ListByte(cfg: Config, m: Machine, ch: byte)
    requires m.f.state.HeaderValue? && InList(m.f.headerState) && LastIs(m.log, Value)
    requires ch != CR && ch != LF && IsHeaderChar(ch) && m.f.nread < HTTP_MAX_HEADER_SIZE
    ensures var a, r := ValueByte(Counted(m.f), ch), Run(cfg, m, [ch]);
            a.Stay? ==> r.Running? && r.m.f == a.f && r.m.log == Absorb(m.log, Data(Value, [ch])) && LastIs(r.m.log, Value)
  {
    hide Run, Dispatch, Absorb, ValueByte, IsHeaderChar, LastIs;
    ValueDispatch(cfg, Counted(m.f), m.skip && Skips(m.f), ch);
    var a := ValueByte(Counted(m.f), ch);
    if a.Stay? {
      ListEffect(Counted(m.f), ch);
      OneStay(cfg, m, ch, a.f, Take(Value));
      AbsorbedLast(m.log, [ch]);
    }
  }

  lemma ListEffect(f: Fields, ch: byte)
    requires InList(f.headerState)
    ensures ValueByte(f, ch).Stay? && ValueByte(f, ch).effect == Take(Value)
  {
    hide Lower, Token, WithFlag, Match;
  }

  /** Where a run inside a list has come: k bytes further, in header state h. */
  predicate Moved(m: Machine, r: Outcome, bytes: seq<byte>, h: HeaderState, flags: Flags) {
    && r.Running? && LastIs(r.m.log, Value) && r.m.log == Absorb(m.log, Data(Value, bytes))
    && r.m.f == m.f.(headerState := h, index := r.m.f.index, nread := m.f.nread + |bytes|, flags := flags)
    && (h.MatchingTokenStart? ==> r.m.f.index == 0)
  }

  predicate ListMachine(m: Machine) {
    && m.f.state.HeaderValue? && InList(m.f.headerState) && LastIs(m.log, Value)
    && (m.f.headerState.MatchingTokenStart? ==> m.f.index == 0)
  }

  lemma MovedNowhere(cfg: Config, m: Machine)
    requires ListMachine(m)
    ensures Moved(m, Run(cfg, m, []), [], m.f.headerState, m.f.flags)
  {
    hide Absorb, Run;
    RunNothing(cfg, m);
    AbsorbNothing(m.log, Value);
  }

  lemma MovedTwice(m: Machine, q: Outcome, r: Outcome, a: seq<byte>, b: seq<byte>, g: HeaderState, h: HeaderState,
                   flags: Flags, flags': Flags)
    requires Moved(m, q, a, g, flags) && Moved(q.m, r, b, h, flags')
    ensures Moved(m, r, a + b, h, flags')
  {
    hide Absorb, LastIs;
    AbsorbSplit(m.log, Value, a, b);
  }

  lemma MovedOn(cfg: Config, m: Machine, a: seq<byte>, b: seq<byte>, g: HeaderState, h: HeaderState, flags: Flags,
                flags': Flags)
    requires Moved(m, Run(cfg, m, a), a, g, flags)
    requires var n := Run(cfg, m, a).m; Moved(n, Run(cfg, n, b), b, h, flags')
    ensures Moved(m, Run(cfg, m, a + b), a + b, h, flags')
  {
    RunThen(cfg, m, a, b);
    hide Run, Absorb, LastIs;
    MovedTwice(m, Run(cfg, m, a), Run(cfg, m, a + b), a, b, g, h, flags, flags');
  }

  lemma MovedFacts(m: Machine, r: Outcome, bytes: seq<byte>, h: HeaderState, flags: Flags)
    requires Moved(m, r, bytes, h, flags)
    ensures r.Running? && r.m.f.nread == m.f.nread + |bytes| && r.m.f.headerState == h && r.m.f.flags == flags
    ensures r.m.f.state == m.f.state && LastIs(r.m.log, Value) && (h.MatchingTokenStart? ==> r.m.f.index == 0)
  {
  }

  // ---------- Blanks ----------

  /** Blanks between options: a tab behind a comma ends the list for the parser, a
      tab behind a word makes it unseen. */
  function AfterBlanks(h: HeaderState, w: seq<byte>): HeaderState {
    if w == [] then h
    else if h.MatchingTokenStart? then if '\t' in w then General else h
    else if Seen(h) then if '\t' in w then MatchingToken else h
    else if Part(h) then MatchingToken
    else h
  }

  predicate BlankStepped(f: Fields, ch: byte) {
    var a := ValueByte(f, ch);
    && a.Stay? && a.effect == Take(Value) && a.f.headerState == AfterBlanks(f.headerState, [ch])
    && a.f == f.(headerState := a.f.headerState, index := a.f.index)
    && (a.f.headerState.MatchingTokenStart? ==> a.f.index == f.index)
  }

  lemma SpaceStep(f: Fields)
    requires InList(f.headerState)
    ensures BlankStepped(f, ' ')
  {
  }

  lemma TabStep(f: Fields)
    requires InList(f.headerState)
    ensures BlankStepped(f, '\t')
  {
  }

  lemma BlankStep(f: Fields, ch: byte)
    requires InList(f.headerState) && IsBlank(ch)
    ensures BlankStepped(f, ch)
  {
    hide BlankStepped, InList;
    if ch == ' ' {
      SpaceStep(f);
    } else {
      TabStep(f);
    }
  }

  lemma AfterBlanksStep(h: HeaderState, ch: byte, w: seq<byte>)
    requires IsBlank(ch)
    ensures AfterBlanks(AfterBlanks(h, [ch]), w) == AfterBlanks(h, [ch] + w)
  {
    assert '\t' in [ch] + w <==> ch == '\t' || '\t' in w;
  }

  lemma {:induction false} BlanksRun(cfg: Config, m: Machine, w: seq<byte>)
    requires ListMachine(m) && AllBlank(w) && m.f.nread + |w| <= HTTP_MAX_HEADER_SIZE
    ensures Moved(m, Run(cfg, m, w), w, AfterBlanks(m.f.headerState, w), m.f.flags)
    decreases |w|
  {
    hide *;
    if w == [] {
      NoBlanks(m.f.headerState);
      MovedNowhere(cfg, m);
    } else {
      BlankAhead(w);
      var h := AfterBlanks(m.f.headerState, [w[0]]);
      BlankByte(cfg, m, w[0]);
      MovedFacts(m, Run(cfg, m, [w[0]]), [w[0]], h, m.f.flags);
      BlanksRun(cfg, Run(cfg, m, [w[0]]).m, w[1..]);
      AfterBlanksStep(m.f.headerState, w[0], w[1..]);
      assert [w[0]] + w[1..] == w;
      MovedOn(cfg, m, [w[0]], w[1..], h, AfterBlanks(m.f.headerState, w), m.f.flags, m.f.flags);
    }
  }

  lemma NoBlanks(h: HeaderState)
    ensures AfterBlanks(h, []) == h
  {
  }

  lemma BlankAhead(w: seq<byte>)
    requires AllBlank(w) && w != []
    ensures IsBlank(w[0]) && AllBlank(w[1..])
  {
  }

  lemma BlankByte(cfg: Config, m: Machine, ch: byte)
    requires ListMachine(m) && IsBlank(ch) && m.f.nread < HTTP_MAX_HEADER_SIZE
    ensures var h := AfterBlanks(m.f.headerState, [ch]);
            Moved(m, Run(cfg, m, [ch]), [ch], h, m.f.flags) && ListMachine(Run(cfg, m, [ch]).m)
  {
    assert IsHeaderChar(ch) && ch != CR && ch != LF;
    hide Run, Absorb, ValueByte, LastIs, AfterBlanks;
    BlankStep(Counted(m.f), ch);
    ListByte(cfg, m, ch);
  }

  /** Behind a comma, blanks leave the parser ready for an option if and only if
      there is no tab among them. */
  lemma BlanksBehindComma(cfg: Config, m: Machine, w: seq<byte>)
    requires m.f.state.HeaderValue? && m.f.headerState.MatchingTokenStart? && m.f.index == 0 && LastIs(m.log, Value)
    requires AllBlank(w) && m.f.nread + |w| <= HTTP_MAX_HEADER_SIZE
    ensures var r := Run(cfg, m, w);
            && r.Running? && r.m.f.flags == m.f.flags
            && (r.m.f.headerState.MatchingTokenStart? <==> '\t' !in w)
            && (r.m.f.headerState.General? <==> '\t' in w)
  {
    hide Run, Absorb, LastIs;
    BlanksRun(cfg, m, w);
  }

  // ---------- Options, commas, lists ----------

  /** An option, the blanks in front of it and those behind it. */
  datatype Entry = Entry(lead: seq<byte>, option: seq<byte>, trail: seq<byte>)

  predicate ValidEntry(e: Entry) {
    AllBlank(e.lead) && AllBlank(e.trail) && e.option != [] && AllTokens(e.option)
  }

  /** A list; the blanks in front of it belong to the header. */
  predicate ValidEntries(es: seq<Entry>) {
    es != [] && es[0].lead == [] && forall k :: 0 <= k < |es| ==> ValidEntry(es[k])
  }

  function EntryText(e: Entry): seq<byte> {
    e.lead + e.option + e.trail
  }

  function EntriesText(es: seq<Entry>): seq<byte>
    requires es != []
  {
    var last := es[|es| - 1];
    if |es| == 1 then EntryText(last) else EntriesText(es[..|es| - 1]) + [','] + EntryText(last)
  }

  lemma {:induction false} OptionRun(cfg: Config, m: Machine, option: seq<byte>, n: nat)
    requires ListMachine(m) && AllTokens(option) && 0 < n <= |option| && MatcherOn(m.f, option[..n])
    requires m.f.nread + |option| - n <= HTTP_MAX_HEADER_SIZE
    ensures Moved(m, Run(cfg, m, option[n..]), option[n..], AfterOption(option), m.f.flags)
    decreases |option| - n
  {
    hide *;
    if n == |option| {
      assert option[..n] == option && option[n..] == [];
      OptionDone(cfg, m, option);
    } else {
      OptionByteAt(option, n);
      OneOptionByte(cfg, m, option[..n], option[n]);
      assert option[..n] + [option[n]] == option[..n + 1];
      var k, h := Run(cfg, m, [option[n]]), AfterOption(option[..n + 1]);
      MovedFacts(m, k, [option[n]], h, m.f.flags);
      OptionRun(cfg, k.m, option, n + 1);
      assert [option[n]] + option[n + 1..] == option[n..];
      MovedOn(cfg, m, [option[n]], option[n + 1..], h, AfterOption(option), m.f.flags, m.f.flags);
    }
  }

  lemma OptionDone(cfg: Config, m: Machine, option: seq<byte>)
    requires ListMachine(m) && MatcherOn(m.f, option)
    ensures Moved(m, Run(cfg, m, []), [], AfterOption(option), m.f.flags)
  {
    hide AfterOption, Run;
    MovedNowhere(cfg, m);
  }

  lemma OptionByteAt(option: seq<byte>, n: nat)
    requires AllTokens(option) && n < |option|
    ensures OptionByte(option[n])
  {
  }

  lemma AfterOptionStates(option: seq<byte>)
    ensures InList(AfterOption(option)) && !AfterOption(option).MatchingTokenStart? && !AfterOption(option).General?
  {
  }

  lemma OneOptionByte(cfg: Config, m: Machine, option: seq<byte>, ch: byte)
    requires ListMachine(m) && option != [] && MatcherOn(m.f, option) && OptionByte(ch)
    requires m.f.nread < HTTP_MAX_HEADER_SIZE
    ensures Moved(m, Run(cfg, m, [ch]), [ch], AfterOption(option + [ch]), m.f.flags)
    ensures ListMachine(Run(cfg, m, [ch]).m) && MatcherOn(Run(cfg, m, [ch]).m.f, option + [ch])
  {
    hide Run, Absorb, ValueByte, LastIs, AfterOption, OptionByte;
    OptionByteFacts(ch);
    AfterOptionStates(option + [ch]);
    MatcherStep(Counted(m.f), option, ch);
    ListByte(cfg, m, ch);
  }

  /** The header state behind an option, read where the parser is ready, busy with
      another option, or lost. */
  function OptionState(h: HeaderState, option: seq<byte>): HeaderState
    requires option != []
  {
    if !h.MatchingTokenStart? then h
    else if Token(Lower(option[0])) == '\0' then General
    else AfterOption(option)
  }

  function EntryState(h: HeaderState, e: Entry): HeaderState
    requires e.option != []
  {
    AfterBlanks(OptionState(AfterBlanks(h, e.lead), e.option), e.trail)
  }

  /** A comma: what was only the beginning of a word swallows it. */
  function AfterComma(h: HeaderState): HeaderState {
    if Seen(h) || h.MatchingToken? then MatchingTokenStart else if Part(h) then MatchingToken else h
  }

  /** A byte of an option that is not looked at. */
  lemma IdleStep(f: Fields, ch: byte)
    requires (f.headerState.MatchingToken? || f.headerState.General?) && ch != ','
    ensures ValueByte(f, ch) == Stay(f, Take(Value))
  {
    assert f.(headerState := f.headerState) == f;
  }

  lemma IdleByte(cfg: Config, m: Machine, ch: byte)
    requires ListMachine(m) && OptionByte(ch) && (m.f.headerState.MatchingToken? || m.f.headerState.General?)
    requires m.f.nread < HTTP_MAX_HEADER_SIZE
    ensures Moved(m, Run(cfg, m, [ch]), [ch], m.f.headerState, m.f.flags) && ListMachine(Run(cfg, m, [ch]).m)
  {
    hide Run, Absorb, ValueByte, LastIs, OptionByte, InList;
    OptionByteFacts(ch);
    IdleStep(Counted(m.f), ch);
    ListByte(cfg, m, ch);
  }

  lemma {:induction false} IdleRun(cfg: Config, m: Machine, option: seq<byte>)
    requires ListMachine(m) && AllTokens(option) && (m.f.headerState.MatchingToken? || m.f.headerState.General?)
    requires m.f.nread + |option| <= HTTP_MAX_HEADER_SIZE
    ensures Moved(m, Run(cfg, m, option), option, m.f.headerState, m.f.flags)
    decreases |option|
  {
    hide *;
    if option == [] {
      MovedNowhere(cfg, m);
    } else {
      SplitOption(option);
      var h, r := m.f.headerState, Run(cfg, m, [option[0]]);
      IdleByte(cfg, m, option[0]);
      MovedFacts(m, r, [option[0]], h, m.f.flags);
      IdleRun(cfg, r.m, option[1..]);
      MovedOn(cfg, m, [option[0]], option[1..], h, h, m.f.flags, m.f.flags);
    }
  }

  lemma StartStep(f: Fields, ch: byte)
    requires f.headerState.MatchingTokenStart? && OptionByte(ch) && f.index == 0
    ensures var a := ValueByte(f, ch);
            a == Stay(f.(headerState := if Token(Lower(ch)) == '\0' then General else AfterOption([ch])), Take(Value))
  {
    FirstOf(ch);
    OptionByteFacts(ch);
    hide AfterOption;
  }

  lemma SplitOption(option: seq<byte>)
    requires option != []
    ensures [option[0]] + option[1..] == option && option[..1] == [option[0]]
    ensures AllTokens(option) ==> OptionByte(option[0]) && AllTokens(option[1..])
  {
  }

  lemma ReadyRun(cfg: Config, m: Machine, option: seq<byte>)
    requires ListMachine(m) && AllTokens(option) && option != []
    requires m.f.headerState.MatchingTokenStart? && m.f.nread + |option| <= HTTP_MAX_HEADER_SIZE
    ensures Moved(m, Run(cfg, m, option), option, OptionState(m.f.headerState, option), m.f.flags)
  {
    hide Run, Absorb, ValueByte, LastIs, AllTokens, OptionByte, Token, AfterOption, Lower;
    var ch := option[0];
    SplitOption(option);
    OptionByteFacts(ch);
    StartStep(Counted(m.f), ch);
    ListByte(cfg, m, ch);
    AfterOptionStates([ch]);
    var n := Run(cfg, m, [ch]).m;
    if Token(Lower(ch)) == '\0' {
      IdleRun(cfg, n, option[1..]);
    } else {
      OptionRun(cfg, n, option, 1);
    }
    MovedOn(cfg, m, [ch], option[1..], n.f.headerState, OptionState(m.f.headerState, option), m.f.flags, m.f.flags);
  }

  lemma OptionStates(h: HeaderState, e: Entry)
    requires InList(h) && e.option != []
    ensures InList(OptionState(h, e.option)) && InList(EntryState(h, e))
    ensures h.MatchingTokenStart? || h.MatchingToken? || h.General? ==>
              !OptionState(h, e.option).MatchingTokenStart? && !EntryState(h, e).MatchingTokenStart?
  {
    hide Begins;
  }

  lemma EntryRun(cfg: Config, m: Machine, e: Entry)
    requires ListMachine(m) && ValidEntry(e) && m.f.nread + |EntryText(e)| <= HTTP_MAX_HEADER_SIZE
    requires m.f.headerState.MatchingTokenStart? || m.f.headerState.MatchingToken? || m.f.headerState.General?
    ensures Moved(m, Run(cfg, m, EntryText(e)), EntryText(e), EntryState(m.f.headerState, e), m.f.flags)
  {
    hide Run, Absorb, LastIs, AllTokens, AllBlank, OptionState;
    var h := AfterBlanks(m.f.headerState, e.lead);
    BlanksRun(cfg, m, e.lead);
    var n := Run(cfg, m, e.lead).m;
    var g := OptionState(h, e.option);
    if h.MatchingTokenStart? {
      ReadyRun(cfg, n, e.option);
    } else {
      IdleRun(cfg, n, e.option);
      IdleState(h, e.option);
    }
    OptionStates(h, e);
    MovedOn(cfg, m, e.lead, e.option, h, g, m.f.flags, m.f.flags);
    var k := Run(cfg, m, e.lead + e.option).m;
    BlanksRun(cfg, k, e.trail);
    MovedOn(cfg, m, e.lead + e.option, e.trail, g, AfterBlanks(g, e.trail), m.f.flags, m.f.flags);
  }

  lemma IdleState(h: HeaderState, option: seq<byte>)
    requires option != [] && !h.MatchingTokenStart?
    ensures OptionState(h, option) == h
  {
  }

  lemma CommaStep(f: Fields)
    requires InList(f.headerState) && !f.headerState.MatchingTokenStart?
    ensures var a := ValueByte(f, ',');
            && a.Stay? && a.effect == Take(Value) && a.f.headerState == AfterComma(f.headerState)
            && a.f == f.(headerState := a.f.headerState, index := a.f.index, flags := WithFlag(f.flags, f.headerState))
            && (a.f.headerState.MatchingTokenStart? ==> a.f.index == 0)
  {
  }

  lemma CommaRun(cfg: Config, m: Machine)
    requires ListMachine(m) && !m.f.headerState.MatchingTokenStart? && m.f.nread < HTTP_MAX_HEADER_SIZE
    ensures Moved(m, Run(cfg, m, [',']), [','], AfterComma(m.f.headerState), WithFlag(m.f.flags, m.f.headerState))
    ensures ListMachine(Run(cfg, m, [',']).m)
  {
    hide Run, Absorb, ValueByte, LastIs, WithFlag;
    CommaStep(Counted(m.f));
    ListByte(cfg, m, ',');
  }

  /** What the parser knows after a list: its header state, and the flags that
      options before the last one have set. */
  datatype Reading = Reading(h: HeaderState, flags: Flags)

  function Read(flags: Flags, es: seq<Entry>): Reading
    requires ValidEntries(es)
  {
    var last := es[|es| - 1];
    if |es| == 1 then Reading(AfterBlanks(AfterOption(last.option), last.trail), flags)
    else
      var r := Read(flags, es[..|es| - 1]);
      Reading(EntryState(AfterComma(r.h), last), WithFlag(r.flags, r.h))
  }

  /** The flags once the line is known to be finished. */
  function ListFlags(flags: Flags, es: seq<Entry>): Flags
    requires ValidEntries(es)
  {
    var r := Read(flags, es);
    WithFlag(r.flags, r.h)
  }

  lemma {:induction false} ReadStates(flags: Flags, es: seq<Entry>)
    requires ValidEntries(es)
    ensures var h := Read(flags, es).h; InList(h) && !h.MatchingTokenStart?
    decreases |es|
  {
    var last := es[|es| - 1];
    if |es| == 1 {
      AfterOptionStates(last.option);
    } else {
      hide EntryState;
      ReadStates(flags, es[..|es| - 1]);
      OptionStates(AfterComma(Read(flags, es[..|es| - 1]).h), last);
    }
  }

  /** The first option of a list. */
  lemma FirstStart(cfg: Config, f: Fields, ch: byte)
    requires f.state.HeaderValueDiscardWs? && f.headerState.Connection? && OptionByte(ch)
    ensures Dispatch(cfg, f, false, ch)
         == Stay(f.(state := HeaderValue, index := 0, headerState := AfterOption([ch])), MarkTake(Value))
  {
    OptionByteFacts(ch);
    FirstOf(ch);
    hide AfterOption, Lower, OptionByte;
  }

  lemma FirstOption(cfg: Config, m: Machine, e: Entry)
    requires m.f.state.HeaderValueDiscardWs? && m.f.headerState.Connection? && !m.skip
    requires ValidEntry(e) && e.lead == [] && m.f.nread + |EntryText(e)| <= HTTP_MAX_HEADER_SIZE
    ensures var n := m.(f := m.f.(state := HeaderValue));
            Moved(n, Run(cfg, m, EntryText(e)), EntryText(e), AfterBlanks(AfterOption(e.option), e.trail), m.f.flags)
  {
    hide Run, Absorb, LastIs, AllTokens, AllBlank, AfterOption, AfterBlanks, OptionByte, Dispatch;
    var ch, rest := e.option[0], e.option[1..];
    SplitOption(e.option);
    FirstStart(cfg, Counted(m.f), ch);
    OneStay(cfg, m, ch, Counted(m.f).(state := HeaderValue, index := 0, headerState := AfterOption([ch])), MarkTake(Value));
    AbsorbedLast(m.log, [ch]);
    AfterOptionStates([ch]);
    AfterOptionStates(e.option);
    var k := Run(cfg, m, [ch]).m;
    OptionRun(cfg, k, e.option, 1);
    RunThen(cfg, m, [ch], rest);
    AbsorbSplit(m.log, Value, [ch], rest);
    var o := Run(cfg, m, e.option).m;
    BlanksRun(cfg, o, e.trail);
    RunThen(cfg, m, e.option, e.trail);
    AbsorbSplit(m.log, Value, e.option, e.trail);
    assert EntryText(e) == e.option + e.trail;
  }

  lemma {:induction false} EntriesRun(cfg: Config, m: Machine, es: seq<Entry>)
    requires m.f.state.HeaderValueDiscardWs? && m.f.headerState.Connection? && !m.skip
    requires ValidEntries(es) && m.f.nread + |EntriesText(es)| <= HTTP_MAX_HEADER_SIZE
    ensures var n, r := m.(f := m.f.(state := HeaderValue)), Read(m.f.flags, es);
            Moved(n, Run(cfg, m, EntriesText(es)), EntriesText(es), r.h, r.flags)
    decreases |es|
  {
    var last := es[|es| - 1];
    if |es| == 1 {
      FirstOption(cfg, m, last);
    } else {
      var init := es[..|es| - 1];
      EntriesInit(es);
      hide Run, Absorb, LastIs, EntryText, WithFlag, AfterComma, EntryState, ValidEntry, EntriesText, Moved, Read;
      hide ValidEntries, InList, AfterOption, AfterBlanks;
      var n, text := m.(f := m.f.(state := HeaderValue)), EntriesText(init) + [','];
      var r := Read(m.f.flags, init);
      var c := WithFlag(r.flags, r.h);
      EntriesLast(es);
      ReadLast(m.f.flags, es);
      EntriesRun(cfg, m, init);
      ReadStates(m.f.flags, init);
      CommaBehind(cfg, m, n, EntriesText(init), r);
      MovedFacts(n, Run(cfg, m, text), text, AfterComma(r.h), c);
      var b := Run(cfg, m, text).m;
      EntryRun(cfg, b, last);
      RunThen(cfg, m, text, EntryText(last));
      MovedTwice(n, Run(cfg, m, text), Run(cfg, m, EntriesText(es)), text, EntryText(last),
                 AfterComma(r.h), EntryState(AfterComma(r.h), last), c, c);
    }
  }

  lemma CommaBehind(cfg: Config, m: Machine, n: Machine, text: seq<byte>, r: Reading)
    requires n.f.state.HeaderValue? && Moved(n, Run(cfg, m, text), text, r.h, r.flags)
    requires InList(r.h) && !r.h.MatchingTokenStart? && n.f.nread + |text| < HTTP_MAX_HEADER_SIZE
    ensures Moved(n, Run(cfg, m, text + [',']), text + [','], AfterComma(r.h), WithFlag(r.flags, r.h))
    ensures ListMachine(Run(cfg, m, text + [',']).m)
  {
    hide Run, Absorb, LastIs, WithFlag, AfterComma, InList, Moved;
    MovedFacts(n, Run(cfg, m, text), text, r.h, r.flags);
    CommaRun(cfg, Run(cfg, m, text).m);
    RunThen(cfg, m, text, [',']);
    MovedTwice(n, Run(cfg, m, text), Run(cfg, m, text + [',']), text, [','], r.h, AfterComma(r.h), r.flags,
               WithFlag(r.flags, r.h));
  }

  lemma EntriesInit(es: seq<Entry>)
    requires ValidEntries(es) && |es| > 1
    ensures ValidEntries(es[..|es| - 1]) && ValidEntry(es[|es| - 1])
  {
  }

  lemma EntriesLast(es: seq<Entry>)
    requires |es| > 1
    ensures EntriesText(es) == EntriesText(es[..|es| - 1]) + [','] + EntryText(es[|es| - 1])
  {
  }

  lemma ReadLast(flags: Flags, es: seq<Entry>)
    requires |es| > 1 && ValidEntries(es) && ValidEntries(es[..|es| - 1])
    ensures var r := Read(flags, es[..|es| - 1]);
            Read(flags, es) == Reading(EntryState(AfterComma(r.h), es[|es| - 1]), WithFlag(r.flags, r.h))
  {
  }

  // ---------- The header line ----------

  /** Lists change these three flags only. */
  predicate OptionFlags(f: Flags, g: Flags) {
    g == f.(keepAlive := g.keepAlive, close := g.close, connectionUpgrade := g.connectionUpgrade)
  }

  lemma OneFlag(f: Flags, g: Flags, h: HeaderState)
    requires InList(h) && OptionFlags(f, g)
    ensures OptionFlags(f, WithFlag(g, h))
  {
  }

  lemma {:induction false} ReadFraming(flags: Flags, es: seq<Entry>)
    requires ValidEntries(es)
    ensures OptionFlags(flags, Read(flags, es).flags)
    decreases |es|
  {
    if |es| == 1 {
    } else {
      assert ValidEntries(es[..|es| - 1]);
      ReadLast(flags, es);
      hide *;
      ReadFraming(flags, es[..|es| - 1]);
      ReadStates(flags, es[..|es| - 1]);
      var r := Read(flags, es[..|es| - 1]);
      OneFlag(flags, r.flags, r.h);
    }
  }

  lemma ListFraming(flags: Flags, es: seq<Entry>)
    requires ValidEntries(es)
    ensures OptionFlags(flags, ListFlags(flags, es))
  {
    hide Read, ValidEntries, OptionFlags, WithFlag;
    ReadFraming(flags, es);
    ReadStates(flags, es);
    OneFlag(flags, Read(flags, es).flags, Read(flags, es).h);
  }

  /** A Connection header: its options, and the blanks in front of them. */
  predicate ValidOptions(name: seq<byte>, blanks: seq<byte>, es: seq<Entry>) {
    && name != [] && AllTokens(name) && (Lowered(name) == CONNECTION || Lowered(name) == PROXY_CONNECTION)
    && AllBlank(blanks) && ValidEntries(es)
  }

  function OptionsHeader(name: seq<byte>, blanks: seq<byte>, es: seq<Entry>, end: Ending): Header
    requires es != []
  {
    Header(name, [Line(blanks + EntriesText(es), end)])
  }

  /** A Connection header is reported as it was written, and sets the flags that its
      list is read as. */
  lemma OptionsRun(cfg: Config, m: Machine, name: seq<byte>, blanks: seq<byte>, es: seq<Entry>, end: Ending)
    requires AtLine(m) && ValidOptions(name, blanks, es) && !LastIs(LineBegun(m).log, Field)
    requires es != []
    requires var text := HeaderText(OptionsHeader(name, blanks, es, end)); m.f.nread + |text| <= HTTP_MAX_HEADER_SIZE
    ensures var text := HeaderText(OptionsHeader(name, blanks, es, end));
            var r := Run(cfg, m, text);
            && r.Running? && AtLine(r.m) && r.m.f.nread == m.f.nread + |text|
            && LineBegun(r.m).log == LineBegun(m).log + [Data(Field, name), Data(Value, EntriesText(es))]
            && LineBegun(r.m).f == LineBegun(m).f.(headerState := r.m.f.headerState, index := r.m.f.index,
                                                   nread := m.f.nread + |text|,
                                                   flags := ListFlags(LineBegun(m).f.flags, es))
  {
    hide Run, Lowered, Absorb, LastIs, AllTokens, AllBlank, ValidEntries, EntriesText, Read, WithFlag, EndText;
    var list := EntriesText(es);
    var text := HeaderText(OptionsHeader(name, blanks, es, end));
    OptionsText(name, blanks, es, end);
    NamePart(cfg, m, name);
    var a := Run(cfg, m, name + ":").m;
    LeadingBlanks(cfg, a, blanks);
    RunThen(cfg, m, name + ":", blanks);
    var b := Run(cfg, m, name + ":" + blanks).m;
    EntriesRun(cfg, b, es);
    RunThen(cfg, m, name + ":" + blanks, list);
    var c := Run(cfg, b, list).m;
    ValueEnd(cfg, c, end);
    RunThen(cfg, m, name + ":" + blanks + list, EndText(end));
    AppendedValue(LineBegun(m).log, name, list);
  }

  lemma OptionsText(name: seq<byte>, blanks: seq<byte>, es: seq<Entry>, end: Ending)
    requires es != []
    ensures HeaderText(OptionsHeader(name, blanks, es, end)) == name + ":" + blanks + EntriesText(es) + EndText(end)
  {
    hide EntriesText, EndText;
    var l := Line(blanks + EntriesText(es), end);
    assert LinesText([l]) == LineText(l) + LinesText([]);
    assert LinesText([l]) == blanks + EntriesText(es) + EndText(end);
  }

  // ---------- Against the standard ----------

  predicate Lists(es: seq<Entry>, word: string) {
    exists k :: 0 <= k < |es| && Is(es[k].option, word)
  }

  /** The flags that a list sets by section 6.1 of RFC 7230. */
  function StandardFlags(flags: Flags, es: seq<Entry>): Flags {
    flags.(keepAlive := flags.keepAlive || Lists(es, KEEP_ALIVE), close := flags.close || Lists(es, CLOSE),
           connectionUpgrade := flags.connectionUpgrade || Lists(es, UPGRADE))
  }

  /** Where the parser is ready for an option, it is so again behind the next comma
      if and only if there was no tab in front of the option, no underscore at its
      beginning, and no mere beginning of a word right in front of the comma. */
  lemma ReadyAgain(e: Entry)
    requires ValidEntry(e)
    ensures AfterComma(EntryState(MatchingTokenStart, e)).MatchingTokenStart? <==>
              '\t' !in e.lead && e.option[0] != '_' && !(Partial(e.option) && e.trail == [])
  {
    if '\t' in e.lead || e.option[0] == '_' {
      LostState(e);
    } else {
      ClearState(e);
      hide AfterOption, AfterBlanks, EntryState, Partial, ValidEntry;
    }
  }

  lemma ClearState(e: Entry)
    requires ValidEntry(e) && '\t' !in e.lead && e.option[0] != '_'
    ensures EntryState(MatchingTokenStart, e) == AfterBlanks(AfterOption(e.option), e.trail)
  {
    assert OptionByte(e.option[0]);
    OptionByteFacts(e.option[0]);
    hide AllTokens, AllBlank, Lower, Token, AfterOption;
  }

  lemma LostState(e: Entry)
    requires ValidEntry(e) && ('\t' in e.lead || e.option[0] == '_')
    ensures EntryState(MatchingTokenStart, e) == General
  {
    assert OptionByte(e.option[0]);
    OptionByteFacts(e.option[0]);
    hide AllTokens, AllBlank, Lower, Token, AfterOption;
  }

  /** And an option of the list is seen if and only if it is one of the words, and
      there is no tab around it. */
  lemma SeenExactly(e: Entry)
    requires ValidEntry(e)
    ensures Seen(EntryState(MatchingTokenStart, e)) <==> Named(e.option) && '\t' !in e.lead && '\t' !in e.trail
  {
    assert OptionByte(e.option[0]);
    OptionByteFacts(e.option[0]);
    if Named(e.option) {
      NamedStart(e.option);
    }
    hide AllBlank, AllTokens, Token, Lower, Begins;
  }

  lemma NamedStart(option: seq<byte>)
    requires option != [] && Named(option)
    ensures option[0] != '_'
  {
    OneWord(option);
  }

  /** Once lost, the parser sees no further option of the line. */
  lemma LostStaysLost(flags: Flags, es: seq<Entry>, e: Entry)
    requires ValidEntries(es) && ValidEntry(e) && Read(flags, es).h.General?
    ensures ValidEntries(es + [e]) && Read(flags, es + [e]) == Read(flags, es)
    ensures ListFlags(flags, es + [e]) == ListFlags(flags, es)
  {
    assert (es + [e])[..|es|] == es;
    assert ValidEntries(es + [e]);
    ReadLast(flags, es + [e]);
    hide Read, ValidEntries, ValidEntry;
  }

  // ---------- A whole list ----------

  /** How the parser stands in front of an entry: ready for an option, skipping up
      to the next comma, or lost for the rest of the line. */
  datatype Spot = Ready | Skipping | Lost

  function SpotState(at: Spot): HeaderState {
    if at.Ready? then MatchingTokenStart else if at.Skipping? then MatchingToken else General
  }

  predicate Underscored(option: seq<byte>) {
    option != [] && option[0] == '_'
  }

  /** How it stands behind an entry and its comma. The first byte of a list is read
      in another state, which an underscore does not leave. */
  function Behind(at: Spot, e: Entry, first: bool): Spot {
    if at.Skipping? then Ready
    else if at.Lost? || (!first && ('\t' in e.lead || Underscored(e.option))) then Lost
    else if Partial(e.option) && e.trail == [] then Skipping
    else Ready
  }

  function SpotOf(es: seq<Entry>): Spot {
    if es == [] then Ready else Behind(SpotOf(es[..|es| - 1]), es[|es| - 1], |es| == 1)
  }

  /** The parser compares the option of entry k with the words. */
  predicate Visible(es: seq<Entry>, k: nat) {
    k < |es| && SpotOf(es[..k]).Ready? && '\t' !in es[k].lead && '\t' !in es[k].trail
  }

  predicate Shows(es: seq<Entry>, word: string) {
    exists k :: 0 <= k < |es| && Visible(es, k) && Is(es[k].option, word)
  }

  function WithOption(flags: Flags, option: seq<byte>): Flags {
    flags.(keepAlive := flags.keepAlive || Is(option, KEEP_ALIVE), close := flags.close || Is(option, CLOSE),
           connectionUpgrade := flags.connectionUpgrade || Is(option, UPGRADE))
  }

  /** The flags of the words that visible entries hold. */
  function ShownFlags(flags: Flags, es: seq<Entry>): Flags {
    flags.(keepAlive := flags.keepAlive || Shows(es, KEEP_ALIVE), close := flags.close || Shows(es, CLOSE),
           connectionUpgrade := flags.connectionUpgrade || Shows(es, UPGRADE))
  }

  lemma OptionTold(flags: Flags, option: seq<byte>)
    requires option != []
    ensures var h := AfterOption(option);
            && (Seen(h) <==> Named(option)) && (Part(h) <==> Partial(option)) && InList(h) && !h.MatchingTokenStart?
            && !h.General? && WithFlag(flags, h) == WithOption(flags, option)
  {
    OneWord(option);
    hide Lower, Begins;
  }

  /** What the words of an option, and the blanks behind it, come to. */
  lemma OptionRead(flags: Flags, e: Entry)
    requires e.option != []
    ensures var h := AfterBlanks(AfterOption(e.option), e.trail);
            && AfterComma(h) == SpotState(Behind(Ready, e, true))
            && WithFlag(flags, h) == if '\t' in e.trail then flags else WithOption(flags, e.option)
  {
    OptionTold(flags, e.option);
    hide AfterOption, Partial, Named, WithOption;
  }

  lemma EntryRead(flags: Flags, at: Spot, e: Entry)
    requires ValidEntry(e)
    ensures var h := EntryState(SpotState(at), e);
            && AfterComma(h) == SpotState(Behind(at, e, false))
            && WithFlag(flags, h) ==
               if at.Ready? && '\t' !in e.lead && '\t' !in e.trail then WithOption(flags, e.option) else flags
  {
    if !at.Ready? {
      hide AllTokens, AllBlank, AfterOption, Is, Partial;
    } else if '\t' in e.lead || e.option[0] == '_' {
      LostState(e);
      OneWord(e.option);
      assert Lower('_') == 127 as char;
      hide AllTokens, AllBlank, AfterOption, EntryState, Lower, Partial;
    } else {
      ClearState(e);
      OptionRead(flags, e);
      hide AllTokens, AllBlank, AfterOption, EntryState, AfterBlanks, WithFlag, WithOption, Partial;
    }
  }

  lemma ShowsLast(es: seq<Entry>, word: string)
    requires es != []
    ensures var n := |es| - 1;
            Shows(es, word) <==> Shows(es[..n], word) || (Visible(es, n) && Is(es[n].option, word))
  {
    hide Is, SpotOf;
    var init := es[..|es| - 1];
    forall k | 0 <= k < |init| ensures init[k] == es[k] && init[..k] == es[..k] {
    }
    if Shows(init, word) {
      var k :| 0 <= k < |init| && Visible(init, k) && Is(init[k].option, word);
      assert Visible(es, k) && Is(es[k].option, word);
    }
    if Shows(es, word) {
      var k :| 0 <= k < |es| && Visible(es, k) && Is(es[k].option, word);
      assert k < |init| ==> Visible(init, k) && Is(init[k].option, word);
    }
  }

  lemma ShownLast(flags: Flags, es: seq<Entry>)
    requires es != []
    ensures var n := |es| - 1;
            var before := ShownFlags(flags, es[..n]);
            ShownFlags(flags, es) == if Visible(es, n) then WithOption(before, es[n].option) else before
  {
    ShowsLast(es, KEEP_ALIVE);
    ShowsLast(es, CLOSE);
    ShowsLast(es, UPGRADE);
    hide Shows, Is, Visible;
  }

  lemma OneShown(flags: Flags, e: Entry)
    requires e.lead == []
    ensures ShownFlags(flags, [e]) == if '\t' in e.trail then flags else WithOption(flags, e.option)
    ensures SpotOf([e]) == Behind(Ready, e, true)
  {
    assert [e][..0] == [];
    ShownLast(flags, [e]);
    assert !Shows([], KEEP_ALIVE) && !Shows([], CLOSE) && !Shows([], UPGRADE);
    hide Shows, Is, Partial;
  }

  lemma NextSpot(es: seq<Entry>)
    requires |es| > 1
    ensures var n := |es| - 1;
            && SpotOf(es) == Behind(SpotOf(es[..n]), es[n], false)
            && (Visible(es, n) <==> SpotOf(es[..n]).Ready? && '\t' !in es[n].lead && '\t' !in es[n].trail)
  {
    hide Behind;
  }

  lemma {:induction false} ListSpot(flags: Flags, es: seq<Entry>)
    requires ValidEntries(es)
    ensures AfterComma(Read(flags, es).h) == SpotState(SpotOf(es))
    ensures ListFlags(flags, es) == ShownFlags(flags, es)
    decreases |es|
  {
    assert es != [] && es[0].lead == [] && ValidEntry(es[|es| - 1]);
    hide *;
    var n := |es| - 1;
    if n == 0 {
      assert es == [es[0]];
      OptionRead(flags, es[0]);
      OneShown(flags, es[0]);
    } else {
      EntriesInit(es);
      ReadLast(flags, es);
      ListSpot(flags, es[..n]);
      EntryRead(ListFlags(flags, es[..n]), SpotOf(es[..n]), es[n]);
      NextSpot(es);
      ShownLast(flags, es);
    }
  }

  /** A list sets exactly the flags of the words that visible entries hold. */
  lemma ListIsShown(flags: Flags, es: seq<Entry>)
    requires ValidEntries(es)
    ensures ListFlags(flags, es) == ShownFlags(flags, es)
  {
    ListSpot(flags, es);
  }

  /** So a list sets the flags that the standard says if and only if each of the
      three words that it holds has its flag set already or is held by a visible
      entry. */
  lemma StandardExactly(flags: Flags, es: seq<Entry>)
    requires ValidEntries(es)
    ensures ListFlags(flags, es) == StandardFlags(flags, es) <==>
            && (Lists(es, KEEP_ALIVE) ==> flags.keepAlive || Shows(es, KEEP_ALIVE))
            && (Lists(es, CLOSE) ==> flags.close || Shows(es, CLOSE))
            && (Lists(es, UPGRADE) ==> flags.connectionUpgrade || Shows(es, UPGRADE))
  {
    ListSpot(flags, es);
    ShownListed(es, KEEP_ALIVE);
    ShownListed(es, CLOSE);
    ShownListed(es, UPGRADE);
    hide ListFlags, Lists, Shows, ValidEntries;
  }

  lemma ShownListed(es: seq<Entry>, word: string)
    ensures Shows(es, word) ==> Lists(es, word)
  {
    hide Is, Visible;
  }

  /** A list without traps: a caller can look for them entry by entry. */
  predicate Clear(es: seq<Entry>) {
    forall k :: 0 <= k < |es| ==> ClearAt(es, k)
  }

  predicate ClearAt(es: seq<Entry>, k: nat)
    requires k < |es|
  {
    && (k > 0 ==> '\t' !in es[k].lead && !Underscored(es[k].option))
    && (k + 1 < |es| ==> !(Partial(es[k].option) && es[k].trail == []))
    && (Named(es[k].option) ==> '\t' !in es[k].trail)
  }

  lemma {:induction false} ClearSpot(es: seq<Entry>, k: nat)
    requires Clear(es) && k < |es|
    ensures SpotOf(es[..k]).Ready?
    decreases k
  {
    if k == 0 {
      assert SpotOf([]).Ready?;
    } else {
      assert ClearAt(es, k - 1) && es[..k][..k - 1] == es[..k - 1];
      hide Partial, Clear;
      ClearSpot(es, k - 1);
    }
  }

  lemma ClearShows(es: seq<Entry>, word: string)
    requires ValidEntries(es) && Clear(es) && (word == KEEP_ALIVE || word == CLOSE || word == UPGRADE)
    ensures Lists(es, word) ==> Shows(es, word)
  {
    hide Is, SpotOf, ValidEntry, Partial;
    if Lists(es, word) {
      var k :| 0 <= k < |es| && Is(es[k].option, word);
      ClearSpot(es, k);
      assert ClearAt(es, k) && Visible(es, k);
    }
  }

  /** Such a list sets the flags that the standard says. */
  lemma ClearIsStandard(flags: Flags, es: seq<Entry>)
    requires ValidEntries(es) && Clear(es)
    ensures ListFlags(flags, es) == StandardFlags(flags, es)
  {
    StandardExactly(flags, es);
    ClearShows(es, KEEP_ALIVE);
    ClearShows(es, CLOSE);
    ClearShows(es, UPGRADE);
    hide Clear, ListFlags, Lists, Shows, ValidEntries;
  }

  // ---------- Lists that are read otherwise ----------

  /** A list of options, and whether it sets the close flag. */
  predicate Reads(flags: Flags, es: seq<Entry>, close: bool) {
    ValidEntries(es) && (ListFlags(flags, es).close <==> close)
  }

  /** "a,<tab>close", "c,close" and "a,_b,close" do not close, "a, close" does. */
  lemma TrappedLists(flags: Flags)
    requires !flags.close
    ensures Reads(flags, [Entry("", "a", ""), Entry("\t", "close", "")], false)
    ensures Reads(flags, [Entry("", "c", ""), Entry("", "close", "")], false)
    ensures Reads(flags, [Entry("", "a", ""), Entry("", "_b", ""), Entry("", "close", "")], false)
    ensures Reads(flags, [Entry("", "a", ""), Entry(" ", "close", "")], true)
  {
    hide *;
    SomeEntries();
    TabHides();
    UnderscoreHides();
    ReadsShown(flags, [Entry("", "a", ""), Entry("\t", "close", "")]);
    ReadsShown(flags, [Entry("", "c", ""), Entry("", "close", "")]);
    ReadsShown(flags, [Entry("", "a", ""), Entry("", "_b", ""), Entry("", "close", "")]);
    ReadsShown(flags, [Entry("", "a", ""), Entry(" ", "close", "")]);
  }

  lemma ReadsShown(flags: Flags, es: seq<Entry>)
    requires ValidEntries(es) && !flags.close
    ensures Reads(flags, es, Shows(es, CLOSE))
  {
    ListIsShown(flags, es);
    hide Shows, ListFlags, ValidEntries;
  }

  lemma SomeEntries()
    ensures ValidEntries([Entry("", "a", ""), Entry("\t", "close", "")])
    ensures ValidEntries([Entry("", "a", ""), Entry(" ", "close", "")])
    ensures ValidEntries([Entry("", "c", ""), Entry("", "close", "")])
    ensures ValidEntries([Entry("", "a", ""), Entry("", "_b", ""), Entry("", "close", "")])
  {
    SomeTokens();
    hide Token;
  }

  lemma TabHides()
    ensures !Shows([Entry("", "a", ""), Entry("\t", "close", "")], CLOSE)
    ensures Shows([Entry("", "a", ""), Entry(" ", "close", "")], CLOSE)
    ensures !Shows([Entry("", "c", ""), Entry("", "close", "")], CLOSE)
  {
    FewOptions();
    TwoShown(Entry("", "a", ""), Entry("\t", "close", ""));
    TwoShown(Entry("", "a", ""), Entry(" ", "close", ""));
    TwoShown(Entry("", "c", ""), Entry("", "close", ""));
    hide Is, Partial, Shows;
  }

  lemma UnderscoreHides()
    ensures !Shows([Entry("", "a", ""), Entry("", "_b", ""), Entry("", "close", "")], CLOSE)
  {
    FewOptions();
    TwoShown(Entry("", "a", ""), Entry("", "_b", ""));
    hide Is, Partial, Shows, SpotOf;
    ThreeShown(Entry("", "a", ""), Entry("", "_b", ""), Entry("", "close", ""));
  }

  const TAB_LIST: seq<byte> := "a,\tclose"
  const SPACE_LIST: seq<byte> := "a, close"

  /** So a Connection header "a,<tab>close" leaves the flag unset that "a, close"
      sets. */
  lemma TabBehindComma(cfg: Config, m: Machine, name: seq<byte>)
    requires AtLine(m) && !LastIs(LineBegun(m).log, Field) && !LineBegun(m).f.flags.close
    requires name != [] && AllTokens(name) && Lowered(name) == CONNECTION
    requires m.f.nread + |name| + 11 <= HTTP_MAX_HEADER_SIZE
    ensures var r := Run(cfg, m, name + ":" + TAB_LIST + CRLF); r.Running? && !LineBegun(r.m).f.flags.close
    ensures var r := Run(cfg, m, name + ":" + SPACE_LIST + CRLF); r.Running? && LineBegun(r.m).f.flags.close
  {
    hide Run, Lowered, AllTokens, LastIs, LineBegun, ListFlags, ValidEntries, HeaderText;
    TrappedLists(LineBegun(m).f.flags);
    var tab, space := [Entry("", "a", ""), Entry("\t", "close", "")], [Entry("", "a", ""), Entry(" ", "close", "")];
    assert TAB_LIST == "a" + [','] + ("\t" + "close") && SPACE_LIST == "a" + [','] + (" " + "close");
    TwoText(name, tab);
    TwoText(name, space);
    OptionsRun(cfg, m, name, "", tab, CrLf);
    OptionsRun(cfg, m, name, "", space, CrLf);
  }

  lemma TwoText(name: seq<byte>, es: seq<Entry>)
    requires |es| == 2 && es[0] == Entry("", "a", "") && es[1].trail == ""
    ensures HeaderText(OptionsHeader(name, "", es, CrLf)) ==
            name + ":" + ("a" + [','] + (es[1].lead + es[1].option)) + CRLF
  {
    OptionsText(name, "", es, CrLf);
    EntriesLast(es);
    assert es[..1] == [es[0]] && EntryText(es[0]) == "a" && EntryText(es[1]) == es[1].lead + es[1].option;
    assert EntriesText(es[..1]) == "a";
    hide EntriesText, EntryText, HeaderText;
    assert name + ":" + "" == name + ":";
  }

  lemma SomeTokens()
    ensures AllTokens("a") && AllTokens("c") && AllTokens("_b") && AllTokens("close")
  {
  }

  lemma FewOptions()
    ensures !Is("a", CLOSE) && !Is("c", CLOSE) && !Is("_b", CLOSE) && Is("close", CLOSE)
    ensures !Partial("a") && Partial("c")
  {
    assert Is("close", CLOSE) && Begins("c", CLOSE);
    OneWord("a");
  }

  lemma OneShows(a: Entry)
    requires a.lead == []
    ensures Shows([a], CLOSE) <==> '\t' !in a.trail && Is(a.option, CLOSE)
    ensures SpotOf([a]) == Behind(Ready, a, true)
  {
    assert [a][..0] == [];
    ShowsLast([a], CLOSE);
    assert !Shows([], CLOSE);
    hide Is, Behind;
  }

  lemma TwoShown(a: Entry, b: Entry)
    requires a.lead == []
    ensures SpotOf([a, b]) == Behind(Behind(Ready, a, true), b, false)
    ensures Shows([a, b], CLOSE) <==>
              || ('\t' !in a.trail && Is(a.option, CLOSE))
              || (Behind(Ready, a, true).Ready? && '\t' !in b.lead && '\t' !in b.trail && Is(b.option, CLOSE))
  {
    assert [a, b][..1] == [a];
    OneShows(a);
    ShowsLast([a, b], CLOSE);
    NextSpot([a, b]);
    hide Is, Behind, Shows, Visible, SpotOf;
  }

  lemma ThreeShown(a: Entry, b: Entry, c: Entry)
    requires SpotOf([a, b]).Lost?
    ensures Shows([a, b, c], CLOSE) <==> Shows([a, b], CLOSE)
  {
    assert [a, b, c][..2] == [a, b];
    ShowsLast([a, b, c], CLOSE);
    hide Is, Behind, Shows, SpotOf;
  }
}
