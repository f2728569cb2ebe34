/** How a caller can tell that the parser has left the stream to another
    protocol: the upgrade field is set and message_complete fired last. */
module HttpUpgrade {
  import opened HttpChars
  import opened HttpMachine
  import opened HttpRun

  predicate Completed(log: Log) {
    |log| > 0 && log[|log| - 1] == MessageComplete
  }

  /** The parser has not left the stream. */
  predicate Open(m: Machine) {
    !(m.f.upgrade && Completed(m.log))
  }

  predicate UpgradeFits(f: Fields, a: Act) {
    && (a.Leave? ==> a.f.upgrade && a.effect == Notify(MessageComplete))
    && (a.Stay? || a.Again? ==>
          && (a.effect == Notify(MessageComplete) ==> !a.f.upgrade)
          && (a.f.upgrade && !f.upgrade ==> a.effect.Notify?))
  }

  lemma ValueUpgrade(f: Fields, ch: byte)
    ensures UpgradeFits(f, ValueByte(f, ch)) && UpgradeFits(f, ValueStart(f, ch))
    ensures MatchName(f, ch, Token(ch)).upgrade == f.upgrade
  {
    hide Match, Token, WithFlag;
  }

  lemma HeadersUpgrade(cfg: Config, f: Fields, unchecked: bool, ch: byte)
    requires InHeaders(f.state)
    ensures UpgradeFits(f, DispatchHeaders(cfg, f, unchecked, ch))
  {
    hide MatchName, ValueByte, ValueStart, WithFlag, Token, EndOfHeaders, StartBody, IsHeaderChar;
    ValueUpgrade(f, ch);
    EndUpgrade(cfg, f, ch);
  }

  lemma EndUpgrade(cfg: Config, f: Fields, ch: byte)
    ensures UpgradeFits(f, EndOfHeaders(cfg, f, ch)) && UpgradeFits(f, StartBody(f, ch))
  {
    hide NewMessage;
  }

  lemma DispatchUpgrade(cfg: Config, f: Fields, unchecked: bool, ch: byte)
    ensures UpgradeFits(f, Dispatch(cfg, f, unchecked, ch))
  {
    hide DispatchHeaders, ParseUrlChar, NewMessage, Unhex, MethodString, Reguess, MethodOfLetter;
    if InStartLine(f.state) {
      hide DispatchRequestLine, DispatchBody;
    } else if InRequestLine(f.state) {
      hide DispatchStartLine, DispatchBody;
    } else if InHeaders(f.state) {
      hide DispatchStartLine, DispatchRequestLine, DispatchBody, UpgradeFits;
      HeadersUpgrade(cfg, f, unchecked, ch);
    } else {
      hide DispatchStartLine, DispatchRequestLine;
    }
  }

  lemma {:induction false} PassesUpgrade(cfg: Config, m: Machine, ch: byte)
    requires Open(m)
    ensures var r := Passes(cfg, m, ch);
            && (r.Running? ==> Open(r.m))
            && (r.Stopped? ==> r.m.f.upgrade && Completed(r.m.log))
    decreases Rank(m.f.state)
  {
    hide Dispatch;
    DispatchUpgrade(cfg, m.f, m.skip && Skips(m.f), ch);
    var a := Dispatch(cfg, m.f, m.skip && Skips(m.f), ch);
    if a.Again? {
      PassesUpgrade(cfg, Machine(a.f, false, LogEffect(m.log, a.effect, ch)), ch);
    }
  }

  /** From an open parser, a run stops exactly when upgrade is set and the last
      callback was message_complete. */
  lemma {:induction false} RunUpgrade(cfg: Config, m: Machine, data: seq<byte>)
    requires Open(m)
    ensures var r := Run(cfg, m, data); !r.Failed? ==> (r.Stopped? <==> r.m.f.upgrade && Completed(r.m.log))
    decreases |data|
  {
    hide Passes;
    if data == [] {
    } else {
      PassesUpgrade(cfg, m.(f := Counted(m.f)), data[0]);
      var r := Byte(cfg, m, data[0]);
      if r.Running? {
        RunUpgrade(cfg, r.m, data[1..]);
      }
    }
  }

  lemma CompletedMerged(raw: Log)
    ensures Completed(Merged(raw)) <==> Completed(raw)
  {
  }
}
