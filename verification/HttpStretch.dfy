/** Runs over stretches of bytes that http_parser_execute jumps across at once:
    what the byte-at-a-time reading makes of them. */
module HttpStretch {
  import opened HttpChars
  import opened HttpMachine
  import opened HttpRun

  /** What one byte leads to, continued over the bytes after it. */
  function Resume(cfg: Config, r: Outcome, rest: seq<byte>): Outcome {
    match r
    case Running(m) => Run(cfg, m, rest)
    case Stopped(m, _) => Stopped(m, |rest|)
    case Failed(e) => Failed(e)
  }

  lemma RunCons(cfg: Config, m: Machine, data: seq<byte>, q: nat)
    requires q < |data|
    ensures Run(cfg, m, data[q..]) == Resume(cfg, Byte(cfg, m, data[q]), data[q + 1..])
  {
    hide Byte;
    assert data[q..][1..] == data[q + 1..];
  }

  /** A byte that the first pass settles. */
  lemma RunStay(cfg: Config, m: Machine, data: seq<byte>, q: nat, f: Fields, e: Effect)
    requires q < |data| && Counted(m.f).nread <= HTTP_MAX_HEADER_SIZE
    requires Dispatch(cfg, Counted(m.f), m.skip && Skips(m.f), data[q]) == Stay(f, e)
    ensures Run(cfg, m, data[q..]) ==
            Run(cfg, Machine(f, Skips(m.f) && f.state.HeaderValue?, LogEffect(m.log, e, data[q])), data[q + 1..])
  {
    hide Dispatch, LogEffect;
    RunCons(cfg, m, data, q);
  }

  lemma OneStay(cfg: Config, m: Machine, ch: byte, f: Fields, e: Effect)
    requires Counted(m.f).nread <= HTTP_MAX_HEADER_SIZE
    requires Dispatch(cfg, Counted(m.f), m.skip && Skips(m.f), ch) == Stay(f, e)
    ensures Run(cfg, m, [ch]) == Running(Machine(f, Skips(m.f) && f.state.HeaderValue?, LogEffect(m.log, e, ch)))
  {
    hide Dispatch, LogEffect;
    assert [ch][1..] == [];
  }

  lemma OneErr(cfg: Config, m: Machine, ch: byte, e: Errno)
    requires Counted(m.f).nread <= HTTP_MAX_HEADER_SIZE
    requires Dispatch(cfg, Counted(m.f), m.skip && Skips(m.f), ch) == Err(e)
    ensures Run(cfg, m, [ch]) == Failed(e)
  {
    hide Dispatch;
  }

  lemma RunThen(cfg: Config, m: Machine, a: seq<byte>, b: seq<byte>)
    requires Run(cfg, m, a).Running?
    ensures Run(cfg, m, a + b) == Run(cfg, Run(cfg, m, a).m, b)
  {
    RunAppend(cfg, m, a, b);
  }

  /** A run, with its last byte split off. */
  lemma RunLast(cfg: Config, m: Machine, data: seq<byte>)
    requires data != []
    ensures var r := Run(cfg, m, data[..|data| - 1]);
            && (r.Running? ==> Run(cfg, m, data) == Run(cfg, r.m, [data[|data| - 1]]))
            && (r.Failed? ==> Run(cfg, m, data) == r)
  {
    hide Run;
    RunAppend(cfg, m, data[..|data| - 1], [data[|data| - 1]]);
    assert data == data[..|data| - 1] + [data[|data| - 1]];
  }

  lemma RunNothing(cfg: Config, m: Machine)
    ensures Run(cfg, m, []) == Running(m)
  {
  }

  /** A byte that the first pass sends back to the switch. */
  lemma RunAgain(cfg: Config, m: Machine, data: seq<byte>, q: nat, f: Fields, e: Effect)
    requires q < |data| && Counted(m.f).nread <= HTTP_MAX_HEADER_SIZE
    requires Dispatch(cfg, Counted(m.f), m.skip && Skips(m.f), data[q]) == Again(f, e)
    ensures Run(cfg, m, data[q..]) ==
            Resume(cfg, Passes(cfg, Machine(f, false, LogEffect(m.log, e, data[q])), data[q]), data[q + 1..])
  {
    hide Dispatch, LogEffect;
    RunCons(cfg, m, data, q);
  }

  predicate NoLineEnd(data: seq<byte>) {
    CR !in data && LF !in data
  }

  lemma AbsorbedLast(log: Log, bytes: seq<byte>)
    ensures LastIs(Absorb(log, Data(Value, bytes)), Value)
  {
  }

  /** A stretch of body bytes that does not use up the length; with `eof`, the
      body that lasts until the connection is closed. */
  lemma {:induction false} BodyStretch(cfg: Config, m: Machine, data: seq<byte>, q: nat, r: nat)
    requires q < r <= |data|
    requires m.f.state.BodyIdentityEof? || ((m.f.state.BodyIdentity? || m.f.state.ChunkData?) && r - q < m.f.contentLength)
    ensures var f := if m.f.state.BodyIdentityEof? then m.f
                     else m.f.(contentLength := m.f.contentLength - (r - q));
            Run(cfg, m, data[q..]) == Run(cfg, Machine(f, false, Absorb(m.log, Data(Body, data[q..r]))), data[r..])
    decreases r - q
  {
    hide Run, Absorb, Byte, Passes;
    var f := if m.f.state.BodyIdentityEof? then m.f else m.f.(contentLength := m.f.contentLength - 1);
    RunStayBody(cfg, m, data, q, f);
    var log := Absorb(m.log, Data(Body, [data[q]]));
    if q + 1 == r {
      assert data[q..r] == [data[q]];
    } else {
      BodyStretch(cfg, Machine(f, false, log), data, q + 1, r);
      AbsorbSplit(m.log, Body, [data[q]], data[q + 1..r]);
      assert [data[q]] + data[q + 1..r] == data[q..r];
    }
  }

  lemma RunStayBody(cfg: Config, m: Machine, data: seq<byte>, q: nat, f: Fields)
    requires q < |data|
    requires m.f.state.BodyIdentityEof? || m.f.state.BodyIdentity? || m.f.state.ChunkData?
    requires Dispatch(cfg, m.f, false, data[q]) == Stay(f, MarkTake(Body))
    ensures Run(cfg, m, data[q..]) ==
            Run(cfg, Machine(f, false, Absorb(m.log, Data(Body, [data[q]]))), data[q + 1..])
  {
    hide Dispatch, Absorb;
    RunCons(cfg, m, data, q);
  }
}
