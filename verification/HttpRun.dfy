/** The reference reading of a byte stream: the machine fed one byte at a time,
    with the callbacks it has fired so far. Neighbouring data callbacks of one
    kind are merged, so this log does not show where a call began or ended. */
module HttpRun {
  import opened HttpChars
  import opened HttpMachine

  type Log = seq<Event>

  /** A log with one more event, merged into a last data event of its kind. */
  function Absorb(log: Log, e: Event): (r: Log)
    ensures |r| > 0
    ensures e.Data? ==> r[|r| - 1].Data? && r[|r| - 1].kind == e.kind
  {
    if e.Data? && |log| > 0 && log[|log| - 1].Data? && log[|log| - 1].kind == e.kind then
      log[..|log| - 1] + [Data(e.kind, log[|log| - 1].bytes + e.bytes)]
    else log + [e]
  }

  /** A list of callbacks with neighbouring data callbacks of one kind merged. */
  function Merged(raw: Log): Log {
    if raw == [] then [] else Absorb(Merged(raw[..|raw| - 1]), raw[|raw| - 1])
  }

  lemma MergedAppend(raw: Log, e: Event)
    ensures Merged(raw + [e]) == Absorb(Merged(raw), e)
  {
    assert (raw + [e])[..|raw|] == raw;
  }

  /** A data callback cut in two merges back into one. */
  lemma AbsorbSplit(log: Log, k: DataKind, a: seq<byte>, b: seq<byte>)
    ensures Absorb(Absorb(log, Data(k, a)), Data(k, b)) == Absorb(log, Data(k, a + b))
  {
    var r := Absorb(log, Data(k, a));
    if |log| > 0 && log[|log| - 1].Data? && log[|log| - 1].kind == k {
      assert (log[|log| - 1].bytes + a) + b == log[|log| - 1].bytes + (a + b);
      assert r[..|r| - 1] == log[..|log| - 1];
    } else {
      assert r[..|r| - 1] == log;
    }
  }

  predicate LastIs(log: Log, k: DataKind) {
    |log| > 0 && log[|log| - 1].Data? && log[|log| - 1].kind == k
  }

  lemma AbsorbNothing(log: Log, k: DataKind)
    requires LastIs(log, k)
    ensures Absorb(log, Data(k, [])) == log
  {
    assert log[|log| - 1].bytes + [] == log[|log| - 1].bytes;
    assert log[..|log| - 1] + [log[|log| - 1]] == log;
  }

  /** What a pass over byte `ch` adds to the merged log. */
  function LogEffect(log: Log, e: Effect, ch: byte): Log {
    match e
    case Quiet => log
    case Mark(k) => Absorb(log, Data(k, []))
    case Flush(k) => Absorb(log, Data(k, []))
    case MarkFlush(k) => Absorb(log, Data(k, []))
    case Take(k) => Absorb(log, Data(k, [ch]))
    case MarkTake(k) => Absorb(log, Data(k, [ch]))
    case MarkTakeFlush(k) => Absorb(log, Data(k, [ch]))
    case Notify(event) => log + [event]
  }

  /** The machine between two bytes. `skip`: a byte of the present header value
      was tested and found uninteresting, so the rest of the value is not tested. */
  datatype Machine = Machine(f: Fields, skip: bool, log: Log)

  /** Where a stream leaves the machine: ready for more; stopped with `left`
      bytes unread (they belong to another protocol); or in error. */
  datatype Outcome = Running(m: Machine) | Stopped(m: Machine, left: nat) | Failed(errno: Errno)

  predicate Skips(f: Fields) {
    f.state.HeaderValue? && f.headerState.General?
  }

  /** All passes over one byte, already counted. */
  function Passes(cfg: Config, m: Machine, ch: byte): Outcome
    decreases Rank(m.f.state)
  {
    match Dispatch(cfg, m.f, m.skip && Skips(m.f), ch)
    case Err(e) => Failed(e)
    case Stay(f, e) => Running(Machine(f, Skips(m.f) && f.state.HeaderValue?, LogEffect(m.log, e, ch)))
    case Leave(f, e) => Stopped(Machine(f, false, LogEffect(m.log, e, ch)), 0)
    case Again(f, e) => Passes(cfg, Machine(f, false, LogEffect(m.log, e, ch)), ch)
  }

  function Counted(f: Fields): Fields {
    if ParsingHeader(f.state) then f.(nread := f.nread + 1) else f
  }

  function Byte(cfg: Config, m: Machine, ch: byte): Outcome {
    var f := Counted(m.f);
    if ParsingHeader(m.f.state) && f.nread > HTTP_MAX_HEADER_SIZE then Failed(HeaderOverflow)
    else Passes(cfg, m.(f := f), ch)
  }

  function Run(cfg: Config, m: Machine, data: seq<byte>): Outcome
    decreases |data|
  {
    if data == [] then Running(m)
    else
      match Byte(cfg, m, data[0])
      case Running(m') => Run(cfg, m', data[1..])
      case Stopped(m', _) => Stopped(m', |data| - 1)
      case Failed(e) => Failed(e)
  }

  lemma {:induction false} RunAppend(cfg: Config, m: Machine, a: seq<byte>, b: seq<byte>)
    ensures Run(cfg, m, a + b) ==
            match Run(cfg, m, a)
            case Running(m') => Run(cfg, m', b)
            case Stopped(m', left) => Stopped(m', left + |b|)
            case Failed(e) => Failed(e)
    decreases |a|
  {
    if a == [] {
      assert a + b == b;
    } else {
      assert (a + b)[1..] == a[1..] + b;
      match Byte(cfg, m, a[0])
      case Running(m') => RunAppend(cfg, m', a[1..], b);
      case Stopped(_, _) =>
      case Failed(_) =>
    }
  }

  // ---------- Separate calls ----------

  /** A new call starts: it knows nothing of a skip in the previous one. */
  function NewCall(m: Machine): Machine {
    m.(skip := false)
  }

  function Concat(pieces: seq<seq<byte>>): seq<byte> {
    if pieces == [] then [] else pieces[0] + Concat(pieces[1..])
  }

  /** One call per piece, the way bytes arrive from a socket. */
  function Feed(cfg: Config, m: Machine, pieces: seq<seq<byte>>): Outcome
    decreases |pieces|
  {
    if pieces == [] then Running(m)
    else
      match Run(cfg, NewCall(m), pieces[0])
      case Running(m') => Feed(cfg, m', pieces[1..])
      case Stopped(m', left) => Stopped(m', left + |Concat(pieces[1..])|)
      case Failed(e) => Failed(e)
  }

  /** Same fields, same merged log, same number of unread bytes; or the same error. */
  predicate Agree(a: Outcome, b: Outcome) {
    match (a, b)
    case (Running(m), Running(n)) => m.f == n.f && m.log == n.log
    case (Stopped(m, i), Stopped(n, j)) => m.f == n.f && m.log == n.log && i == j
    case (Failed(d), Failed(e)) => d == e
    case (_, _) => false
  }

  /** A control character behind the first byte of a general header value, which
      only a call that skips over the value lets through. */
  predicate Hidden(cfg: Config, m: Machine, ch: byte) {
    Skips(m.f) && !cfg.lenient && m.f.nread < HTTP_MAX_HEADER_SIZE && !IsHeaderChar(ch)
  }

  /** The scan a caller can make beforehand: no byte is hidden. */
  predicate Clean(cfg: Config, m: Machine, data: seq<byte>)
    decreases |data|
  {
    data == [] ||
    (&& !Hidden(cfg, m, data[0])
     && var r := Byte(cfg, m.(skip := true), data[0]); r.Running? ==> Clean(cfg, r.m, data[1..]))
  }

  /** Testing a byte can only turn success into failure, and does so for a hidden byte. */
  lemma SkipOnlyPermits(cfg: Config, m: Machine, ch: byte)
    ensures var tested, free := Byte(cfg, m.(skip := false), ch), Byte(cfg, m.(skip := true), ch);
            && (!Hidden(cfg, m, ch) ==> tested == free)
            && (Hidden(cfg, m, ch) ==> tested == Failed(InvalidHeaderToken))
  {
  }

  lemma {:induction false} CleanAgrees(cfg: Config, m: Machine, n: Machine, data: seq<byte>)
    requires m.f == n.f && m.log == n.log
    requires Clean(cfg, m, data)
    ensures Agree(Run(cfg, m, data), Run(cfg, n, data))
    decreases |data|
  {
    if data == [] {
    } else {
      SkipOnlyPermits(cfg, m, data[0]);
      SkipOnlyPermits(cfg, n, data[0]);
      assert m.(skip := false) == n.(skip := false) && m.(skip := true) == n.(skip := true);
      assert m == m.(skip := false) || m == m.(skip := true);
      assert n == n.(skip := false) || n == n.(skip := true);
      var r := Byte(cfg, m, data[0]);
      if r.Running? {
        CleanAgrees(cfg, r.m, r.m, data[1..]);
      }
    }
  }
}
