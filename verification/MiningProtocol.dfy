/** One miner and any number of hashers and worker threads, interleaved in every
    order: which hashes reach the pool. */
module MiningProtocol {
  import opened Bytes
  import opened Shares
  import opened MiningState
  import Hex

  /** A worker thread of one hasher, between its locked regions. */
  datatype Worker = Idle | Ready | Holding(input: HashData)

  /** Where the main thread is: in the constructor until the pool's first answer has
      been published, then in its loop. */
  datatype Phase =
    | New
    | Built
    | Top
    | Drain(i: nat)
    | Submit(i: nat, rest: seq<HashData>)
    | Tick
    | Publish(i: nat)
    | Round(i: nat)
    | Stopped

  datatype Drained = Drained(source: nat, data: HashData)

  /** What became of a hash: it was not submitted, or the pool answered. */
  datatype Fate = Expired | Accepted | Refused

  /** A drained hash, the miner's data when it was looked at, how many answers of
      the pool had been published by then, and what became of it. */
  datatype Handled = Handled(data: HashData, current: Pool, seen: nat, fate: Fate)

  predicate Submitted(h: Handled) {
    h.fate.Accepted? || h.fate.Refused?
  }

  /** The last six fields are logs: the answers of the pool that were published
      or are being published, what each hasher stored, what was drained, what was
      made of it, the counts of each hasher's closed rounds, and how many nonces its
      workers have tried. */
  datatype System = System(
    miner: Miner, hashers: seq<HasherState>, running: seq<bool>, workers: seq<Worker>, owner: seq<nat>, phase: Phase,
    published: seq<Pool>, stored: seq<seq<HashData>>, drained: seq<Drained>, handled: seq<Handled>,
    closed: seq<seq<nat>>, tried: seq<nat>)

  datatype Action =
    | Stop
    | HasherEnds(h: nat)
    | FirstUpdate(reply: Reply)
    | LoopBegins
    | LoopTop
    | DrainOne
    | SubmitOne(success: bool)
    | UpdateDue(reply: Reply)
    | UpdateNotDue
    | PublishOne
    | EndRound
    | Check(w: nat)
    | Get(w: nat)
    | Store(w: nat, nonces: seq<seq<byte>>)

  /** The hash of a base and a nonce. */
  type Argon = (seq<byte>, seq<byte>) -> seq<byte>

  ghost predicate IsHash(argon: Argon) {
    forall base, nonce :: |argon(base, nonce)| == RAW_LENGTH
  }

  function HashesOf(argon: Argon, input: HashData, nonces: seq<seq<byte>>): (r: seq<seq<byte>>)
    ensures |r| == |nonces|
  {
    seq(|nonces|, i requires 0 <= i < |nonces| => argon(Hex.Decode(input.base), nonces[i]))
  }

  predicate Shape(s: System) {
    && |s.running| == |s.stored| == |s.closed| == |s.tried| == |s.hashers| > 0
    && |s.workers| == |s.owner| && (forall w :: 0 <= w < |s.owner| ==> s.owner[w] < |s.hashers|)
    && (s.phase.Drain? || s.phase.Submit? || s.phase.Publish? || s.phase.Round? ==> s.phase.i < |s.hashers|)
  }

  predicate Enabled(s: System, a: Action) {
    Shape(s)
    && match a
       case Stop => true
       case HasherEnds(h) => h < |s.hashers|
       case FirstUpdate(reply) =>
         s.phase.New? && reply.pool.difficulty < UINT64 && BaseFits(reply.pool.checksum, reply.pool.solver)
       case LoopBegins => s.phase.Built?
       case LoopTop => s.phase.Top?
       case DrainOne => s.phase.Drain?
       case SubmitOne(_) => s.phase.Submit?
       case UpdateDue(reply) =>
         s.phase.Tick? && reply.pool.difficulty < UINT64 && BaseFits(reply.pool.checksum, reply.pool.solver)
       case UpdateNotDue => s.phase.Tick?
       case PublishOne => s.phase.Publish?
       case EndRound => s.phase.Round?
       case Check(w) => w < |s.workers| && s.workers[w].Idle?
       case Get(w) => w < |s.workers| && s.workers[w].Ready?
       case Store(w, _) => w < |s.workers| && s.workers[w].Holding?
  }

  /** The next hasher to drain, or the end of the pass. */
  function NextDrain(s: System, i: nat): Phase {
    if i + 1 < |s.hashers| then Drain(i + 1) else Tick
  }

  /** The next hasher to be told, or the end of a publication: of the first, or of one
      in the loop. */
  function NextPublish(s: System, i: nat): Phase {
    if i + 1 < |s.hashers| then Publish(i + 1) else if |s.published| == 1 then Built else Top
  }

  function Tagged(i: nat, hashes: seq<HashData>): seq<Drained> {
    seq(|hashes|, k requires 0 <= k < |hashes| => Drained(i, hashes[k]))
  }

  function DrainStep(s: System): System
    requires Enabled(s, DrainOne)
  {
    var i := s.phase.i;
    if !s.running[i] then s.(miner := s.miner.(running := false), phase := Tick)
    else
      var hashes := s.hashers[i].hashes;
      s.(hashers := s.hashers[i := s.hashers[i].(hashes := [])],
         drained := s.drained + Tagged(i, hashes), phase := Submit(i, hashes))
  }

  function SubmitStep(s: System, success: bool): System
    requires s.phase.Submit?
  {
    if s.phase.rest == [] then s.(phase := NextDrain(s, s.phase.i))
    else
      var hash := s.phase.rest[0];
      var current := s.miner.pool;
      var phase := Submit(s.phase.i, s.phase.rest[1..]);
      if hash.checksum != current.checksum then
        s.(phase := phase, handled := s.handled + [Handled(hash, current, |s.published|, Expired)])
      else if success then
        s.(phase := phase, handled := s.handled + [Handled(hash, current, |s.published|, Accepted)],
           miner := s.miner.(confirmed := s.miner.confirmed + 1))
      else
        s.(phase := phase, handled := s.handled + [Handled(hash, current, |s.published|, Refused)],
           miner := s.miner.(rejected := s.miner.rejected + 1))
  }

  /** The constructor publishes whatever the first answer is. */
  function FirstStep(s: System, reply: Reply): System {
    var m := UpdatePool(s.miner, reply).0;
    s.(miner := m, published := s.published + [m.pool], phase := Publish(0))
  }

  function UpdateStep(s: System, reply: Reply): System {
    var (m, changed) := UpdatePool(s.miner, reply);
    if changed || Paused(m.pool) then
      s.(miner := if Paused(m.pool) then m else m.(blocks := m.blocks + 1), published := s.published + [m.pool],
         phase := Publish(0))
    else s.(miner := m, phase := Top)
  }

  function PublishStep(s: System): System
    requires Enabled(s, PublishOne)
  {
    var i := s.phase.i;
    var h := s.hashers[i];
    s.(hashers := s.hashers[i := SetInput(h, s.miner)],
       phase := if s.miner.pool.height != h.height then Round(i) else NextPublish(s, i))
  }

  function RoundStep(s: System): System
    requires Enabled(s, EndRound)
  {
    var i := s.phase.i;
    s.(hashers := s.hashers[i := CloseRound(s.hashers[i])],
       closed := s.closed[i := s.closed[i] + [s.hashers[i].hashCount]], phase := NextPublish(s, i))
  }

  function StoreStep(argon: Argon, s: System, w: nat, nonces: seq<seq<byte>>): System
    requires Enabled(s, Store(w, nonces))
  {
    var i := s.owner[w];
    var input := s.workers[w].input;
    var results := Results(input, nonces, HashesOf(argon, input, nonces));
    s.(hashers := s.hashers[i := StoreHash(s.hashers[i], |nonces|, results)],
       tried := s.tried[i := s.tried[i] + |nonces|],
       stored := if |nonces| == 0 then s.stored else s.stored[i := s.stored[i] + results],
       workers := s.workers[w := Idle])
  }

  function Apply(argon: Argon, s: System, a: Action): System
    requires Enabled(s, a)
  {
    match a
    case Stop => s.(miner := s.miner.(running := false))
    case HasherEnds(h) => s.(running := s.running[h := false])
    case FirstUpdate(reply) => FirstStep(s, reply)
    case LoopBegins => s.(miner := s.miner.(blocks := 1, running := true), phase := Top)
    case LoopTop => s.(phase := if s.miner.running then Drain(0) else Stopped)
    case DrainOne => DrainStep(s)
    case SubmitOne(success) => SubmitStep(s, success)
    case UpdateDue(reply) => UpdateStep(s, reply)
    case UpdateNotDue => s.(phase := Top)
    case PublishOne => PublishStep(s)
    case EndRound => RoundStep(s)
    case Check(w) => if s.hashers[s.owner[w]].pause then s else s.(workers := s.workers[w := Ready])
    case Get(w) =>
      var input := GetInput(s.hashers[s.owner[w]]);
      s.(workers := s.workers[w := if input.checksum == "" then Idle else Holding(input)])
    case Store(w, nonces) => StoreStep(argon, s, w, nonces)
  }

  /** A run: actions that are not enabled do not happen. */
  function Run(argon: Argon, s: System, actions: seq<Action>): System {
    if actions == [] then s
    else
      var before := Run(argon, s, actions[..|actions| - 1]);
      var a := actions[|actions| - 1];
      if Enabled(before, a) then Apply(argon, before, a) else before
  }

  /** The miner's constructor when its hashers run: the threads are there before the
      pool's first answer, and may look for work at any time. */
  predicate Start(s: System) {
    && Shape(s) && s.phase == New && s.miner == NEW_MINER
    && (forall i :: 0 <= i < |s.hashers| ==>
          s.hashers[i] == NEW_HASHER && s.closed[i] == [] && s.stored[i] == [] && s.tried[i] == 0)
    && (forall w :: 0 <= w < |s.workers| ==> s.workers[w].Idle?)
    && s.published == [] && s.drained == [] && s.handled == []
  }

  // ---------- What every step keeps ----------

  /** A hasher has the miner's data. */
  predicate Agrees(h: HasherState, m: Miner) {
    SetInput(h, m) == h
  }

  /** How many hashers have the miner's data for sure. */
  function Informed(s: System): nat {
    match s.phase
    case New => 0
    case Publish(i) => i
    case Round(i) => i + 1
    case _ => |s.hashers|
  }

  ghost predicate Agreement(s: System) {
    forall i :: 0 <= i < |s.hashers| && i < Informed(s) ==> Agrees(s.hashers[i], s.miner)
  }

  /** Difficulties are 64-bit, and the ceiling is the difficulty's, unless the
      pool has not been heard of. */
  predicate CeilingIs(p: Pool, checksum: string, ceil: string) {
    p.difficulty < UINT64 && (checksum != "" ==> ceil == CeilText(p.difficulty))
  }

  predicate Paused(p: Pool) {
    p.recommendation == "pause"
  }

  /** The hasher has an answer's data. */
  predicate HasAnswer(h: HasherState, p: Pool) {
    && h.checksum == p.checksum && h.base == Base(p.checksum, p.solver) && CeilingIs(p, h.checksum, h.ceil)
    && (h.pause <==> Paused(p))
  }

  /** Which answer hasher i has: the last, or the one before if the publication has
      not come to it; negative as long as there is none. */
  function AnswerOf(s: System, i: nat): int {
    if i < Informed(s) then |s.published| - 1 else |s.published| - 2
  }

  /** A worker's checksum, ceiling and base are those of one published answer. */
  predicate FromAnswer(published: seq<Pool>, i: nat, input: HashData) {
    && i < |published|
    && input.checksum == published[i].checksum != "" && input.base == Base(input.checksum, published[i].solver)
    && CeilingIs(published[i], input.checksum, input.ceil)
  }

  ghost predicate WorkerFits(published: seq<Pool>, worker: Worker) {
    worker.Holding? ==> exists i: nat :: FromAnswer(published, i, worker.input)
  }

  /** Without an answer a hasher has no work for its workers. */
  predicate HasherFits(published: seq<Pool>, answer: int, h: HasherState) {
    if answer < 0 then h.checksum == "" else answer < |published| && HasAnswer(h, published[answer])
  }

  predicate MinerFits(published: seq<Pool>, m: Miner) {
    && CeilingIs(m.pool, m.pool.checksum, m.ceil)
    && (published != [] ==> m.pool == published[|published| - 1])
  }

  /** The miner has the last published answer, every hasher has one, and what a
      worker holds is one answer's data. */
  ghost predicate Snapshots(s: System) {
    && (s.published == [] <==> s.phase.New?) && MinerFits(s.published, s.miner)
    && (forall i :: 0 <= i < |s.hashers| ==> HasherFits(s.published, AnswerOf(s, i), s.hashers[i]))
    && (forall w :: 0 <= w < |s.workers| ==> WorkerFits(s.published, s.workers[w]))
  }

  /** The number that the share test compares: the first ten bytes of the hash of a
      result's base and nonce. */
  function HashValue(argon: Argon, d: HashData): nat {
    var hash := argon(Hex.Decode(d.base), Hex.Decode(d.nonce));
    FromBigEndian(if |hash| < 10 then hash else hash[..10])
  }

  predicate Meets(argon: Argon, d: HashData, difficulty: nat) {
    HashValue(argon, d) <= UINT64 - 1 - difficulty
  }

  /** A found hash: its fields are those of one published answer, and it meets that
      answer's difficulty. */
  predicate IsShareOf(argon: Argon, published: seq<Pool>, i: nat, d: HashData) {
    && i < |published|
    && d.checksum == published[i].checksum != "" && d.base == Base(d.checksum, published[i].solver)
    && Meets(argon, d, published[i].difficulty)
  }

  ghost predicate IsShare(argon: Argon, published: seq<Pool>, d: HashData) {
    exists i: nat :: IsShareOf(argon, published, i, d)
  }

  /** What is stored and drained are shares, and what was handled was a share of an
      answer published before. */
  ghost predicate AllShares(argon: Argon, s: System) {
    && (forall i, d :: 0 <= i < |s.hashers| && d in s.hashers[i].hashes ==> IsShare(argon, s.published, d))
    && (forall k :: 0 <= k < |s.drained| ==> IsShare(argon, s.published, s.drained[k].data))
    && (forall k :: 0 <= k < |s.handled| ==> HandledShare(argon, s.published, s.handled[k]))
  }

  ghost predicate HandledShare(argon: Argon, published: seq<Pool>, h: Handled) {
    && 0 < h.seen <= |published| && h.current == published[h.seen - 1]
    && IsShare(argon, published[..h.seen], h.data)
  }

  /** What hasher i's drained hashes are. */
  function Of(log: seq<Drained>, i: nat): seq<HashData> {
    if log == [] then []
    else
      var last := log[|log| - 1];
      Of(log[..|log| - 1], i) + (if last.source == i then [last.data] else [])
  }

  /** Every stored hash is drained once, in order, or still there. */
  ghost predicate DrainedOnce(s: System)
    requires Shape(s)
  {
    forall i :: 0 <= i < |s.hashers| ==> s.stored[i] == Of(s.drained, i) + s.hashers[i].hashes
  }

  function DataOf(log: seq<Drained>): seq<HashData> {
    seq(|log|, k requires 0 <= k < |log| => log[k].data)
  }

  function HandledData(log: seq<Handled>): seq<HashData> {
    seq(|log|, k requires 0 <= k < |log| => log[k].data)
  }

  /** How many hashes the log says the pool accepted, or refused. */
  function Count(log: seq<Handled>, fate: Fate): nat {
    if log == [] then 0
    else Count(log[..|log| - 1], fate) + (if log[|log| - 1].fate == fate then 1 else 0)
  }

  /** Every drained hash is looked at once, in order; it is submitted if and only
      if its checksum is the current one; and every answer is counted as what it is. */
  ghost predicate HandledOnce(s: System) {
    && HandledData(s.handled) + (if s.phase.Submit? then s.phase.rest else []) == DataOf(s.drained)
    && (forall k :: 0 <= k < |s.handled| ==>
          (Submitted(s.handled[k]) <==> s.handled[k].data.checksum == s.handled[k].current.checksum))
    && s.miner.confirmed == Count(s.handled, Accepted) && s.miner.rejected == Count(s.handled, Refused)
  }

  function Sum(counts: seq<nat>): nat {
    if counts == [] then 0 else Sum(counts[..|counts| - 1]) + counts[|counts| - 1]
  }

  /** A hasher keeps the counts of its last twenty rounds, its total is what its
      workers have tried, and every one of those belongs to a closed round or to the
      present one. */
  ghost predicate Rounds(s: System)
    requires Shape(s)
  {
    forall i :: 0 <= i < |s.hashers| ==>
      && s.hashers[i].rounds == LastRounds(s.closed[i])
      && s.hashers[i].totalCount == Sum(s.closed[i]) + s.hashers[i].hashCount == s.tried[i]
  }

  /** How many answers behind the first let the workers work. */
  function Unpaused(published: seq<Pool>): nat {
    if |published| <= 1 then 0
    else Unpaused(published[..|published| - 1]) + (if Paused(published[|published| - 1]) then 0 else 1)
  }

  predicate InConstructor(s: System) {
    s.phase.New? || s.phase.Built? || (|s.published| == 1 && (s.phase.Publish? || s.phase.Round?))
  }

  /** The count of blocks is one for the first answer and one for every later one that
      was published and did not pause the workers. */
  predicate Blocks(s: System) {
    && (s.phase.Built? ==> |s.published| == 1)
    && s.miner.blocks == if InConstructor(s) then 0 else 1 + Unpaused(s.published)
  }

  ghost predicate Inv(argon: Argon, s: System) {
    && Shape(s) && Agreement(s) && Snapshots(s) && AllShares(argon, s) && DrainedOnce(s) && HandledOnce(s)
    && Rounds(s) && Blocks(s)
  }
}
