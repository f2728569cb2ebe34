/** What every run of the miner keeps. */
module MiningSafety {
  import opened Bytes
  import opened Shares
  import opened MiningState
  import opened MiningProtocol
  import Hex

  // ---------- Agreement ----------

  lemma ShapeKept(argon: Argon, s: System, a: Action)
    requires Enabled(s, a)
    ensures Shape(Apply(argon, s, a))
  {
    hide Results, UpdatePool, SetInput, CloseRound, StoreHash, GetInput, Tagged, HashesOf;
  }

  lemma AgreementKept(argon: Argon, s: System, a: Action)
    requires Enabled(s, a) && Agreement(s)
    ensures Agreement(Apply(argon, s, a))
  {
    hide Results, Base, CeilText, HashesOf, Tagged;
  }

  // ---------- Hashes are drained once ----------

  lemma OfSnoc(log: seq<Drained>, d: Drained, j: nat)
    ensures Of(log + [d], j) == Of(log, j) + (if d.source == j then [d.data] else [])
  {
    assert (log + [d])[..|log|] == log;
  }

  lemma TaggedLast(log: seq<Drained>, hashes: seq<HashData>, i: nat)
    requires hashes != []
    ensures var n := |hashes| - 1;
            log + Tagged(i, hashes) == log + Tagged(i, hashes[..n]) + [Drained(i, hashes[n])]
  {
  }

  lemma LastJoined(a: seq<HashData>, b: seq<HashData>)
    requires b != []
    ensures a + b[..|b| - 1] + [b[|b| - 1]] == a + b
  {
  }

  lemma {:induction false} OfAppend(log: seq<Drained>, hashes: seq<HashData>, i: nat, j: nat)
    ensures Of(log + Tagged(i, hashes), j) == Of(log, j) + (if i == j then hashes else [])
  {
    hide *;
    if hashes == [] {
      TaggedNothing(log, i);
    } else {
      var n := |hashes| - 1;
      OfAppend(log, hashes[..n], i, j);
      OfSnoc(log + Tagged(i, hashes[..n]), Drained(i, hashes[n]), j);
      TaggedLast(log, hashes, i);
      LastJoined(Of(log, j), hashes);
    }
  }

  lemma TaggedNothing(log: seq<Drained>, i: nat)
    ensures log + Tagged(i, []) == log
  {
  }

  lemma DrainedOnceKept(argon: Argon, s: System, a: Action)
    requires Enabled(s, a) && DrainedOnce(s) && Shape(Apply(argon, s, a))
    ensures DrainedOnce(Apply(argon, s, a))
  {
    hide Results, UpdatePool, Base, CeilText, HashesOf, Tagged, Of;
    var t := Apply(argon, s, a);
    if a.DrainOne? && s.running[s.phase.i] {
      forall j | 0 <= j < |t.hashers| ensures t.stored[j] == Of(t.drained, j) + t.hashers[j].hashes {
        OfAppend(s.drained, s.hashers[s.phase.i].hashes, s.phase.i, j);
      }
    }
  }

  // ---------- Drained hashes are handled once ----------

  lemma HandledSnoc(log: seq<Handled>, h: Handled)
    ensures HandledData(log + [h]) == HandledData(log) + [h.data]
    ensures forall fate :: Count(log + [h], fate) == Count(log, fate) + (if h.fate == fate then 1 else 0)
  {
    assert (log + [h])[..|log|] == log;
  }

  lemma DrainHandled(s: System)
    requires Enabled(s, DrainOne) && HandledOnce(s)
    ensures HandledOnce(DrainStep(s))
  {
    hide Count, HandledData;
    if s.running[s.phase.i] {
      var hashes := s.hashers[s.phase.i].hashes;
      assert DataOf(s.drained + Tagged(s.phase.i, hashes)) == DataOf(s.drained) + hashes;
      assert HandledData(s.handled) + [] == HandledData(s.handled);
    }
  }

  /** What becomes of the hash that is looked at next. */
  function FateOf(s: System, success: bool): Fate
    requires s.phase.Submit? && s.phase.rest != []
  {
    if s.phase.rest[0].checksum != s.miner.pool.checksum then Expired else if success then Accepted else Refused
  }

  lemma SubmitHandled(s: System, success: bool)
    requires Enabled(s, SubmitOne(success)) && HandledOnce(s)
    ensures HandledOnce(SubmitStep(s, success))
  {
    hide Count, HandledData, DataOf;
    var rest := s.phase.rest;
    if rest != [] {
      var h := Handled(rest[0], s.miner.pool, |s.published|, FateOf(s, success));
      HandledSnoc(s.handled, h);
      assert HandledData(s.handled) + [rest[0]] + rest[1..] == HandledData(s.handled) + rest;
    }
  }

  lemma HandledOnceKept(argon: Argon, s: System, a: Action)
    requires Enabled(s, a) && HandledOnce(s)
    ensures HandledOnce(Apply(argon, s, a))
  {
    hide Results, Base, CeilText, HashesOf, Count, HandledData, DataOf, DrainStep, SubmitStep;
    match a
    case DrainOne => DrainHandled(s);
    case SubmitOne(success) => SubmitHandled(s, success);
    case _ =>
  }

  // ---------- Snapshots come from one publication ----------

  lemma MoreAnswers(published: seq<Pool>, more: seq<Pool>, i: nat, input: HashData)
    requires FromAnswer(published, i, input)
    ensures FromAnswer(published + more, i, input)
  {
    hide Base, CeilingIs;
    assert (published + more)[i] == published[i];
  }

  lemma StillFits(published: seq<Pool>, more: seq<Pool>, worker: Worker)
    requires WorkerFits(published, worker)
    ensures WorkerFits(published + more, worker)
  {
    hide FromAnswer;
    if worker.Holding? {
      var i: nat :| FromAnswer(published, i, worker.input);
      MoreAnswers(published, more, i, worker.input);
    }
  }

  lemma PublishedHasAnswer(h: HasherState, m: Miner)
    requires CeilingIs(m.pool, m.pool.checksum, m.ceil)
    ensures HasAnswer(SetInput(h, m), m.pool)
  {
    hide Base, CeilText;
  }

  lemma UpdatedCeiling(m: Miner, reply: Reply)
    requires reply.pool.difficulty < UINT64 && CeilingIs(m.pool, m.pool.checksum, m.ceil)
    ensures var (n, changed) := UpdatePool(m, reply);
            && CeilingIs(n.pool, n.pool.checksum, n.ceil)
            && (!changed && !Paused(n.pool) ==> n == m)
  {
    hide CeilText;
  }

  /** One answer more, before any hasher has been told. */
  lemma NextAnswer(s: System, t: System, p: Pool)
    requires Snapshots(s) && (s.phase.New? || Informed(s) == |s.hashers|) && t.phase == Publish(0)
    requires t == s.(published := s.published + [p], miner := t.miner, phase := t.phase)
    requires t.miner.pool == p && CeilingIs(p, p.checksum, t.miner.ceil)
    ensures Snapshots(t)
  {
    hide HasAnswer, WorkerFits, CeilingIs;
    forall i | 0 <= i < |t.hashers| ensures HasherFits(t.published, AnswerOf(t, i), t.hashers[i]) {
      assert HasherFits(s.published, AnswerOf(s, i), s.hashers[i]);
    }
    forall w | 0 <= w < |t.workers| ensures WorkerFits(t.published, t.workers[w]) {
      StillFits(s.published, [p], s.workers[w]);
    }
  }

  lemma UpdateSnapshots(s: System, reply: Reply)
    requires Enabled(s, UpdateDue(reply)) && Snapshots(s)
    ensures Snapshots(UpdateStep(s, reply))
  {
    hide WorkerFits, HasAnswer, CeilText, UpdatePool, CeilingIs;
    UpdatedCeiling(s.miner, reply);
    var t := UpdateStep(s, reply);
    if t.phase.Publish? {
      NextAnswer(s, t, t.miner.pool);
    } else {
      hide UpdateStep;
      SameSnapshots(s, t);
    }
  }

  lemma FirstSnapshots(s: System, reply: Reply)
    requires Enabled(s, FirstUpdate(reply)) && Snapshots(s)
    ensures Snapshots(FirstStep(s, reply))
  {
    hide WorkerFits, HasAnswer, CeilText, UpdatePool, CeilingIs;
    UpdatedCeiling(s.miner, reply);
    var t := FirstStep(s, reply);
    NextAnswer(s, t, t.miner.pool);
  }

  lemma PublishSnapshots(s: System)
    requires Enabled(s, PublishOne) && Snapshots(s)
    ensures Snapshots(PublishStep(s))
  {
    hide HasAnswer, WorkerFits, SetInput, CeilingIs;
    var t := PublishStep(s);
    PublishedHasAnswer(s.hashers[s.phase.i], s.miner);
    forall i | 0 <= i < |t.hashers| ensures HasherFits(t.published, AnswerOf(t, i), t.hashers[i]) {
      assert HasherFits(s.published, AnswerOf(s, i), s.hashers[i]);
    }
  }

  lemma GetSnapshots(s: System, w: nat)
    requires Enabled(s, Get(w)) && Snapshots(s) && s.hashers[s.owner[w]].checksum != ""
    ensures WorkerFits(s.published, Holding(GetInput(s.hashers[s.owner[w]])))
  {
    hide Base, CeilingIs;
    var i := s.owner[w];
    assert HasherFits(s.published, AnswerOf(s, i), s.hashers[i]);
    assert FromAnswer(s.published, AnswerOf(s, i), GetInput(s.hashers[i]));
  }

  /** The other steps leave the answers that miner, hashers and workers have. */
  predicate SameAnswers(s: System, t: System) {
    && |t.hashers| == |s.hashers| && |t.workers| == |s.workers|
    && t.published == s.published && t.miner.pool == s.miner.pool && t.miner.ceil == s.miner.ceil
    && Informed(t) == Informed(s) && (t.phase.New? <==> s.phase.New?)
    && (forall i :: 0 <= i < |s.hashers| ==>
          t.hashers[i] == s.hashers[i].(hashes := t.hashers[i].hashes, hashCount := t.hashers[i].hashCount,
                                        totalCount := t.hashers[i].totalCount, rounds := t.hashers[i].rounds))
    && (forall w :: 0 <= w < |s.workers| ==> t.workers[w] == s.workers[w] || !t.workers[w].Holding?)
  }

  lemma SameSnapshots(s: System, t: System)
    requires SameAnswers(s, t) && Snapshots(s)
    ensures Snapshots(t)
  {
    hide Base, CeilingIs, FromAnswer;
    forall i | 0 <= i < |t.hashers| ensures HasherFits(t.published, AnswerOf(t, i), t.hashers[i]) {
      assert HasherFits(s.published, AnswerOf(s, i), s.hashers[i]);
    }
    forall w | 0 <= w < |t.workers| ensures WorkerFits(t.published, t.workers[w]) {
      assert WorkerFits(s.published, s.workers[w]);
    }
  }

  predicate Calm(a: Action) {
    !a.FirstUpdate? && !a.UpdateDue? && !a.PublishOne? && !a.Get?
  }

  lemma CalmAnswers(argon: Argon, s: System, a: Action)
    requires Enabled(s, a) && Calm(a)
    ensures SameAnswers(s, Apply(argon, s, a))
  {
    hide Results, HashesOf, Tagged, LastRounds;
  }

  lemma WorkerSnapshots(s: System, w: nat, worker: Worker)
    requires Snapshots(s) && w < |s.workers| && WorkerFits(s.published, worker)
    ensures Snapshots(s.(workers := s.workers[w := worker]))
  {
    hide HasherFits, WorkerFits, MinerFits;
  }

  lemma SnapshotsKept(argon: Argon, s: System, a: Action)
    requires Enabled(s, a) && Snapshots(s)
    ensures Snapshots(Apply(argon, s, a))
  {
    hide Results, HashesOf, Tagged, SameAnswers, Snapshots, UpdateStep, FirstStep, PublishStep, DrainStep, SubmitStep;
    hide StoreStep, FromAnswer, CloseRound;
    match a
    case FirstUpdate(reply) => FirstSnapshots(s, reply);
    case UpdateDue(reply) => UpdateSnapshots(s, reply);
    case PublishOne => PublishSnapshots(s);
    case Get(w) =>
      var input := GetInput(s.hashers[s.owner[w]]);
      if input.checksum != "" {
        GetSnapshots(s, w);
      }
      WorkerSnapshots(s, w, if input.checksum == "" then Idle else Holding(input));
    case _ =>
      CalmAnswers(argon, s, a);
      SameSnapshots(s, Apply(argon, s, a));
  }

  // ---------- Only shares are stored ----------

  lemma MoreShares(argon: Argon, published: seq<Pool>, more: seq<Pool>, d: HashData)
    requires IsShare(argon, published, d)
    ensures IsShare(argon, published + more, d)
  {
    hide Meets, Base;
    var i: nat :| IsShareOf(argon, published, i, d);
    assert (published + more)[i] == published[i];
    assert IsShareOf(argon, published + more, i, d);
  }

  lemma OneShare(argon: Argon, published: seq<Pool>, i: nat, input: HashData, nonce: seq<byte>)
    requires IsHash(argon) && FromAnswer(published, i, input)
    requires Accepts(argon(Hex.Decode(input.base), nonce), Hex.Decode(input.ceil))
    ensures IsShareOf(argon, published, i, input.(nonce := Hex.Encode(nonce)))
  {
    hide Accepts, FromBigEndian, CeilingBytes, Base;
    Hex.DecodeEncode(nonce);
    ShareTest(published[i].difficulty, argon(Hex.Decode(input.base), nonce));
  }

  lemma {:induction false} ResultsAreShares(argon: Argon, published: seq<Pool>, i: nat, input: HashData,
                                            nonces: seq<seq<byte>>, d: HashData)
    requires IsHash(argon) && FromAnswer(published, i, input)
    requires d in Results(input, nonces, HashesOf(argon, input, nonces))
    ensures IsShare(argon, published, d)
  {
    hide Accepts, FromAnswer, IsShareOf;
    if nonces == [] {
    } else {
      var hashes := HashesOf(argon, input, nonces);
      assert hashes[1..] == HashesOf(argon, input, nonces[1..]);
      if d in Results(input, nonces[1..], hashes[1..]) {
        ResultsAreShares(argon, published, i, input, nonces[1..], d);
      } else {
        OneShare(argon, published, i, input, nonces[0]);
        assert IsShareOf(argon, published, i, d);
      }
    }
  }

  lemma StoredShares(argon: Argon, s: System, w: nat, nonces: seq<seq<byte>>, d: HashData)
    requires IsHash(argon) && Enabled(s, Store(w, nonces)) && Snapshots(s)
    requires var input := s.workers[w].input; d in Results(input, nonces, HashesOf(argon, input, nonces))
    ensures IsShare(argon, s.published, d)
  {
    hide FromAnswer, IsShare, Results, HashesOf, HasAnswer;
    assert WorkerFits(s.published, s.workers[w]);
    var i: nat :| FromAnswer(s.published, i, s.workers[w].input);
    ResultsAreShares(argon, s.published, i, s.workers[w].input, nonces, d);
  }

  /** The answers published so far are never forgotten. */
  lemma PublishedGrows(argon: Argon, s: System, a: Action) returns (more: seq<Pool>)
    requires Enabled(s, a)
    ensures Apply(argon, s, a).published == s.published + more
  {
    hide Results, HashesOf, Tagged, SetInput, CloseRound, StoreHash;
    var t := Apply(argon, s, a);
    more := if |t.published| > |s.published| then [t.miner.pool] else [];
    assert s.published + [] == s.published;
  }

  lemma HandledMore(argon: Argon, published: seq<Pool>, more: seq<Pool>, h: Handled)
    requires HandledShare(argon, published, h)
    ensures HandledShare(argon, published + more, h)
  {
    hide IsShare;
    assert (published + more)[..h.seen] == published[..h.seen];
  }

  lemma NewlyHandled(argon: Argon, s: System, success: bool)
    requires Enabled(s, SubmitOne(success)) && Snapshots(s) && AllShares(argon, s) && HandledOnce(s)
    requires s.phase.rest != []
    ensures HandledShare(argon, s.published,
                         Handled(s.phase.rest[0], s.miner.pool, |s.published|, FateOf(s, success)))
  {
    hide IsShare, WorkerFits, HasAnswer, CeilingIs;
    var k := |s.handled|;
    assert DataOf(s.drained)[k] == (HandledData(s.handled) + s.phase.rest)[k] == s.phase.rest[0];
    assert s.drained[k].data == s.phase.rest[0];
    assert s.published[..|s.published|] == s.published;
  }

  lemma SubmitShares(argon: Argon, s: System, success: bool)
    requires Enabled(s, SubmitOne(success)) && Snapshots(s) && AllShares(argon, s) && HandledOnce(s)
    ensures AllShares(argon, SubmitStep(s, success))
  {
    hide IsShare, HandledShare, HandledOnce, Snapshots;
    if s.phase.rest != [] {
      NewlyHandled(argon, s, success);
    }
  }

  lemma AllSharesKept(argon: Argon, s: System, a: Action)
    requires IsHash(argon) && Enabled(s, a) && Snapshots(s) && AllShares(argon, s) && HandledOnce(s)
    ensures AllShares(argon, Apply(argon, s, a))
  {
    hide IsShare, Snapshots, HandledShare, HandledOnce, HandledData, DataOf, SubmitStep;
    if a.SubmitOne? {
      SubmitShares(argon, s, a.success);
    } else {
      var t := Apply(argon, s, a);
      var more := PublishedGrows(argon, s, a);
      forall i, d | 0 <= i < |t.hashers| && d in t.hashers[i].hashes ensures IsShare(argon, t.published, d) {
        HashesKept(argon, s, a, i, d);
        if d in s.hashers[i].hashes {
          MoreShares(argon, s.published, more, d);
        } else {
          StoredShares(argon, s, a.w, a.nonces, d);
        }
      }
      forall k | 0 <= k < |t.drained| ensures IsShare(argon, t.published, t.drained[k].data) {
        DrainedKept(argon, s, a, k);
        MoreShares(argon, s.published, more, t.drained[k].data);
      }
      HandledKept(argon, s, a);
      forall k | 0 <= k < |t.handled| ensures HandledShare(argon, t.published, t.handled[k]) {
        HandledMore(argon, s.published, more, s.handled[k]);
      }
    }
  }

  /** A hash in a hasher's store was there before or has just been found. */
  lemma HashesKept(argon: Argon, s: System, a: Action, i: nat, d: HashData)
    requires Enabled(s, a) && !a.SubmitOne?
    requires var t := Apply(argon, s, a); i < |t.hashers| && d in t.hashers[i].hashes
    ensures i < |s.hashers|
    ensures d in s.hashers[i].hashes ||
            (a.Store? && Apply(argon, s, a).published == s.published &&
             var input := s.workers[a.w].input; d in Results(input, a.nonces, HashesOf(argon, input, a.nonces)))
  {
    hide Results, HashesOf, Tagged, Base, UpdatePool, LastRounds;
  }

  lemma DrainedKept(argon: Argon, s: System, a: Action, k: nat)
    requires Enabled(s, a) && AllShares(argon, s) && k < |Apply(argon, s, a).drained|
    ensures IsShare(argon, s.published, Apply(argon, s, a).drained[k].data)
  {
    hide Results, HashesOf, UpdatePool, SetInput, CloseRound, StoreHash, IsShare, HandledShare;
  }

  lemma HandledKept(argon: Argon, s: System, a: Action)
    requires Enabled(s, a) && !a.SubmitOne?
    ensures Apply(argon, s, a).handled == s.handled
  {
    hide Results, HashesOf, UpdatePool, SetInput, CloseRound, StoreHash, Tagged;
  }

  /** The pool's answer to a submission is what is recorded of it. */
  lemma AnswerRecorded(s: System, success: bool)
    requires Enabled(s, SubmitOne(success)) && s.phase.rest != []
    ensures var t := SubmitStep(s, success);
            && |t.handled| == |s.handled| + 1 && t.handled[..|s.handled|] == s.handled
            && var h := t.handled[|s.handled|];
               && h.data == s.phase.rest[0] && h.current == s.miner.pool
               && (h.fate.Accepted? <==> h.data.checksum == h.current.checksum && success)
               && (h.fate.Refused? <==> h.data.checksum == h.current.checksum && !success)
  {
  }

  // ---------- Every hash counted belongs to a round ----------

  lemma RoundClosed(h: HasherState, closed: seq<nat>)
    requires h.rounds == LastRounds(closed) && h.totalCount == Sum(closed) + h.hashCount
    ensures var g, all := CloseRound(h), closed + [h.hashCount];
            g.rounds == LastRounds(all) && g.totalCount == Sum(all) + g.hashCount
  {
    assert (closed + [h.hashCount])[..|closed|] == closed;
  }

  lemma RoundsKept(argon: Argon, s: System, a: Action)
    requires Enabled(s, a) && Rounds(s) && Shape(Apply(argon, s, a))
    ensures Rounds(Apply(argon, s, a))
  {
    hide Results, HashesOf, Tagged, Base, UpdatePool, LastRounds, Sum, CloseRound;
    if a.EndRound? {
      RoundClosed(s.hashers[s.phase.i], s.closed[s.phase.i]);
      CloseRoundKeepsTotal(s.hashers[s.phase.i]);
    }
  }

  lemma CloseRoundKeepsTotal(h: HasherState)
    ensures CloseRound(h).totalCount == h.totalCount
  {
  }

  // ---------- Every run ----------

  lemma StartInv(argon: Argon, s: System)
    requires Start(s)
    ensures Inv(argon, s)
  {
    hide Base, CeilText, IsShare;
    assert HandledData(s.handled) == [] == DataOf(s.drained);
    assert LastRounds([]) == [] && Sum([]) == 0;
    assert s.miner.confirmed == Count(s.handled, Accepted) && s.miner.rejected == Count(s.handled, Refused);
  }

  lemma {:induction false} RunInv(argon: Argon, s: System, actions: seq<Action>)
    requires IsHash(argon) && Start(s)
    ensures Inv(argon, Run(argon, s, actions))
  {
    hide Start, Apply, Enabled, Agreement, Snapshots, AllShares, DrainedOnce, HandledOnce, Rounds, Blocks;
    if actions == [] {
      StartInv(argon, s);
    } else {
      var before := Run(argon, s, actions[..|actions| - 1]);
      var a := actions[|actions| - 1];
      RunInv(argon, s, actions[..|actions| - 1]);
      if Enabled(before, a) {
        StepInv(argon, before, a);
      }
    }
  }

  lemma StepInv(argon: Argon, s: System, a: Action)
    requires IsHash(argon) && Enabled(s, a) && Inv(argon, s)
    ensures Inv(argon, Apply(argon, s, a))
  {
    hide Apply, Enabled, Agreement, Snapshots, AllShares, DrainedOnce, HandledOnce, Rounds, Blocks;
    ShapeKept(argon, s, a);
    AgreementKept(argon, s, a);
    SnapshotsKept(argon, s, a);
    AllSharesKept(argon, s, a);
    DrainedOnceKept(argon, s, a);
    HandledOnceKept(argon, s, a);
    RoundsKept(argon, s, a);
    BlocksKept(argon, s, a);
  }

  lemma BlocksKept(argon: Argon, s: System, a: Action)
    requires Enabled(s, a) && Blocks(s) && Snapshots(s)
    ensures Blocks(Apply(argon, s, a))
  {
    hide Results, HashesOf, Tagged, Base, CeilText, LastRounds, SetInput, CloseRound, StoreHash, HasherFits, WorkerFits;
    hide MinerFits, GetInput;
    var t := Apply(argon, s, a);
    if |t.published| > |s.published| {
      assert t.published[..|s.published|] == s.published;
    }
  }

  /** What the pool answers is what the miner has; it is published if it is new, or
      pauses the workers. A failure keeps the old data and pauses them. */
  lemma AnswerTaken(s: System, reply: Reply)
    requires Enabled(s, UpdateDue(reply))
    ensures var t := UpdateStep(s, reply);
            && (reply.success ==> t.miner.pool == reply.pool)
            && (!reply.success ==> Paused(t.miner.pool) &&
                                   t.miner.pool.(recommendation := s.miner.pool.recommendation) == s.miner.pool)
            && (t.published == s.published + [t.miner.pool] || t.published == s.published)
            && (t.published == s.published <==> reply.success && reply.pool == s.miner.pool && !Paused(reply.pool))
  {
    hide CeilText;
  }

  // ---------- What a run amounts to ----------

  /** Whatever was submitted had the miner's checksum, and was a share of an answer
      of the pool that had been published before. */
  lemma SubmittedAreShares(argon: Argon, s: System, actions: seq<Action>, k: nat)
    requires IsHash(argon) && Start(s)
    requires var t := Run(argon, s, actions); k < |t.handled| && Submitted(t.handled[k])
    ensures var t := Run(argon, s, actions);
            var h := t.handled[k];
            && 0 < h.seen <= |t.published| && h.current == t.published[h.seen - 1]
            && h.data.checksum == h.current.checksum
            && IsShare(argon, t.published[..h.seen], h.data)
  {
    hide Run, IsShare, Start, Agreement, Snapshots, DrainedOnce, Rounds, Blocks;
    RunInv(argon, s, actions);
  }

  /** No hash is lost or looked at twice, and the miner's two counts are those of the
      submissions that the pool accepted and refused. */
  lemma NothingLost(argon: Argon, s: System, actions: seq<Action>, i: nat)
    requires IsHash(argon) && Start(s)
    ensures var t := Run(argon, s, actions);
            && |t.stored| == |t.hashers|
            && (i < |t.hashers| ==> t.stored[i] == Of(t.drained, i) + t.hashers[i].hashes)
            && DataOf(t.drained) == HandledData(t.handled) + (if t.phase.Submit? then t.phase.rest else [])
            && t.miner.confirmed == Count(t.handled, Accepted) && t.miner.rejected == Count(t.handled, Refused)
  {
    hide Run, Start, Agreement, Snapshots, AllShares, Rounds, Blocks;
    RunInv(argon, s, actions);
  }

  /** A hasher keeps the counts of its last twenty rounds, at most, and no nonce that
      was tried is counted twice or in no round. */
  lemma RoundsCounted(argon: Argon, s: System, actions: seq<Action>, i: nat)
    requires IsHash(argon) && Start(s)
    ensures var t := Run(argon, s, actions);
            && |t.closed| == |t.tried| == |t.hashers|
            && (i < |t.hashers| ==>
                  && t.hashers[i].rounds == LastRounds(t.closed[i])
                  && t.hashers[i].totalCount == Sum(t.closed[i]) + t.hashers[i].hashCount == t.tried[i])
  {
    hide Run, Start, Agreement, Snapshots, AllShares, DrainedOnce, HandledOnce, Blocks;
    RunInv(argon, s, actions);
  }

  /** The miner has counted the blocks of the answers that were published. */
  lemma BlocksCounted(argon: Argon, s: System, actions: seq<Action>)
    requires IsHash(argon) && Start(s)
    ensures var t := Run(argon, s, actions);
            t.miner.blocks == if InConstructor(t) then 0 else 1 + Unpaused(t.published)
  {
    hide Run, Start, Agreement, Snapshots, AllShares, DrainedOnce, HandledOnce, Rounds;
    RunInv(argon, s, actions);
  }

  /** Outside a publication, and so after every tick, all hashers have the miner's
      data, once there has been one. */
  lemma AllAgree(argon: Argon, s: System, actions: seq<Action>, i: nat)
    requires IsHash(argon) && Start(s)
    requires var t := Run(argon, s, actions); i < |t.hashers| && !t.phase.New? && !t.phase.Publish? && !t.phase.Round?
    ensures var t := Run(argon, s, actions);
            var h, m := t.hashers[i], t.miner;
            && h.height == m.pool.height && h.checksum == m.pool.checksum && h.solver == m.pool.solver
            && h.ceil == m.ceil && (h.pause <==> m.pool.recommendation == "pause")
  {
    hide Run, Start, Snapshots, AllShares, DrainedOnce, HandledOnce, Rounds, Blocks;
    RunInv(argon, s, actions);
  }
}
