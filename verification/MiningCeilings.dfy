/** The miner compares checksums only, so a hash that was good enough when it was
    found may be submitted under a harder difficulty: when exactly that happens. */
module MiningCeilings {
  import opened Bytes
  import opened Shares
  import opened MiningState
  import opened MiningProtocol
  import opened MiningSafety
  import Hex

  /** The hash was submitted although it misses the difficulty of the time. */
  predicate Stale(argon: Argon, h: Handled) {
    Submitted(h) && !Meets(argon, h.data, h.current.difficulty)
  }

  /** From answer i to answer j the difficulty rises under one checksum. */
  predicate Rise(published: seq<Pool>, i: nat, j: nat) {
    && i < j < |published|
    && published[i].checksum == published[j].checksum != ""
    && published[i].difficulty < published[j].difficulty
  }

  ghost predicate Rises(published: seq<Pool>) {
    exists i: nat, j: nat :: Rise(published, i, j)
  }

  // ---------- Without a rise, nothing stale is submitted ----------

  lemma StaleNeedsRise(argon: Argon, s: System, actions: seq<Action>, k: nat)
    requires IsHash(argon) && Start(s)
    requires var t := Run(argon, s, actions); k < |t.handled| && Stale(argon, t.handled[k])
    ensures Rises(Run(argon, s, actions).published)
  {
    hide Run, Start, Base, HashValue;
    var published := Run(argon, s, actions).published;
    var h := Run(argon, s, actions).handled[k];
    SubmittedAreShares(argon, s, actions, k);
    var i: nat :| IsShareOf(argon, published[..h.seen], i, h.data);
    assert Rise(published, i, h.seen - 1);
  }

  // ---------- With a rise, something can be ----------

  /** A list of answers that the main loop may publish one after the other. */
  predicate Publishable(answers: seq<Pool>) {
    && answers != []
    && (forall k :: 0 <= k < |answers| ==>
          answers[k].difficulty < UINT64 && BaseFits(answers[k].checksum, answers[k].solver))
    && (forall k :: 0 < k < |answers| ==> answers[k] != answers[k - 1] || Paused(answers[k]))
  }

  /** A miner with one hasher and one worker. */
  const LONE := System(NEW_MINER, [NEW_HASHER], [true], [Idle], [0], New, [], [[]], [], [], [[]], [0])

  lemma LoneStarts()
    ensures Start(LONE) && Alone(LONE) && LONE.hashers[0].hashes == []
  {
  }

  /** The hash of everything is the ceiling for a difficulty. */
  function Constant(difficulty: nat): (argon: Argon) {
    (base, nonce) => CeilingBytes(difficulty) + seq(22, _ => 0)
  }

  lemma ConstantValue(difficulty: nat, d: HashData)
    requires difficulty < UINT64
    ensures IsHash(Constant(difficulty)) && HashValue(Constant(difficulty), d) == UINT64 - 1 - difficulty
  {
    CeilingValue(difficulty);
    hide CeilingBytes, FromBigEndian;
    var hash: seq<byte> := CeilingBytes(difficulty) + seq(22, _ => 0);
    assert hash[..10] == CeilingBytes(difficulty);
  }

  function InputOf(p: Pool): HashData {
    HashData("", p.checksum, CeilText(p.difficulty), Base(p.checksum, p.solver))
  }

  lemma ConstantFinds(p: Pool)
    requires p.difficulty < UINT64
    ensures var argon := Constant(p.difficulty);
            Results(InputOf(p), [[]], HashesOf(argon, InputOf(p), [[]])) == [InputOf(p)]
  {
    var argon, input := Constant(p.difficulty), InputOf(p);
    var hash: seq<byte> := CeilingBytes(p.difficulty) + seq(22, _ => 0);
    CeilingValue(p.difficulty);
    ShareTest(p.difficulty, hash);
    hide Base, CeilingBytes, FromBigEndian, Accepts;
    assert hash[..10] == CeilingBytes(p.difficulty);
    var hashes := HashesOf(argon, input, [[]]);
    assert hashes[0] == hash && hashes[1..] == [];
    assert input.(nonce := Hex.Encode([])) == input;
    assert Results(input, [[]][1..], hashes[1..]) == [];
  }

  lemma {:induction false} RunThen(argon: Argon, s: System, a: seq<Action>, b: seq<Action>)
    ensures Run(argon, s, a + b) == Run(argon, Run(argon, s, a), b)
    decreases |b|
  {
    hide Enabled, Apply;
    if b == [] {
      assert a + b == a;
    } else {
      assert (a + b)[..|a + b| - 1] == a + b[..|b| - 1];
      RunThen(argon, s, a, b[..|b| - 1]);
    }
  }

  /** A state reached from another. */
  ghost predicate Leads(argon: Argon, s: System, t: System) {
    exists actions :: Run(argon, s, actions) == t
  }

  lemma LeadsNowhere(argon: Argon, s: System)
    ensures Leads(argon, s, s)
  {
    assert Run(argon, s, []) == s;
  }

  lemma LeadsOn(argon: Argon, s: System, t: System, a: Action)
    requires Leads(argon, s, t) && Enabled(t, a)
    ensures Leads(argon, s, Apply(argon, t, a))
  {
    var actions :| Run(argon, s, actions) == t;
    hide Enabled, Apply;
    assert (actions + [a])[..|actions + [a]| - 1] == actions;
    assert Run(argon, s, actions + [a]) == Apply(argon, t, a);
  }

  /** One hasher and one worker at the top of a running main loop. */
  predicate Alone(t: System) {
    && Shape(t) && |t.hashers| == 1 && |t.workers| == 1 && t.running[0]
  }

  /** What becomes of a hash when the pool accepts whatever is submitted. */
  function Looked(d: HashData, p: Pool): Fate {
    if d.checksum == p.checksum then Accepted else Expired
  }

  /** One turn through the hashers: what the hasher has stored is handled. */
  lemma DrainTurn(argon: Argon, s: System, t: System) returns (u: System)
    requires Leads(argon, s, t) && Alone(t) && t.phase.Top? && t.miner.running && |t.hashers[0].hashes| <= 1
    ensures Leads(argon, s, u) && Alone(u) && u.phase.Tick? && u.miner.running && u.hashers[0].hashes == []
    ensures u.published == t.published && u.workers == t.workers && u.miner.pool == t.miner.pool
    ensures var hashes := t.hashers[0].hashes;
            u.handled == t.handled +
              (if hashes == [] then []
               else [Handled(hashes[0], t.miner.pool, |t.published|, Looked(hashes[0], t.miner.pool))])
  {
    hide Leads;
    LeadsOn(argon, s, t, LoopTop);
    var a := Apply(argon, t, LoopTop);
    LeadsOn(argon, s, a, DrainOne);
    var b := Apply(argon, a, DrainOne);
    LeadsOn(argon, s, b, SubmitOne(true));
    u := Apply(argon, b, SubmitOne(true));
    if t.hashers[0].hashes != [] {
      LeadsOn(argon, s, u, SubmitOne(true));
      u := Apply(argon, u, SubmitOne(true));
    }
  }

  /** A new answer is taken and published. */
  lemma PublishTurn(argon: Argon, s: System, t: System, p: Pool) returns (u: System)
    requires Leads(argon, s, t) && Alone(t) && t.phase.Tick? && t.published != []
    requires p.difficulty < UINT64 && BaseFits(p.checksum, p.solver) && (p != t.miner.pool || Paused(p))
    ensures Leads(argon, s, u) && Alone(u) && u.phase.Top? && u.miner.running == t.miner.running
    ensures u.hashers[0].hashes == t.hashers[0].hashes && u.handled == t.handled && u.workers == t.workers
    ensures u.published == t.published + [p]
  {
    hide Leads, Base, CeilText, BaseFits, LastRounds;
    LeadsOn(argon, s, t, UpdateDue(Reply(true, p)));
    var a := Apply(argon, t, UpdateDue(Reply(true, p)));
    LeadsOn(argon, s, a, PublishOne);
    u := Apply(argon, a, PublishOne);
    if u.phase.Round? {
      LeadsOn(argon, s, u, EndRound);
      u := Apply(argon, u, EndRound);
    }
  }

  /** The first answer is taken and published. */
  lemma FirstTurn(argon: Argon, s: System, t: System, p: Pool) returns (u: System)
    requires Leads(argon, s, t) && Alone(t) && t.phase.New? && t.published == []
    requires p.difficulty < UINT64 && BaseFits(p.checksum, p.solver)
    ensures Leads(argon, s, u) && Alone(u) && u.phase.Top? && u.miner.running
    ensures u.hashers[0].hashes == t.hashers[0].hashes && u.handled == t.handled && u.workers == t.workers
    ensures u.published == [p]
  {
    hide Leads, Base, CeilText, BaseFits, LastRounds;
    LeadsOn(argon, s, t, FirstUpdate(Reply(true, p)));
    var a := Apply(argon, t, FirstUpdate(Reply(true, p)));
    LeadsOn(argon, s, a, PublishOne);
    u := Apply(argon, a, PublishOne);
    if u.phase.Round? {
      LeadsOn(argon, s, u, EndRound);
      u := Apply(argon, u, EndRound);
    }
    LeadsOn(argon, s, u, LoopBegins);
    u := Apply(argon, u, LoopBegins);
  }

  /** The worker has passed the test for a pause at the very beginning, takes its
      input after answer i, and stores its result after answer j. */
  datatype Plan = Plan(i: nat, j: nat)

  predicate ValidPlan(answers: seq<Pool>, plan: Plan) {
    Publishable(answers) && plan.i < plan.j < |answers| && Rise(answers, plan.i, plan.j)
  }

  /** The worker after the k-th answer. */
  function WorkerAfter(answers: seq<Pool>, plan: Plan, k: nat): Worker
    requires plan.i < |answers|
  {
    if k <= plan.i then Ready else if k <= plan.j then Holding(InputOf(answers[plan.i])) else Idle
  }

  ghost predicate SomeStale(argon: Argon, t: System) {
    exists n :: 0 <= n < |t.handled| && Stale(argon, t.handled[n])
  }

  /** The system once the k-th answer is published and the worker has acted. */
  ghost predicate Stage(argon: Argon, answers: seq<Pool>, plan: Plan, k: nat, t: System)
    requires ValidPlan(answers, plan)
  {
    && 0 < k <= |answers| && Leads(argon, LONE, t) && Alone(t) && t.phase.Top? && t.miner.running
    && t.published == answers[..k] && t.workers[0] == WorkerAfter(answers, plan, k)
    && t.hashers[0].hashes == (if k == plan.j + 1 then [InputOf(answers[plan.i])] else [])
    && (k > plan.j + 1 ==> SomeStale(argon, t))
  }

  /** What the hasher has. */
  lemma HasherHas(argon: Argon, s: System, t: System)
    requires IsHash(argon) && Start(s) && Leads(argon, s, t)
    ensures t.phase.Top? ==>
              && Shape(t) && t.published != [] && t.miner.pool == t.published[|t.published| - 1]
              && var p := t.published[|t.published| - 1];
                 p.checksum != "" ==> GetInput(t.hashers[0]) == InputOf(p) && InputOf(p).checksum != ""
  {
    hide Start, Run, Agreement, AllShares, DrainedOnce, HandledOnce, Rounds, Base, CeilText, WorkerFits;
    var actions :| Run(argon, s, actions) == t;
    RunInv(argon, s, actions);
    if t.phase.Top? {
      assert AnswerOf(t, 0) == |t.published| - 1;
    }
  }

  /** The worker's turn after answer k - 1. */
  lemma WorkerTurn(answers: seq<Pool>, plan: Plan, k: nat, t: System) returns (u: System)
    requires ValidPlan(answers, plan) && 0 < k <= |answers|
    requires var argon := Constant(answers[plan.i].difficulty);
             && Leads(argon, LONE, t) && Alone(t) && t.phase.Top? && t.miner.running
             && t.published == answers[..k] && t.workers[0] == WorkerAfter(answers, plan, k - 1)
             && t.hashers[0].hashes == [] && (k > plan.j + 1 ==> SomeStale(argon, t))
    ensures Stage(Constant(answers[plan.i].difficulty), answers, plan, k, u)
  {
    hide Leads, LONE, SomeStale, Constant, InputOf, BaseFits, Start, IsHash, Alone;
    var p := answers[plan.i];
    var argon, s := Constant(p.difficulty), LONE;
    LoneStarts();
    ConstantValue(p.difficulty, InputOf(p));
    HasherHas(argon, s, t);
    assert t.published[k - 1] == answers[k - 1];
    u := t;
    if k - 1 == plan.i {
      u := GetTurn(argon, s, u);
    }
    if k - 1 == plan.j {
      u := StoreTurn(argon, s, u, p);
    }
  }

  lemma CheckTurn(argon: Argon, s: System, t: System) returns (u: System)
    requires Leads(argon, s, t) && Alone(t) && t.workers[0].Idle? && !t.hashers[0].pause
    ensures Leads(argon, s, u) && Alone(u) && u == t.(workers := [Ready])
  {
    hide Leads;
    u := Apply(argon, t, Check(0));
    LeadsOn(argon, s, t, Check(0));
  }

  lemma GetTurn(argon: Argon, s: System, t: System) returns (u: System)
    requires Leads(argon, s, t) && Alone(t) && t.workers[0].Ready? && GetInput(t.hashers[0]).checksum != ""
    ensures Leads(argon, s, u) && Alone(u) && u == t.(workers := [Holding(GetInput(t.hashers[0]))])
  {
    hide Leads;
    u := Apply(argon, t, Get(0));
    LeadsOn(argon, s, t, Get(0));
  }

  lemma StoreTurn(argon: Argon, s: System, t: System, p: Pool) returns (u: System)
    requires p.difficulty < UINT64 && argon == Constant(p.difficulty) && Leads(argon, s, t)
    requires Alone(t) && t.workers[0] == Holding(InputOf(p)) && t.hashers[0].hashes == []
    ensures Leads(argon, s, u) && Alone(u)
    ensures u == t.(hashers := u.hashers, workers := [Idle], stored := u.stored, tried := u.tried)
    ensures u.hashers[0].hashes == [InputOf(p)]
  {
    ConstantFinds(p);
    hide Constant, InputOf, Results, HashesOf, Leads;
    u := Apply(argon, t, Store(0, [[]]));
    LeadsOn(argon, s, t, Store(0, [[]]));
  }

  /** What the worker found under answer i is submitted under answer j. */
  lemma FoundIsStale(answers: seq<Pool>, plan: Plan)
    requires ValidPlan(answers, plan)
    ensures var d, p := InputOf(answers[plan.i]), answers[plan.j];
            Stale(Constant(answers[plan.i].difficulty), Handled(d, p, plan.j + 1, Looked(d, p)))
  {
    ConstantValue(answers[plan.i].difficulty, InputOf(answers[plan.i]));
    hide HashValue, Constant, Base, CeilText, BaseFits;
  }

  /** Draining after answer k leaves something stale handled if k was j. */
  lemma StageDrained(answers: seq<Pool>, plan: Plan, k: nat, t: System) returns (u: System)
    requires ValidPlan(answers, plan) && Stage(Constant(answers[plan.i].difficulty), answers, plan, k, t)
    ensures var argon := Constant(answers[plan.i].difficulty);
            && Leads(argon, LONE, u) && Alone(u) && u.phase.Tick? && u.miner.running
            && u.published == t.published && u.workers == t.workers && u.hashers[0].hashes == []
            && u.miner.pool == answers[k - 1] && (k > plan.j ==> SomeStale(argon, u))
  {
    hide Leads, LONE, Constant, InputOf, BaseFits, Stale, Rise, Publishable, Alone, Start, IsHash, SomeStale;
    var p := answers[plan.i];
    var argon, s := Constant(p.difficulty), LONE;
    PlanStarts(answers, plan);
    HasherHas(argon, s, t);
    u := DrainTurn(argon, s, t);
    if k == plan.j + 1 {
      FoundIsStale(answers, plan);
      assert t.published[k - 1] == answers[k - 1];
      MoreStale(argon, t, u, [Handled(InputOf(p), answers[plan.j], k, Looked(InputOf(p), answers[plan.j]))]);
    } else if k > plan.j + 1 {
      assert t.handled + [] == t.handled;
      MoreStale(argon, t, u, []);
    }
  }

  lemma PlanStarts(answers: seq<Pool>, plan: Plan)
    requires ValidPlan(answers, plan)
    ensures IsHash(Constant(answers[plan.i].difficulty)) && Start(LONE)
  {
    hide LONE, Constant, Rise, BaseFits, Start, IsHash;
    LoneStarts();
    ConstantValue(answers[plan.i].difficulty, InputOf(answers[plan.i]));
  }

  lemma MoreStale(argon: Argon, t: System, u: System, more: seq<Handled>)
    requires u.handled == t.handled + more
    ensures SomeStale(argon, t) || (more != [] && Stale(argon, more[0])) ==> SomeStale(argon, u)
  {
    hide Stale;
    if n :| 0 <= n < |t.handled| && Stale(argon, t.handled[n]) {
      assert u.handled[n] == t.handled[n];
    } else if more != [] && Stale(argon, more[0]) {
      assert u.handled[|t.handled|] == more[0];
    }
  }

  lemma {:induction false} StageReached(answers: seq<Pool>, plan: Plan, k: nat) returns (u: System)
    requires ValidPlan(answers, plan) && 0 < k <= |answers|
    ensures Stage(Constant(answers[plan.i].difficulty), answers, plan, k, u)
    decreases k
  {
    hide Leads, LONE, Constant, InputOf, BaseFits, Stage, Rise, Start, SomeStale;
    var argon, s := Constant(answers[plan.i].difficulty), LONE;
    if k == 1 {
      LoneStarts();
      LeadsNowhere(argon, s);
      u := CheckTurn(argon, s, s);
      u := FirstTurn(argon, s, u, answers[0]);
      assert answers[..1] == [answers[0]];
      u := WorkerTurn(answers, plan, 1, u);
    } else {
      var t := StageReached(answers, plan, k - 1);
      StageWorker(answers, plan, k - 1, t);
      t := StageDrained(answers, plan, k - 1, t);
      u := PublishTurn(argon, s, t, answers[k - 1]);
      assert answers[..k] == answers[..k - 1] + [answers[k - 1]];
      StillStale(argon, t, u);
      u := WorkerTurn(answers, plan, k, u);
    }
  }

  lemma StageWorker(answers: seq<Pool>, plan: Plan, k: nat, t: System)
    requires ValidPlan(answers, plan) && Stage(Constant(answers[plan.i].difficulty), answers, plan, k, t)
    ensures |t.workers| == 1 && t.workers[0] == WorkerAfter(answers, plan, k) && t.published == answers[..k]
  {
  }

  lemma StillStale(argon: Argon, t: System, u: System)
    requires u.handled == t.handled
    ensures SomeStale(argon, t) ==> SomeStale(argon, u)
  {
  }

  /** Every rise can be met: some run that publishes these answers submits a stale
      hash, if the hash function happens to give one. */
  lemma RiseGivesStale(answers: seq<Pool>, i: nat, j: nat) returns (argon: Argon, s: System, actions: seq<Action>)
    requires Publishable(answers) && Rise(answers, i, j)
    ensures IsHash(argon) && Start(s)
    ensures var t := Run(argon, s, actions); t.published == answers && SomeStale(argon, t)
  {
    hide LONE, Constant, InputOf, BaseFits, Start, Stale, Run;
    var plan := Plan(i, j);
    argon, s := Constant(answers[i].difficulty), LONE;
    LoneStarts();
    ConstantValue(answers[i].difficulty, InputOf(answers[i]));
    var t := StageReached(answers, plan, |answers|);
    assert t.published == answers[..|answers|] == answers;
    var u := StageDrained(answers, plan, |answers|, t);
    actions :| Run(argon, s, actions) == u;
  }

  ghost predicate StaleRun(argon: Argon, s: System, actions: seq<Action>, answers: seq<Pool>) {
    && IsHash(argon) && Start(s)
    && Run(argon, s, actions).published == answers && SomeStale(argon, Run(argon, s, actions))
  }

  /** A hash can be submitted that misses the difficulty of the time if and only if
      the difficulty rises under one checksum, for every list of answers. */
  lemma StaleExactly(answers: seq<Pool>)
    requires Publishable(answers)
    ensures (exists argon, s, actions :: StaleRun(argon, s, actions, answers)) <==> Rises(answers)
  {
    hide Run, Start, Stale, Rise, Publishable;
    if argon, s, actions :| StaleRun(argon, s, actions, answers) {
      var t := Run(argon, s, actions);
      var k :| 0 <= k < |t.handled| && Stale(argon, t.handled[k]);
      StaleNeedsRise(argon, s, actions, k);
    }
    if Rises(answers) {
      var i: nat, j: nat :| Rise(answers, i, j);
      var argon, s, actions := RiseGivesStale(answers, i, j);
      assert StaleRun(argon, s, actions, answers);
    }
  }

  /** For example, when an unchanged block goes from difficulty 1 to difficulty 2,
      whatever the recommendation. */
  lemma StaleExample(recommendation: string) returns (argon: Argon, s: System, actions: seq<Action>)
    ensures var easy := Pool(1, "QQ==", "QQ==", 1, 1, recommendation);
            StaleRun(argon, s, actions, [easy, easy.(difficulty := 2)])
  {
    hide Start, Run, IsHash, SomeStale;
    var easy := Pool(1, "QQ==", "QQ==", 1, 1, recommendation);
    var answers := [easy, easy.(difficulty := 2)];
    assert BaseFits("QQ==", "QQ==");
    assert Rise(answers, 0, 1);
    argon, s, actions := RiseGivesStale(answers, 0, 1);
  }
}
