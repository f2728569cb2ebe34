/** The state that the miner and the hashers share, and what each locked region
    or main-loop action does to it. */
module MiningState {
  import opened Shares
  import Hex

  /** What the pool says. */
  datatype Pool = Pool(height: nat, checksum: string, solver: string, difficulty: nat, version: int,
                       recommendation: string)

  datatype Reply = Reply(success: bool, pool: Pool)

  function CeilText(difficulty: nat): string {
    Hex.Encode(CeilingBytes(difficulty))
  }

  // ---------- The miner ----------

  datatype Miner = Miner(pool: Pool, ceil: string, confirmed: nat, rejected: nat, blocks: nat, running: bool)

  /** __update_pool_data: the new state, and whether the pool's data are new. */
  function UpdatePool(m: Miner, reply: Reply): (Miner, bool) {
    if !reply.success then (m.(pool := m.pool.(recommendation := "pause")), false)
    else if reply.pool != m.pool then (m.(pool := reply.pool, ceil := CeilText(reply.pool.difficulty)), true)
    else (m, false)
  }

  /** A miner that has not asked the pool yet. */
  const NEW_MINER := Miner(Pool(0, "", "", 0, 0, ""), "", 0, 0, 0, false)

  // ---------- A hasher ----------

  datatype HasherState = HasherState(
    height: nat, checksum: string, solver: string, base: string, ceil: string, pause: bool,
    hashes: seq<HashData>, hashCount: nat, totalCount: nat, rounds: seq<nat>)

  /** The region of set_input under the input lock. */
  function SetInput(h: HasherState, m: Miner): HasherState {
    h.(height := m.pool.height, checksum := m.pool.checksum, solver := m.pool.solver,
       base := Base(m.pool.checksum, m.pool.solver), ceil := m.ceil, pause := m.pool.recommendation == "pause")
  }

  /** The last twenty rounds. */
  function LastRounds(rounds: seq<nat>): (r: seq<nat>)
    ensures |r| <= 20
  {
    if |rounds| <= 20 then rounds else rounds[|rounds| - 20..]
  }

  /** The end of set_input for a new block. */
  function CloseRound(h: HasherState): HasherState {
    h.(hashCount := 0, rounds := LastRounds(h.rounds + [h.hashCount]))
  }

  const NEW_HASHER := HasherState(0, "", "", "", "", false, [], 0, 0, [])

  /** The whole of set_input, when nothing comes between its two locked regions. */
  function WithInput(h: HasherState, m: Miner): HasherState {
    if m.pool.height != h.height then CloseRound(SetInput(h, m)) else SetInput(h, m)
  }

  function GetInput(h: HasherState): HashData {
    HashData("", h.checksum, h.ceil, h.base)
  }

  function StoreHash(h: HasherState, count: nat, succeeded: seq<HashData>): HasherState {
    if count == 0 then h
    else h.(hashes := h.hashes + succeeded, hashCount := h.hashCount + count, totalCount := h.totalCount + count)
  }

  // ---------- The objects ----------

  class Hasher {
    var height: nat
    var checksum: string
    var solver: string
    var base: string
    var ceil: string
    var pause: bool
    var hashes: seq<HashData>
    var hashCount: nat
    var totalCount: nat
    var rounds: seq<nat>

    function State(): HasherState
      reads this
    {
      HasherState(height, checksum, solver, base, ceil, pause, hashes, hashCount, totalCount, rounds)
    }

    predicate Valid()
      reads this
    {
      |rounds| <= 20
    }

    constructor ()
      ensures Valid() && State() == NEW_HASHER
    {
      height, checksum, solver, base, ceil, pause := 0, "", "", "", "", false;
      hashes, hashCount, totalCount, rounds := [], 0, 0, [];
    }

    method SetInputLocked(m: Miner) returns (newBlock: bool)
      requires BaseFits(m.pool.checksum, m.pool.solver)
      modifies this
      ensures old(Valid()) ==> Valid()
      ensures State() == SetInput(old(State()), m) && (newBlock <==> m.pool.height != old(height))
    {
      newBlock := m.pool.height != height;
      height := m.pool.height;
      checksum := m.pool.checksum;
      solver := m.pool.solver;
      base := MakeBase(m.pool.checksum, m.pool.solver);
      ceil := m.ceil;
      pause := m.pool.recommendation == "pause";
    }

    /** One round more, one old round less once there are twenty. */
    method CloseRoundLocked()
      requires Valid()
      modifies this
      ensures Valid() && State() == CloseRound(old(State()))
    {
      rounds := rounds + [hashCount];
      hashCount := 0;
      if |rounds| > 20 {
        rounds := rounds[1..];
      }
    }

    method SetNewInput(m: Miner)
      requires Valid() && BaseFits(m.pool.checksum, m.pool.solver)
      modifies this
      ensures Valid() && State() == WithInput(old(State()), m)
    {
      var newBlock := SetInputLocked(m);
      if newBlock {
        CloseRoundLocked();
      }
    }

    method StoreHashLocked(count: nat, succeeded: seq<HashData>)
      modifies this
      ensures old(Valid()) ==> Valid()
      ensures State() == StoreHash(old(State()), count, succeeded)
    {
      if count == 0 {
        return;
      }
      hashes := hashes + succeeded;
      hashCount := hashCount + count;
      totalCount := totalCount + count;
    }

    /** get_hashes: everything stored so far, once. */
    method GetHashesLocked() returns (tmp: seq<HashData>)
      modifies this
      ensures old(Valid()) ==> Valid()
      ensures tmp == old(hashes) && State() == old(State()).(hashes := [])
    {
      tmp := hashes;
      hashes := [];
    }
  }

  class MinerObject {
    var height: nat
    var checksum: string
    var solver: string
    var difficulty: nat
    var version: int
    var recommendation: string
    var ceil: string
    var confirmed: nat
    var rejected: nat
    var blocks: nat
    var running: bool

    function State(): Miner
      reads this
    {
      Miner(Pool(height, checksum, solver, difficulty, version, recommendation), ceil, confirmed, rejected, blocks, running)
    }

    method UpdatePoolData(reply: Reply) returns (updated: bool)
      requires reply.pool.difficulty < UINT64
      modifies this
      ensures (State(), updated) == UpdatePool(old(State()), reply)
    {
      hide CeilingBytes;
      if !reply.success {
        recommendation := "pause";
      }
      var p := reply.pool;
      if reply.success && (p.height != height || p.checksum != checksum || p.solver != solver
                           || p.difficulty != difficulty || p.version != version || p.recommendation != recommendation) {
        height := p.height;
        checksum := p.checksum;
        solver := p.solver;
        difficulty := p.difficulty;
        version := p.version;
        recommendation := p.recommendation;
        ceil := CalcHashCeil(difficulty);
        return true;
      }
      return false;
    }
  }
}
