/** The rolling ADAM seed with its memo, and the rotation of fallback coordinators (src/adam.cpp). */
module AdamSeed {
  import opened ChainModel
  import opened Limbs
  import opened Options

  /** From which heights ADAM is active, the proof each block carries, and how a seed follows from the last. */
  datatype Rules = Rules(active: nat -> bool, proofOf: nat -> nat, next: (nat, nat) -> nat)

  /** The seed of a block, computed from the last block before ADAM; there is none if ADAM was always active. */
  function Seed(rules: Rules, b: Block): Option<nat> {
    if !rules.active(b.height) then Some(b.id)
    else if b.prev.None? then None
    else
      var s := Seed(rules, b.prev.value);
      if s.None? then None else Some(rules.next(s.value, rules.proofOf(b.id)))
  }

  /** Each block follows the one before, the first follows `base`. */
  predicate Follows(base: Block, path: seq<Block>) {
    && (path != [] ==> path[0].prev == Some(base))
    && forall i :: 0 < i < |path| ==> path[i].prev == Some(path[i - 1])
  }

  function Mixed(rules: Rules, seed: nat, path: seq<Block>): nat
    decreases |path|
  {
    if path == [] then seed else Mixed(rules, rules.next(seed, rules.proofOf(path[0].id)), path[1..])
  }

  /** Starting from any block with a seed, the proofs of the active blocks above it are mixed in, one after the other;
      a block before ADAM has its own hash as seed. */
  lemma {:induction false} SeedMixes(rules: Rules, base: Block, path: seq<Block>)
    requires Follows(base, path) && forall i :: 0 <= i < |path| ==> rules.active(path[i].height)
    ensures Seed(rules, base).Some? ==>
              Seed(rules, if path == [] then base else path[|path| - 1]) == Some(Mixed(rules, Seed(rules, base).value, path))
    ensures !rules.active(base.height) ==> Seed(rules, base) == Some(base.id)
    decreases |path|
  {
    if path != [] {
      SeedMixes(rules, path[0], path[1..]);
    }
  }

  /** A closed set of blocks with distinct hashes. */
  ghost predicate Tree(blocks: set<Block>) {
    && (forall b :: b in blocks && b.prev.Some? ==> b.prev.value in blocks)
    && (forall a, b :: a in blocks && b in blocks && a.id == b.id ==> a == b)
  }

  /** Every remembered seed of a block is its seed. */
  ghost predicate Sound(rules: Rules, blocks: set<Block>, seeds: map<nat, nat>) {
    forall b :: b in blocks && b.id in seeds ==> Seed(rules, b) == Some(seeds[b.id])
  }

  /** The walk back ends at a block whose seed is at hand, with every block above it readable. */
  predicate Reachable(rules: Rules, seeds: map<nat, nat>, readable: nat -> bool, b: Block) {
    || !rules.active(b.height) || b.id in seeds
    || (b.prev.Some? && readable(b.id) && Reachable(rules, seeds, readable, b.prev.value))
  }

  class SeedMemo {
    const rules: Rules
    var seeds: map<nat, nat>

    constructor (rules: Rules)
      ensures this.rules == rules && seeds == map[]
    {
      this.rules := rules;
      seeds := map[];
    }

    /** The blocks from `b` back to the first one whose seed is at hand, and that seed. */
    method FindBase(b: Block, ghost blocks: set<Block>) returns (path: seq<Block>, base: Option<nat>)
      requires Tree(blocks) && Sound(rules, blocks, seeds) && b in blocks
      ensures forall i :: 0 <= i < |path| ==> path[i] in blocks && rules.active(path[i].height) && path[i].id !in seeds
      ensures forall i :: 0 <= i < |path| - 1 ==> path[i].prev == Some(path[i + 1])
      ensures path != [] ==> path[0] == b
      ensures base.Some? ==> path == [] || path[|path| - 1].prev.Some?
      ensures base.Some? ==> Seed(rules, Below(path, b)) == base
      ensures base.Some? ==> !rules.active(Below(path, b).height) || Below(path, b).id in seeds
      ensures base.None? ==> path != [] && path[|path| - 1].prev.None?
    {
      path, base := [], None;
      var curr := Some(b);
      while curr.Some?
        invariant forall i :: 0 <= i < |path| ==> path[i] in blocks && rules.active(path[i].height) && path[i].id !in seeds
        invariant forall i :: 0 <= i < |path| - 1 ==> path[i].prev == Some(path[i + 1])
        invariant if path == [] then curr == Some(b) else path[0] == b && curr == path[|path| - 1].prev
        invariant curr.Some? ==> curr.value in blocks
        decreases curr
      {
        var c := curr.value;
        if !rules.active(c.height) { return path, Some(c.id); }
        if c.id in seeds { return path, Some(seeds[c.id]); }
        path := path + [c];
        curr := c.prev;
      }
    }

    /** The block under a path that starts at `b`. */
    static function Below(path: seq<Block>, b: Block): Block {
      if path == [] || path[|path| - 1].prev.None? then b else path[|path| - 1].prev.value
    }

    /** Computes a seed and remembers those of the blocks on the way. The memo never changes a result: what comes
        out is the seed, and nothing comes out just when the walk meets an unreadable block or no base. */
    method GetAdamSeed(b: Block, readable: nat -> bool, ghost blocks: set<Block>) returns (r: Option<nat>)
      requires Tree(blocks) && Sound(rules, blocks, seeds) && b in blocks
      modifies this
      ensures Sound(rules, blocks, seeds)
      ensures r.Some? ==> r == Seed(rules, b)
      ensures r.Some? <==> Reachable(rules, old(seeds), readable, b)
    {
      var path, base := FindBase(b, blocks);
      if base.None? {
        NoBase(rules, seeds, readable, path);
        return None;
      }
      ghost var was := seeds;
      ghost var below := Below(path, b);
      var seed := base.value;
      var i := |path|;
      while i > 0
        invariant 0 <= i <= |path| && Sound(rules, blocks, seeds)
        invariant Seed(rules, if i == |path| then below else path[i]) == Some(seed)
        invariant Reachable(rules, was, readable, if i == |path| then below else path[i])
      {
        i := i - 1;
        var c := path[i];
        assert c.prev == Some(if i + 1 == |path| then below else path[i + 1]);
        if !readable(c.id) {
          Blocked(rules, was, readable, path, i);
          return None;
        }
        seed := rules.next(seed, rules.proofOf(c.id));
        seeds := seeds[c.id := seed];
      }
      return Some(seed);
    }
  }

  lemma {:induction false} NoBase(rules: Rules, seeds: map<nat, nat>, readable: nat -> bool, path: seq<Block>)
    requires path != [] && path[|path| - 1].prev.None?
    requires forall i :: 0 <= i < |path| ==> rules.active(path[i].height) && path[i].id !in seeds
    requires forall i :: 0 <= i < |path| - 1 ==> path[i].prev == Some(path[i + 1])
    ensures !Reachable(rules, seeds, readable, path[0])
  {
    if |path| > 1 {
      NoBase(rules, seeds, readable, path[1..]);
    }
  }

  lemma {:induction false} Blocked(rules: Rules, seeds: map<nat, nat>, readable: nat -> bool, path: seq<Block>, i: nat)
    requires i < |path| && !readable(path[i].id)
    requires forall j :: 0 <= j <= i ==> rules.active(path[j].height) && path[j].id !in seeds
    requires forall j :: 0 <= j < |path| - 1 ==> path[j].prev == Some(path[j + 1])
    ensures !Reachable(rules, seeds, readable, path[0])
    decreases i
  {
    if i > 0 {
      Blocked(rules, seeds, readable, path[1..], i - 1);
    }
  }

  // ---------------------------------------------------------------- fallback coordinators

  const TIMEOUT := 45
  const SLICE := 30
  const GRACE := 5

  /** The coordinator in charge, the one still accepted beside it, and the rotation index. */
  datatype Fallback = Fallback(current: int, previous: int, index: nat)

  function FallbackAt(ranked: seq<int>, elapsed: int): Option<Fallback> {
    if elapsed < TIMEOUT || ranked == [] then None
    else
      var t := elapsed - TIMEOUT;
      var slot, offset := t / SLICE, t % SLICE;
      var index := slot % |ranked|;
      var current := ranked[index];
      if slot > 0 && offset < GRACE then Some(Fallback(current, ranked[(index + |ranked| - 1) % |ranked|], index))
      else Some(Fallback(current, current, index))
  }

  lemma ModStep(a: nat, n: nat)
    requires n > 0
    ensures (a + 1) % n == if a % n == n - 1 then 0 else a % n + 1
  {
    var q, r := a / n, a % n;
    assert a == q * n + r;
    if r == n - 1 {
      Distribute(n, q, 1);
      ModUnique(a + 1, q + 1, n, 0);
    } else {
      ModUnique(a + 1, q, n, r + 1);
    }
  }

  lemma StepBackMod(r: nat, n: nat)
    requires r < n
    ensures (r + n - 1) % n == if r == 0 then n - 1 else r - 1
  {
    if r == 0 {
      ModUnique(n - 1, 0, n, n - 1);
    } else {
      ModUnique(r + n - 1, 1, n, r - 1);
    }
  }

  /** There is a fallback coordinator from 45 seconds on, if there is any candidate; the first in rank begins. */
  lemma FirstBegins(ranked: seq<int>, elapsed: int)
    ensures FallbackAt(ranked, elapsed).Some? <==> elapsed >= 45 && ranked != []
    ensures ranked != [] && 45 <= elapsed < 75 ==> FallbackAt(ranked, elapsed) == Some(Fallback(ranked[0], ranked[0], 0))
  {
    if ranked != [] && 45 <= elapsed < 75 { ModUnique(0, 0, |ranked|, 0); }
  }

  /** Each slice passes the turn to the next coordinator in rank, cyclically. */
  lemma TurnsRotate(ranked: seq<int>, elapsed: int)
    requires FallbackAt(ranked, elapsed).Some?
    ensures var n := |ranked|;
            var (now, later) := (FallbackAt(ranked, elapsed).value, FallbackAt(ranked, elapsed + 30));
            && later.Some? && now.index < n && later.value.index == (if now.index == n - 1 then 0 else now.index + 1)
            && now.current == ranked[now.index] && later.value.current == ranked[later.value.index]
  {
    var t := elapsed - TIMEOUT;
    assert (t + SLICE) / SLICE == t / SLICE + 1;
    ModStep(t / SLICE, |ranked|);
  }

  /** In the first five seconds of every slice but the first, the coordinator of the slice before is still accepted;
      otherwise only the current one is. */
  lemma PreviousHadTheTurn(ranked: seq<int>, elapsed: int)
    requires FallbackAt(ranked, elapsed).Some?
    ensures var f := FallbackAt(ranked, elapsed).value;
            if elapsed >= 75 && (elapsed - 45) % 30 < 5
            then FallbackAt(ranked, elapsed - 30).Some? && f.previous == FallbackAt(ranked, elapsed - 30).value.current
            else f.previous == f.current
  {
    var t, n := elapsed - TIMEOUT, |ranked|;
    if t / SLICE > 0 {
      assert (t - SLICE) / SLICE == t / SLICE - 1;
      ModStep(t / SLICE - 1, n);
      StepBackMod(t / SLICE % n, n);
    }
  }
}
