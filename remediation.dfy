/** Fixing a room: only rooms whose measured level is above their
    category's exceeded limit are offered, and fixing one lowers its
    intrinsic noise to its category's adequate limit. */
module Remediation {
  import opened Rooms
  import opened Graphs
  import opened Propagation
  import opened Report

  /** The rooms among `ns` whose level exceeds their limit, in the order
      of `ns`. */
  function FixableOf(g: Graph, ns: seq<string>, decay: nat -> real): (fs: seq<string>)
    requires PositiveDecay(decay) && forall n :: n in ns ==> Measurable(g, n)
    ensures forall n :: n in fs ==> n in ns
    decreases |ns|
  {
    if ns == [] then []
    else
      var n := ns[|ns| - 1];
      var prev := FixableOf(g, ns[..|ns| - 1], decay);
      if Level(g, n, decay) > NoiseLimits(g.rooms[n].kind).exceeded as real then prev + [n] else prev
  }

  /** A room is offered exactly when its level exceeds its limit, and none
      is offered twice. */
  lemma {:induction false} FixableOfExact(g: Graph, ns: seq<string>, decay: nat -> real)
    requires PositiveDecay(decay) && forall n :: n in ns ==> Measurable(g, n)
    ensures forall n :: n in FixableOf(g, ns, decay) <==>
              n in ns && Level(g, n, decay) > NoiseLimits(g.rooms[n].kind).exceeded as real
    ensures NoDups(ns) ==> NoDups(FixableOf(g, ns, decay))
    decreases |ns|
  {
    if ns != [] {
      var ns' := ns[..|ns| - 1];
      var n := ns[|ns| - 1];
      assert ns == ns' + [n];
      FixableOfExact(g, ns', decay);
      var prev := FixableOf(g, ns', decay);
      if NoDups(ns) {
        forall i, j | 0 <= i < j < |ns'| ensures ns'[i] != ns'[j] {
          assert ns'[i] == ns[i] && ns'[j] == ns[j];
        }
        forall i | 0 <= i < |ns'| ensures ns'[i] != n {
          assert ns'[i] == ns[i];
        }
        NoDupsAppend(prev, n);
      }
    }
  }

  /** The rooms offered for fixing, in insertion order. */
  function Fixable(g: Graph, decay: nat -> real): (fs: seq<string>)
    requires Readable(g) && PositiveDecay(decay)
    ensures forall n :: n in fs ==> n in g.rooms
  {
    FixableOf(g, g.names, decay)
  }

  /** The rooms offered are exactly those whose reading is in the exceeded
      state, each once. */
  lemma FixableExact(g: Graph, decay: nat -> real)
    requires Valid(g) && Readable(g) && PositiveDecay(decay)
    ensures NoDups(Fixable(g, decay))
    ensures forall n :: n in Fixable(g, decay) <==>
              n in g.rooms && Judge(g.rooms[n].kind, Level(g, n, decay)) == Exceeds
  {
    FixableOfExact(g, g.names, decay);
  }

  /** Fixing room `n`: its intrinsic noise becomes its category's adequate
      limit; nothing else changes. */
  function FixRoom(g: Graph, n: string): (h: Graph)
    requires Valid(g) && n in g.rooms
    ensures Valid(h)
    ensures h.rooms.Keys == g.rooms.Keys
    ensures h.rooms[n].noise == NoiseLimits(g.rooms[n].kind).adequate as real
    ensures h.rooms[n] == g.rooms[n].(noise := h.rooms[n].noise)
    ensures forall x :: x in g.rooms && x != n ==> h.rooms[x] == g.rooms[x]
    ensures h.adj == g.adj && h.pos == g.pos && h.names == g.names
  {
    var room := g.rooms[n];
    g.(rooms := g.rooms[n := room.(noise := NoiseLimits(room.kind).adequate as real)])
  }

  /** A source room that no neighbour reaches measures exactly its adequate
      limit once fixed, so its reading is then in the adequate state. */
  lemma FixQuietsIsolatedSource(g: Graph, n: string, decay: nat -> real)
    requires Valid(g) && PositiveDecay(decay) && n in g.rooms && g.rooms[n].source
    requires forall m :: m in g.adj[n] ==> g.rooms[m].pos == g.rooms[n].pos
    ensures Level(FixRoom(g, n), n, decay) == NoiseLimits(g.rooms[n].kind).adequate as real
    ensures Judge(g.rooms[n].kind, Level(FixRoom(g, n), n, decay)) == Adequate
  {
    var h := FixRoom(g, n);
    LevelOfUnreachedRoom(h, n, decay);
  }

  /** A room that is not a source does not count its own noise, so fixing
      it leaves its own level unchanged. */
  lemma FixKeepsLevelOfNonSource(g: Graph, n: string, decay: nat -> real)
    requires Valid(g) && PositiveDecay(decay) && n in g.rooms && !g.rooms[n].source
    ensures Level(FixRoom(g, n), n, decay) == Level(g, n, decay)
  {
    var h := FixRoom(g, n);
    PropagatedFrame(h, g, n, g.adj[n], decay);
  }

  /** Fixing a room changes no level of a room that does not list it as a
      neighbour. */
  lemma FixReachesOnlyNeighbours(g: Graph, n: string, m: string, decay: nat -> real)
    requires Valid(g) && PositiveDecay(decay) && n in g.rooms && m in g.rooms
    requires m != n && n !in g.adj[m]
    ensures Level(FixRoom(g, n), m, decay) == Level(g, m, decay)
  {
    var h := FixRoom(g, n);
    PropagatedFrame(h, g, m, g.adj[m], decay);
  }
}
