/** The noise level a room measures: its own noise if it is a source, plus
    what each direct neighbour's intrinsic noise contributes after
    attenuation by distance and by a change of floor, reduced by a fifth
    when the room has walls. */
module Propagation {
  import opened Rooms
  import opened Graphs

  /** `decay(d2)` stands for the logarithmic attenuation ln(d + 1) of a
      neighbour at distance d = sqrt(d2). The model keeps it abstract and
      asks only what makes the division defined: it is positive at every
      non-zero distance. */
  ghost predicate PositiveDecay(decay: nat -> real)
  {
    forall d2: nat :: d2 > 0 ==> decay(d2) > 0.0
  }

  /** The room exists and every name it lists as a neighbour exists. */
  ghost predicate Measurable(g: Graph, n: string)
  {
    n in g.rooms && n in g.adj && forall m :: m in g.adj[n] ==> m in g.rooms
  }

  lemma ValidMeasurable(g: Graph, n: string)
    requires Valid(g) && n in g.rooms
    ensures Measurable(g, n)
  {
  }

  /** Attenuation towards a neighbour at squared distance `d2`: the
      logarithmic term, one and a half times larger across floors. */
  function Attenuation(d2: nat, crossFloor: bool, decay: nat -> real): (att: real)
    requires d2 > 0 && PositiveDecay(decay)
    ensures att > 0.0
    ensures crossFloor ==> att == 1.5 * decay(d2)
    ensures !crossFloor ==> att == decay(d2)
  {
    var att := decay(d2);
    if crossFloor then att * 1.5 else att
  }

  /** What neighbour `m` adds to room `n` before wall absorption: nothing
      when they stand at the same position, otherwise `m`'s intrinsic noise
      divided by the attenuation. */
  function Contribution(g: Graph, n: string, m: string, decay: nat -> real): (c: real)
    requires n in g.rooms && m in g.rooms && PositiveDecay(decay)
    ensures g.rooms[n].pos == g.rooms[m].pos ==> c == 0.0
    ensures g.rooms[m].noise >= 0.0 ==> c >= 0.0
  {
    var here, there := g.rooms[n], g.rooms[m];
    var d2 := SqDist(here.pos, there.pos);
    if d2 == 0 then 0.0
    else there.noise / Attenuation(d2, here.floor != there.floor, decay)
  }

  /** Sum of the contributions of the neighbours `ms`, in list order. */
  function Propagated(g: Graph, n: string, ms: seq<string>, decay: nat -> real): (p: real)
    requires n in g.rooms && PositiveDecay(decay)
    requires forall m :: m in ms ==> m in g.rooms
    ensures (forall m :: m in ms ==> g.rooms[m].noise == 0.0) ==> p == 0.0
    decreases |ms|
  {
    if ms == [] then 0.0
    else Propagated(g, n, ms[..|ms| - 1], decay) + Contribution(g, n, ms[|ms| - 1], decay)
  }

  /** The room's own share of its level: only a source has one, and it is
      at most the room's noise. */
  function OwnNoise(room: Room): (o: real)
    ensures o != 0.0 ==> room.source
    ensures room.noise >= 0.0 ==> 0.0 <= o <= room.noise
  {
    if room.source then room.noise else 0.0
  }

  /** The level room `n` measures. With silent neighbours it is the room's
      own share alone. */
  function Level(g: Graph, n: string, decay: nat -> real): (l: real)
    requires Measurable(g, n) && PositiveDecay(decay)
    ensures (forall m :: m in g.adj[n] ==> g.rooms[m].noise == 0.0) ==> l == OwnNoise(g.rooms[n])
  {
    var room := g.rooms[n];
    var absorption := if room.wall then 0.8 else 1.0;
    OwnNoise(room) + Propagated(g, n, g.adj[n], decay) * absorption
  }

  /** Propagation is a sum over the neighbour list: it splits over any
      division of the list. */
  lemma {:induction false} PropagatedSplit(g: Graph, n: string, xs: seq<string>, ys: seq<string>, decay: nat -> real)
    requires n in g.rooms && PositiveDecay(decay)
    requires forall m :: m in xs + ys ==> m in g.rooms
    ensures Propagated(g, n, xs + ys, decay) == Propagated(g, n, xs, decay) + Propagated(g, n, ys, decay)
    decreases |ys|
  {
    if ys == [] {
      assert xs + ys == xs;
    } else {
      var ys' := ys[..|ys| - 1];
      assert (xs + ys)[..|xs + ys| - 1] == xs + ys';
      assert (xs + ys)[|xs + ys| - 1] == ys[|ys| - 1];
      PropagatedSplit(g, n, xs, ys', decay);
    }
  }

  /** Neighbours standing at the room's own position contribute nothing. */
  lemma {:induction false} PropagatedSilent(g: Graph, n: string, ms: seq<string>, decay: nat -> real)
    requires n in g.rooms && PositiveDecay(decay)
    requires forall m :: m in ms ==> m in g.rooms && g.rooms[m].pos == g.rooms[n].pos
    ensures Propagated(g, n, ms, decay) == 0.0
    decreases |ms|
  {
    if ms != [] {
      PropagatedSilent(g, n, ms[..|ms| - 1], decay);
    }
  }

  /** Neighbours whose intrinsic noise is not negative never lower a level. */
  lemma {:induction false} PropagatedNonNegative(g: Graph, n: string, ms: seq<string>, decay: nat -> real)
    requires n in g.rooms && PositiveDecay(decay)
    requires forall m :: m in ms ==> m in g.rooms && g.rooms[m].noise >= 0.0
    ensures Propagated(g, n, ms, decay) >= 0.0
    decreases |ms|
  {
    if ms != [] {
      PropagatedNonNegative(g, n, ms[..|ms| - 1], decay);
    }
  }

  /** Propagation reads only the positions and floors of the two rooms and
      the neighbours' noise: two graphs that agree on those agree on it. */
  lemma {:induction false} PropagatedFrame(g: Graph, h: Graph, n: string, ms: seq<string>, decay: nat -> real)
    requires n in g.rooms && n in h.rooms && PositiveDecay(decay)
    requires g.rooms[n].pos == h.rooms[n].pos && g.rooms[n].floor == h.rooms[n].floor
    requires forall m :: m in ms ==>
               && m in g.rooms && m in h.rooms
               && g.rooms[m].pos == h.rooms[m].pos
               && g.rooms[m].floor == h.rooms[m].floor
               && g.rooms[m].noise == h.rooms[m].noise
    ensures Propagated(g, n, ms, decay) == Propagated(h, n, ms, decay)
    decreases |ms|
  {
    if ms != [] {
      PropagatedFrame(g, h, n, ms[..|ms| - 1], decay);
    }
  }

  /** A room none of whose neighbours stands at a non-zero distance measures
      exactly its own noise if it is a source and 0 otherwise, walls or not. */
  lemma LevelOfUnreachedRoom(g: Graph, n: string, decay: nat -> real)
    requires Measurable(g, n) && PositiveDecay(decay)
    requires forall m :: m in g.adj[n] ==> g.rooms[m].pos == g.rooms[n].pos
    ensures Level(g, n, decay) == OwnNoise(g.rooms[n])
    ensures !g.rooms[n].source ==> Level(g, n, decay) == 0.0
  {
    PropagatedSilent(g, n, g.adj[n], decay);
  }

  /** With neighbours of non-negative noise a room measures at least its own
      share. */
  lemma LevelAtLeastOwn(g: Graph, n: string, decay: nat -> real)
    requires Measurable(g, n) && PositiveDecay(decay)
    requires forall m :: m in g.adj[n] ==> g.rooms[m].noise >= 0.0
    ensures Level(g, n, decay) >= OwnNoise(g.rooms[n])
  {
    PropagatedNonNegative(g, n, g.adj[n], decay);
  }

  /** Walls absorb a fifth of the propagated noise: giving a room walls
      leaves its own share and scales the rest by 0.8. */
  lemma LevelWallAbsorbs(g: Graph, n: string, decay: nat -> real)
    requires Measurable(g, n) && PositiveDecay(decay)
    ensures var walled := g.(rooms := g.rooms[n := g.rooms[n].(wall := true)]);
            var open := g.(rooms := g.rooms[n := g.rooms[n].(wall := false)]);
            Level(walled, n, decay) - OwnNoise(g.rooms[n])
              == 0.8 * (Level(open, n, decay) - OwnNoise(g.rooms[n]))
  {
    var walled := g.(rooms := g.rooms[n := g.rooms[n].(wall := true)]);
    var open := g.(rooms := g.rooms[n := g.rooms[n].(wall := false)]);
    PropagatedFrame(walled, open, n, g.adj[n], decay);
  }
}
