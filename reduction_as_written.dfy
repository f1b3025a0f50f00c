/** The reduction pass as the source writes it. Each pair holds the two room
    objects themselves, collected before any merge, and the pass never asks
    whether an earlier pair already deleted one of them. A later pair can
    therefore name a deleted room, and two things can happen:
    - the second room is already gone: removing it again from its old
      neighbours' lists, or from the room map, raises an error, and the pass
      stops;
    - only the first room is gone: the pass merges into the deleted room,
      so live rooms end up listing a room that no longer exists.
    This model stops at the first such pair and reports which case it is.
    In the second case the source does not stop: the model does not follow
    it past the dangling link. */
module ReductionAsWritten {
  import opened Rooms
  import opened Graphs
  import opened Reduction

  datatype Fault =
    | SecondAlreadyRemoved(room: string)  // the source raises on the stale second room
    | FirstAlreadyRemoved(room: string)   // the source goes on, merging into a deleted room

  datatype Outcome = Completed(graph: Graph) | Stopped(fault: Fault)

  /** One turn on pair (a, b): a deleted second room is reported first,
      since the source raises on it even when the first room is gone too;
      then a deleted first room, where the model stops although the source
      goes on; otherwise the merge. */
  function Turn(h: Graph, a: string, b: string): (o: Outcome)
    requires Valid(h) && a != b
    ensures o.Completed? <==> a in h.rooms && b in h.rooms
    ensures o.Completed? ==> Valid(o.graph) && o.graph == MergeIfPresent(h, a, b)
    ensures b !in h.rooms ==> o == Stopped(SecondAlreadyRemoved(b))
    ensures b in h.rooms && a !in h.rooms ==> o == Stopped(FirstAlreadyRemoved(a))
  {
    if b !in h.rooms then Stopped(SecondAlreadyRemoved(b))
    else if a !in h.rooms then Stopped(FirstAlreadyRemoved(a))
    else
      MergeStepValid(h, a, b);
      Completed(MergeStep(h, a, b))
  }

  /** The pass as written: the pairs in order, stopping at the first turn
      that names a deleted room. */
  function ReduceAsWritten(g: Graph, ps: seq<(string, string)>): (o: Outcome)
    requires Valid(g) && DistinctPairs(ps) && PairsIn(ps, g.rooms)
    ensures o.Completed? ==> Valid(o.graph)
    decreases |ps|
  {
    if ps == [] then Completed(g)
    else
      PrefixPairs(ps, g.rooms);
      match ReduceAsWritten(g, ps[..|ps| - 1])
      case Stopped(f) => Stopped(f)
      case Completed(h) => Turn(h, ps[|ps| - 1].0, ps[|ps| - 1].1)
  }

  /** The last turn of the pass as written. */
  lemma AsWrittenLast(g: Graph, ps: seq<(string, string)>)
    requires Valid(g) && DistinctPairs(ps) && PairsIn(ps, g.rooms) && ps != []
    ensures DistinctPairs(ps[..|ps| - 1]) && PairsIn(ps[..|ps| - 1], g.rooms)
    ensures ReduceAsWritten(g, ps[..|ps| - 1]).Stopped? ==>
              ReduceAsWritten(g, ps) == ReduceAsWritten(g, ps[..|ps| - 1])
    ensures ReduceAsWritten(g, ps[..|ps| - 1]).Completed? ==>
              ReduceAsWritten(g, ps) == Turn(ReduceAsWritten(g, ps[..|ps| - 1]).graph, ps[|ps| - 1].0, ps[|ps| - 1].1)
  {
    PrefixPairs(ps, g.rooms);
  }

  /** The first pair, in order, naming a room that the pairs before it
      deleted, computed on the room map alone. The room it names is gone
      from the room map the corrected pass leaves. */
  function FirstFault(rooms: map<string, Room>, ps: seq<(string, string)>): (f: Option<Fault>)
    requires DistinctPairs(ps)
    ensures f.Some? ==> f.value.room !in ReduceRooms(rooms, ps)
    decreases |ps|
  {
    if ps == [] then None
    else
      PrefixPairs(ps, rooms);
      var ps' := ps[..|ps| - 1];
      var a, b := ps[|ps| - 1].0, ps[|ps| - 1].1;
      match FirstFault(rooms, ps')
      case Some(f) => Some(f)
      case None =>
        var left := ReduceRooms(rooms, ps');
        if b !in left then Some(SecondAlreadyRemoved(b))
        else if a !in left then Some(FirstAlreadyRemoved(a))
        else None
  }

  /** The pass as written stops exactly at the first pair naming a room
      already deleted, and otherwise ends where the corrected pass ends. */
  lemma {:induction false} AsWrittenCharacterized(g: Graph, ps: seq<(string, string)>)
    requires Valid(g) && DistinctPairs(ps) && PairsIn(ps, g.rooms)
    ensures FirstFault(g.rooms, ps).None? ==> ReduceAsWritten(g, ps) == Completed(Reduce(g, ps))
    ensures FirstFault(g.rooms, ps).Some? ==> ReduceAsWritten(g, ps) == Stopped(FirstFault(g.rooms, ps).value)
    decreases |ps|
  {
    if ps != [] {
      var ps' := ps[..|ps| - 1];
      AsWrittenLast(g, ps);
      AsWrittenCharacterized(g, ps');
      ReduceLast(g, ps);
      ReduceProjectsRooms(g, ps');
    }
  }

  /** On pairs that share no room the pass as written never stops early. */
  lemma {:induction false} NoFaultOnDisjoint(rooms: map<string, Room>, ps: seq<(string, string)>)
    requires DisjointPairs(ps) && PairsIn(ps, rooms)
    ensures FirstFault(rooms, ps) == None
    decreases |ps|
  {
    if ps != [] {
      var ps' := ps[..|ps| - 1];
      PrefixPairs(ps, rooms);
      SecondsLast(ps);
      NoFaultOnDisjoint(rooms, ps');
      RoomsDisjoint(rooms, ps');
    }
  }

  lemma AsWrittenCompletesOnDisjoint(g: Graph, ps: seq<(string, string)>)
    requires Valid(g) && DisjointPairs(ps) && PairsIn(ps, g.rooms)
    ensures ReduceAsWritten(g, ps) == Completed(Reduce(g, ps))
  {
    NoFaultOnDisjoint(g.rooms, ps);
    AsWrittenCharacterized(g, ps);
  }
}
