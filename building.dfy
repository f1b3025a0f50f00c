/** The building as the main window keeps it: the room map, the neighbour
    lists, the position map and the name order, updated in place, plus the
    readings, the report and the two aggregates that are rebuilt from them.
    Every operation is proved against the value model of the other modules;
    frames are kept per field, so each method names exactly the fields it
    may change. */
module Simulation {
  import opened Rooms
  import opened Graphs
  import opened Propagation
  import opened Reduction
  import opened Report
  import opened Remediation

  class Building {
    var rooms: map<string, Room>
    var adj: Adjacency
    var pos: map<string, Pos>
    var names: seq<string>
    var readings: seq<Reading>
    var report: seq<Entry>
    var mean: real
    var maxLevel: real
    /** The logarithmic attenuation by distance, kept abstract. */
    const decay: nat -> real

    /** The building part of the state, as a value. */
    function State(): Graph
      reads this`rooms, this`adj, this`pos, this`names
    {
      Graph(rooms, adj, pos, names)
    }

    ghost predicate Valid()
      reads this`rooms, this`adj, this`pos, this`names
    {
      Graphs.Valid(State()) && PositiveDecay(decay)
    }

    /** A building with the rooms, links and positions of `g`, and no
        readings or report yet. */
    constructor(g: Graph, decay: nat -> real)
      requires Graphs.Valid(g) && PositiveDecay(decay)
      ensures Valid() && State() == g && this.decay == decay
      ensures readings == [] && report == [] && mean == 0.0 && maxLevel == 0.0
    {
      rooms, adj, pos, names := g.rooms, g.adj, g.pos, g.names;
      readings, report, mean, maxLevel := [], [], 0.0, 0.0;
      this.decay := decay;
    }

    /** Connecting room `a` to room `c`: `c` joins `a`'s list unless it is
        already there, and then `a` joins `c`'s list unless it is already
        there. */
    method Connect(a: string, c: string)
      requires a in adj && c in adj
      modifies this`adj
      ensures adj == ConnectAdj(old(adj), a, c)
    {
      if c !in adj[a] {
        adj := adj[a := adj[a] + [c]];
        if a !in adj[c] {
          adj := adj[c := adj[c] + [a]];
        }
      }
    }

    /** The level room `n` measures: its own noise if it is a source, plus
        each neighbour's noise over the attenuation, skipping neighbours at
        distance 0, with a fifth absorbed by walls. */
    method MeasureNoise(n: string) returns (level: real)
      requires Measurable(State(), n) && PositiveDecay(decay)
      ensures level == Level(State(), n, decay)
    {
      var room := rooms[n];
      var own := if room.source then room.noise else 0.0;
      var propagated := 0.0;
      var ms := adj[n];
      var i := 0;
      while i < |ms|
        invariant 0 <= i <= |ms|
        invariant propagated == Propagated(State(), n, ms[..i], decay)
      {
        assert ms[..i + 1][..i] == ms[..i];
        var other := rooms[ms[i]];
        var d2 := SqDist(room.pos, other.pos);
        if d2 == 0 {
          i := i + 1;
          continue;
        }
        var att := decay(d2);
        if room.floor != other.floor {
          att := att * 1.5;
        }
        propagated := propagated + other.noise / att;
        i := i + 1;
      }
      assert ms[..|ms|] == ms;
      var absorption := if room.wall then 0.8 else 1.0;
      level := own + propagated * absorption;
    }

    /** The merge candidates, collected over all pairs of names i < j in
        insertion order before anything is merged. */
    method CollectCandidates() returns (pairs: seq<(string, string)>)
      requires NamesInRooms(State())
      ensures pairs == Candidates(State())
    {
      ghost var g := State();
      pairs := [];
      var i := 0;
      while i < |names|
        invariant 0 <= i <= |names|
        invariant pairs == CandidateRows(g, i)
      {
        var j := i + 1;
        while j < |names|
          invariant i + 1 <= j <= |names|
          invariant pairs == CandidateRows(g, i) + CandidateRow(g, i, j)
        {
          var r1, r2 := rooms[names[i]], rooms[names[j]];
          var fits := false;
          if r1.kind == r2.kind && Abs(r1.noise - r2.noise) <= 5.0 {
            var d2 := SqDist(r1.pos, r2.pos);
            fits := d2 <= 4 && r1.floor == r2.floor;
          }
          assert fits == IsCandidate(g, names[i], names[j]);
          assert CandidateRow(g, i, j + 1) == CandidateRow(g, i, j) + if fits then [(names[i], names[j])] else [];
          if fits {
            assert (CandidateRows(g, i) + CandidateRow(g, i, j)) + [(names[i], names[j])]
                == CandidateRows(g, i) + (CandidateRow(g, i, j) + [(names[i], names[j])]);
            pairs := pairs + [(names[i], names[j])];
          } else {
            assert CandidateRow(g, i, j) + [] == CandidateRow(g, i, j);
          }
          j := j + 1;
        }
        i := i + 1;
      }
    }

    /** Room `a` connects, in turn, to each of `cs` other than itself. */
    method AdoptNeighbours(a: string, cs: seq<string>)
      requires a in adj && forall c :: c in cs ==> c in adj
      modifies this`adj
      ensures adj == AdoptAll(old(adj), a, cs)
    {
      var i := 0;
      while i < |cs|
        invariant 0 <= i <= |cs|
        invariant adj == AdoptAll(old(adj), a, cs[..i])
      {
        assert cs[..i + 1][..i] == cs[..i];
        if cs[i] != a {
          Connect(a, cs[i]);
        }
        i := i + 1;
      }
      assert cs[..|cs|] == cs;
    }

    /** Room `b` is removed from the list of each of `cs` in turn. */
    method DetachFrom(b: string, cs: seq<string>)
      requires forall c :: c in cs ==> c in adj
      modifies this`adj
      ensures adj == Detach(old(adj), b, cs)
    {
      var j := 0;
      while j < |cs|
        invariant 0 <= j <= |cs|
        invariant adj == Detach(old(adj), b, cs[..j])
      {
        assert cs[..j + 1][..j] == cs[..j];
        adj := adj[cs[j] := RemoveFirst(adj[cs[j]], b)];
        j := j + 1;
      }
      assert cs[..|cs|] == cs;
    }

    /** Merging room `b` into room `a`: `a` connects to every neighbour of
        `b` other than itself, takes the average noise, `b` is removed from
        each of its neighbours' lists and deleted from the room and position
        maps. */
    method MergeRooms(a: string, b: string)
      requires Mergeable(adj, a, b) && a in rooms && b in rooms
      modifies this`rooms, this`adj, this`pos, this`names
      ensures rooms == MergedRooms(old(rooms), a, b)
      ensures adj == MergedAdj(old(adj), a, b)
      ensures pos == old(pos) - {b} && names == RemoveFirst(old(names), b)
    {
      var cs := adj[b];
      AdoptNeighbours(a, cs);
      assert unchanged(this`rooms, this`pos, this`names);
      rooms := rooms[a := rooms[a].(noise := (rooms[a].noise + rooms[b].noise) / 2.0)];
      label averaged:
      MergedRoomsInPlace(old(rooms), rooms, a, b);
      DetachFrom(b, cs);
      assert unchanged@averaged(this`rooms, this`pos, this`names);
      MergedAdjInPlace(old(adj), adj, a, b);
      rooms, adj, pos, names := rooms - {b}, adj - {b}, pos - {b}, RemoveFirst(names, b);
    }

    /** The reduction pass: the candidates are collected first, then merged
        in order, each only while both of its rooms are still present. */
    method ReduceGraph()
      requires Valid()
      modifies this`rooms, this`adj, this`pos, this`names
      ensures Valid()
      ensures NamesInRooms(old(State())) && DistinctPairs(Candidates(old(State())))
      ensures State() == Reduce(old(State()), Candidates(old(State())))
    {
      ghost var g0 := State();
      ValidNamesInRooms(g0);
      var pairs := CollectCandidates();
      CandidatesDistinct(g0);
      var k := 0;
      while k < |pairs|
        invariant 0 <= k <= |pairs|
        invariant DistinctPairs(pairs[..k])
        invariant State() == Reduce(g0, pairs[..k])
      {
        var a, b := pairs[k].0, pairs[k].1;
        ReduceStep(g0, pairs, k);
        ghost var h := State();
        if a in rooms && b in rooms {
          MergeRooms(a, b);
          assert State() == MergeStep(h, a, b);
        }
        assert State() == MergeIfPresent(h, a, b);
        assert State() == Reduce(g0, pairs[..k + 1]);
        k := k + 1;
      }
      assert pairs[..|pairs|] == pairs;
    }

    /** Measuring every room, in insertion order. */
    method ReceiveData()
      requires Readable(State()) && PositiveDecay(decay)
      modifies this`readings
      ensures readings == Readings(State(), decay)
    {
      ghost var g := State();
      ghost var all := Readings(g, decay);
      readings := [];
      var i := 0;
      while i < |names|
        invariant 0 <= i <= |names|
        invariant |readings| == i
        invariant forall k :: 0 <= k < i ==> readings[k] == all[k]
      {
        var level := MeasureNoise(names[i]);
        assert all[i] == Reading(names[i], level);
        readings := readings + [Reading(names[i], level)];
        i := i + 1;
      }
    }

    /** The mean and the maximum of the readings; both 0 without readings. */
    method AnalyzeData()
      modifies this`mean, this`maxLevel
      ensures mean == Mean(Levels(readings)) && maxLevel == MaxOf(Levels(readings))
    {
      if readings == [] {
        mean, maxLevel := 0.0, 0.0;
        return;
      }
      ghost var xs := Levels(readings);
      var total, best := readings[0].level, readings[0].level;
      assert xs[..1] == [xs[0]];
      assert xs[..1][..0] == [];
      var i := 1;
      while i < |readings|
        invariant 1 <= i <= |readings|
        invariant total == Sum(xs[..i]) && best == MaxOf(xs[..i])
      {
        assert xs[..i + 1][..i] == xs[..i];
        var level := readings[i].level;
        total := total + level;
        if level > best {
          best := level;
        }
        i := i + 1;
      }
      assert xs[..|readings|] == xs;
      mean := total / |readings| as real;
      maxLevel := best;
    }

    /** One report line per reading, in order, with the state of the reading
        against the limits of its room's category. */
    method CompareStandards()
      requires forall i :: 0 <= i < |readings| ==> readings[i].name in rooms
      modifies this`report
      ensures report == ReportOf(rooms, readings)
    {
      report := [];
      var i := 0;
      while i < |readings|
        invariant 0 <= i <= |readings|
        invariant report == ReportOf(rooms, readings[..i])
      {
        assert readings[..i + 1][..i] == readings[..i];
        var r := readings[i];
        var l := NoiseLimits(rooms[r.name].kind);
        var verdict;
        if r.level > l.exceeded as real {
          verdict := Exceeds;
        } else if r.level > l.near as real {
          verdict := Near;
        } else {
          verdict := Adequate;
        }
        report := report + [Entry(r.name, r.level, verdict)];
        i := i + 1;
      }
      assert readings[..|readings|] == readings;
    }

    /** The aggregates and the report, rebuilt from the current readings. */
    method Summarize()
      requires forall i :: 0 <= i < |readings| ==> readings[i].name in rooms
      modifies this`mean, this`maxLevel, this`report
      ensures mean == Mean(Levels(readings)) && maxLevel == MaxOf(Levels(readings))
      ensures report == ReportOf(rooms, readings)
    {
      AnalyzeData();
      CompareStandards();
    }

    /** Rebuilding the readings, the aggregates and the report. */
    method Refresh()
      requires Valid()
      modifies this`readings, this`mean, this`maxLevel, this`report
      ensures readings == Readings(State(), decay)
      ensures mean == Mean(Levels(readings)) && maxLevel == MaxOf(Levels(readings))
      ensures report == ReportOf(rooms, readings)
    {
      ValidReadable(State());
      ReceiveData();
      Summarize();
    }

    /** The rooms offered for fixing, in insertion order: those whose level
        is above their category's exceeded limit. */
    method OfferFixes() returns (offered: seq<string>)
      requires Readable(State()) && PositiveDecay(decay)
      ensures offered == Fixable(State(), decay)
    {
      offered := [];
      var i := 0;
      while i < |names|
        invariant 0 <= i <= |names|
        invariant offered == FixableOf(State(), names[..i], decay)
      {
        assert names[i] in names;
        assert names[..i + 1][..i] == names[..i];
        var level := MeasureNoise(names[i]);
        if level > NoiseLimits(rooms[names[i]].kind).exceeded as real {
          offered := offered + [names[i]];
        }
        i := i + 1;
      }
      assert names[..|names|] == names;
    }

    /** Fixing the chosen room: an empty choice does nothing; otherwise the
        room's noise becomes its adequate limit and the readings, aggregates
        and report are rebuilt. */
    method Fix(choice: string)
      requires Valid() && (choice != "" ==> choice in rooms)
      modifies this`rooms, this`readings, this`mean, this`maxLevel, this`report
      ensures Valid()
      ensures choice == "" ==> unchanged(this)
      ensures choice != "" ==> State() == FixRoom(old(State()), choice)
      ensures choice != "" ==> readings == Readings(State(), decay)
      ensures choice != "" ==> report == ReportOf(rooms, readings)
      ensures choice != "" ==> mean == Mean(Levels(readings)) && maxLevel == MaxOf(Levels(readings))
    {
      if choice != "" {
        ghost var g0 := State();
        var room := rooms[choice];
        rooms := rooms[choice := room.(noise := NoiseLimits(room.kind).adequate as real)];
        assert State() == FixRoom(g0, choice);
        Refresh();
      }
    }
  }
}
