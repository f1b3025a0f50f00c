/** Graph reduction: merge candidates are pairs of rooms, in name order,
    of the same category and floor, with noise within 5 dB and standing at
    most 2 units apart; each pair is merged by handing the second room's
    neighbours to the first, averaging the two noise levels and deleting
    the second room. */
module Reduction {
  import opened Rooms
  import opened Graphs

  function Abs(x: real): real
  {
    if x < 0.0 then -x else x
  }

  /** The merge criterion for two rooms. */
  predicate IsCandidate(g: Graph, x: string, y: string): (r: bool)
    requires x in g.rooms && y in g.rooms
    ensures r <==> var r1, r2 := g.rooms[y], g.rooms[x];
                   r1.kind == r2.kind && Abs(r1.noise - r2.noise) <= 5.0 &&
                   SqDist(r1.pos, r2.pos) <= 4 && r1.floor == r2.floor
  {
    SqDistSymmetric(g.rooms[x].pos, g.rooms[y].pos);
    var r1, r2 := g.rooms[x], g.rooms[y];
    && r1.kind == r2.kind
    && Abs(r1.noise - r2.noise) <= 5.0
    && SqDist(r1.pos, r2.pos) <= 4
    && r1.floor == r2.floor
  }

  /** Candidate pairs (names[i], names[k]) for i < k < hi, in order of k. */
  function CandidateRow(g: Graph, i: nat, hi: nat): (r: seq<(string, string)>)
    requires NamesInRooms(g) && i < |g.names| && hi <= |g.names|
    ensures forall k :: 0 <= k < |r| ==> r[k].0 == g.names[i] && r[k].1 in g.rooms
    decreases hi
  {
    if hi <= i + 1 then []
    else
      var y := g.names[hi - 1];
      CandidateRow(g, i, hi - 1) + if IsCandidate(g, g.names[i], y) then [(g.names[i], y)] else []
  }

  /** The rows of the first `hi` names, one after the other. */
  function CandidateRows(g: Graph, hi: nat): (r: seq<(string, string)>)
    requires NamesInRooms(g) && hi <= |g.names|
    ensures forall k :: 0 <= k < |r| ==> r[k].0 in g.rooms && r[k].1 in g.rooms
  {
    if hi == 0 then []
    else CandidateRows(g, hi - 1) + CandidateRow(g, hi - 1, |g.names|)
  }

  /** All merge candidates, ordered by the insertion order of the first name
      and then of the second. */
  function Candidates(g: Graph): (r: seq<(string, string)>)
    requires NamesInRooms(g)
    ensures forall k :: 0 <= k < |r| ==> r[k].0 in g.rooms && r[k].1 in g.rooms
    ensures |g.names| <= 1 ==> r == []
  {
    assert |g.names| == 1 ==> CandidateRows(g, 1) == CandidateRows(g, 0) + CandidateRow(g, 0, 1);
    CandidateRows(g, |g.names|)
  }

  lemma {:induction false} CandidateRowExact(g: Graph, i: nat, hi: nat)
    requires NamesInRooms(g) && i < |g.names| && hi <= |g.names|
    ensures forall k :: i < k < hi && IsCandidate(g, g.names[i], g.names[k]) ==>
              (g.names[i], g.names[k]) in CandidateRow(g, i, hi)
    ensures forall p :: p in CandidateRow(g, i, hi) ==>
              exists k :: i < k < hi && p == (g.names[i], g.names[k]) && IsCandidate(g, g.names[i], g.names[k])
    decreases hi
  {
    if hi > i + 1 {
      CandidateRowExact(g, i, hi - 1);
    }
  }

  lemma {:induction false} CandidateRowsComplete(g: Graph, hi: nat)
    requires NamesInRooms(g) && hi <= |g.names|
    ensures forall i, k :: 0 <= i < hi && i < k < |g.names| && IsCandidate(g, g.names[i], g.names[k]) ==>
              (g.names[i], g.names[k]) in CandidateRows(g, hi)
    decreases hi
  {
    if hi > 0 {
      var prev, row := CandidateRows(g, hi - 1), CandidateRow(g, hi - 1, |g.names|);
      assert CandidateRows(g, hi) == prev + row;
      CandidateRowsComplete(g, hi - 1);
      CandidateRowExact(g, hi - 1, |g.names|);
    }
  }

  lemma {:induction false} CandidateRowsSound(g: Graph, hi: nat)
    requires NamesInRooms(g) && hi <= |g.names|
    ensures forall p :: p in CandidateRows(g, hi) ==>
              exists i, k :: 0 <= i < k < |g.names| && p == (g.names[i], g.names[k])
                && IsCandidate(g, g.names[i], g.names[k])
    decreases hi
  {
    if hi > 0 {
      var prev, row := CandidateRows(g, hi - 1), CandidateRow(g, hi - 1, |g.names|);
      assert CandidateRows(g, hi) == prev + row;
      CandidateRowsSound(g, hi - 1);
      CandidateRowExact(g, hi - 1, |g.names|);
      forall p | p in CandidateRows(g, hi)
        ensures exists i, k :: 0 <= i < k < |g.names| && p == (g.names[i], g.names[k])
                  && IsCandidate(g, g.names[i], g.names[k])
      {
        if p !in prev {
          assert p in row;
        }
      }
    }
  }

  /** A pair is a candidate exactly when its first name comes before its
      second in insertion order and the two rooms meet the merge criterion. */
  lemma CandidatesExact(g: Graph)
    requires NamesInRooms(g)
    ensures forall i, k :: 0 <= i < k < |g.names| && IsCandidate(g, g.names[i], g.names[k]) ==>
              (g.names[i], g.names[k]) in Candidates(g)
    ensures forall p :: p in Candidates(g) ==>
              exists i, k :: 0 <= i < k < |g.names| && p == (g.names[i], g.names[k])
                && IsCandidate(g, g.names[i], g.names[k])
  {
    CandidateRowsComplete(g, |g.names|);
    CandidateRowsSound(g, |g.names|);
  }

  /** No pair merges a room with itself. */
  predicate DistinctPairs(ps: seq<(string, string)>)
  {
    forall i :: 0 <= i < |ps| ==> ps[i].0 != ps[i].1
  }

  lemma CandidatesDistinct(g: Graph)
    requires NamesInRooms(g) && NoDups(g.names)
    ensures DistinctPairs(Candidates(g))
    ensures PairsIn(Candidates(g), g.rooms)
  {
    CandidatesExact(g);
    forall j | 0 <= j < |Candidates(g)|
      ensures Candidates(g)[j].0 != Candidates(g)[j].1
      ensures Candidates(g)[j].0 in g.rooms && Candidates(g)[j].1 in g.rooms
    {
      assert Candidates(g)[j] in Candidates(g);
    }
  }

  /** Step 1 of a merge: connect `a` to each of `cs` in turn, skipping `a`. */
  function AdoptAll(adj: Adjacency, a: string, cs: seq<string>): (r: Adjacency)
    requires a in adj && forall c :: c in cs ==> c in adj
    ensures r.Keys == adj.Keys
    ensures forall x :: x in adj && x != a && x !in cs ==> r[x] == adj[x]
    decreases |cs|
  {
    if cs == [] then adj
    else
      var prev := AdoptAll(adj, a, cs[..|cs| - 1]);
      var c := cs[|cs| - 1];
      if c != a then ConnectAdj(prev, a, c) else prev
  }

  /** Step 3 of a merge: remove `b` from the list of each of `cs` in turn. */
  function Detach(adj: Adjacency, b: string, cs: seq<string>): (r: Adjacency)
    requires forall c :: c in cs ==> c in adj
    ensures r.Keys == adj.Keys
    ensures forall x :: x in adj && x !in cs ==> r[x] == adj[x]
    decreases |cs|
  {
    if cs == [] then adj
    else
      var prev := Detach(adj, b, cs[..|cs| - 1]);
      var c := cs[|cs| - 1];
      prev[c := RemoveFirst(prev[c], b)]
  }

  /** The merged noise level of two rooms. */
  function Average(x: real, y: real): (m: real)
    ensures x <= y ==> x <= m <= y
    ensures y <= x ==> y <= m <= x
    ensures m - x == y - m
  {
    (x + y) / 2.0
  }

  /** The room map after merging `b` into `a`: `a` takes the average noise
      and `b` is deleted. */
  function MergedRooms(rooms: map<string, Room>, a: string, b: string): (r: map<string, Room>)
    requires a in rooms && b in rooms && a != b
    ensures r.Keys == rooms.Keys - {b}
    ensures |r| == |rooms| - 1
    ensures r[a] == rooms[a].(noise := Average(rooms[a].noise, rooms[b].noise))
    ensures forall x :: x in r && x != a ==> r[x] == rooms[x]
  {
    var r1, r2 := rooms[a], rooms[b];
    var r := rooms[a := r1.(noise := Average(r1.noise, r2.noise))] - {b};
    assert rooms.Keys == r.Keys + {b};
    r
  }

  /** What merging `b` into `a` needs of the neighbour lists: both rooms
      are listed, `b` does not list itself and every neighbour of `b` is
      listed. */
  ghost predicate Mergeable(adj: Adjacency, a: string, b: string)
  {
    a in adj && b in adj && a != b && b !in adj[b] && forall c :: c in adj[b] ==> c in adj
  }

  /** The adjacency after merging `b` into `a`: `a` adopts `b`'s neighbours,
      `b` is removed from its neighbours' lists and from the map. */
  function MergedAdj(adj: Adjacency, a: string, b: string): (r: Adjacency)
    requires Mergeable(adj, a, b)
    ensures r.Keys == adj.Keys - {b}
    ensures forall x :: x in r && x != a && x !in adj[b] ==> r[x] == adj[x]
  {
    var adopted := AdoptAll(adj, a, adj[b]);
    assert adopted[b] == adj[b];
    Detach(adopted, b, adopted[b]) - {b}
  }

  /** Merging room `b` into room `a`, step by step: `a` adopts `b`'s
      neighbours, takes the average noise, `b` is removed from its
      neighbours' lists and deleted from the room map, the position map and
      the name order. */
  function MergeStep(g: Graph, a: string, b: string): (h: Graph)
    requires Valid(g) && a != b && a in g.rooms && b in g.rooms
    ensures h.rooms.Keys == g.rooms.Keys - {b} && h.pos.Keys == g.pos.Keys - {b}
    ensures |h.names| == |g.names| - 1 && b !in h.names
  {
    Graph(MergedRooms(g.rooms, a, b), MergedAdj(g.adj, a, b), g.pos - {b}, RemoveFirst(g.names, b))
  }

  lemma {:induction false} AdoptAllLinks(adj: Adjacency, a: string, cs: seq<string>)
    requires AdjValid(adj) && a in adj && forall c :: c in cs ==> c in adj
    ensures AdjValid(AdoptAll(adj, a, cs))
    ensures forall x, y :: x in adj ==>
              (y in AdoptAll(adj, a, cs)[x] <==>
                y in adj[x] || (x == a && y in cs && y != a) || (y == a && x in cs && x != a))
    decreases |cs|
  {
    if cs != [] {
      var cs' := cs[..|cs| - 1];
      var c := cs[|cs| - 1];
      assert cs == cs' + [c];
      AdoptAllLinks(adj, a, cs');
      var prev := AdoptAll(adj, a, cs');
      if c != a {
        ConnectSymmetric(prev, a, c);
      }
    }
  }

  lemma {:induction false} DetachLinks(adj: Adjacency, b: string, cs: seq<string>)
    requires forall c :: c in cs ==> c in adj
    requires forall x :: x in adj ==> NoDups(adj[x])
    ensures forall x :: x in adj ==> NoDups(Detach(adj, b, cs)[x])
    ensures forall x, y :: x in adj ==>
              (y in Detach(adj, b, cs)[x] <==> y in adj[x] && !(y == b && x in cs))
    decreases |cs|
  {
    if cs != [] {
      var cs' := cs[..|cs| - 1];
      assert cs == cs' + [cs[|cs| - 1]];
      DetachLinks(adj, b, cs');
    }
  }

  /** Room `x` lists `y` after `b` is merged into `a`: every link of `b` is
      redirected to `a`, and `b` disappears. */
  ghost predicate Redirected(adj: Adjacency, a: string, b: string, x: string, y: string)
    requires x in adj && b in adj
  {
    && y != b
    && (|| y in adj[x]
        || (x == a && y in adj[b] && y != a)
        || (y == a && x != a && x in adj[b]))
  }

  lemma MergedAdjLinks(adj: Adjacency, a: string, b: string)
    requires AdjValid(adj) && a in adj && b in adj && a != b
    ensures forall x :: x in MergedAdj(adj, a, b) ==> NoDups(MergedAdj(adj, a, b)[x])
    ensures forall x, y :: x in MergedAdj(adj, a, b) ==>
              (y in MergedAdj(adj, a, b)[x] <==> Redirected(adj, a, b, x, y))
  {
    var cs := adj[b];
    var adopted := AdoptAll(adj, a, cs);
    AdoptAllLinks(adj, a, cs);
    assert adopted[b] == cs;
    assert MergedAdj(adj, a, b) == Detach(adopted, b, cs) - {b};
    DetachLinks(adopted, b, cs);
  }

  lemma MergedAdjValid(adj: Adjacency, a: string, b: string)
    requires AdjValid(adj) && a in adj && b in adj && a != b
    ensures AdjValid(MergedAdj(adj, a, b))
  {
    var m := MergedAdj(adj, a, b);
    MergedAdjLinks(adj, a, b);
    forall x | x in m
      ensures forall y :: y in m[x] ==> y != x && y in m && x in m[y]
    {
      forall y | y in m[x] ensures y != x && y in m && x in m[y] {
        assert Redirected(adj, a, b, x, y);
        assert y in adj;
        assert Redirected(adj, a, b, y, x);
      }
    }
  }

  /** One merge keeps the building valid, deletes exactly `b`, gives `a`
      the average noise, leaves every other room as it was, and redirects
      `b`'s links to `a`. */
  lemma MergeStepValid(g: Graph, a: string, b: string)
    requires Valid(g) && a != b && a in g.rooms && b in g.rooms
    ensures Valid(MergeStep(g, a, b))
    ensures MergeStep(g, a, b).rooms.Keys == g.rooms.Keys - {b}
    ensures |MergeStep(g, a, b).rooms| == |g.rooms| - 1
    ensures MergeStep(g, a, b).rooms[a] == g.rooms[a].(noise := Average(g.rooms[a].noise, g.rooms[b].noise))
    ensures forall x :: x in MergeStep(g, a, b).rooms && x != a ==> MergeStep(g, a, b).rooms[x] == g.rooms[x]
    ensures forall x, y :: x in MergeStep(g, a, b).adj ==>
              (y in MergeStep(g, a, b).adj[x] <==> Redirected(g.adj, a, b, x, y))
  {
    MergedAdjLinks(g.adj, a, b);
    MergedAdjValid(g.adj, a, b);
    MergedPositions(g.rooms, g.pos, a, b);
    RemoveFirstKeys(g.names, g.rooms.Keys, b);
  }

  /** A merge keeps the display order of the rooms that stay: the name
      order loses `b` and nothing else moves. */
  lemma MergeKeepsOrder(g: Graph, a: string, b: string)
    requires Valid(g) && a != b && a in g.rooms && b in g.rooms
    ensures exists i :: 0 <= i < |g.names| && g.names[i] == b &&
                        MergeStep(g, a, b).names == g.names[..i] + g.names[i + 1..]
  {
    assert b in g.names;
    var i := FirstOccurrence(g.names, b);
    RemoveFirstAt(g.names, b, i);
  }

  lemma RemoveFirstKeys(names: seq<string>, keys: set<string>, b: string)
    requires NoDups(names) && forall n :: n in names <==> n in keys
    ensures NoDups(RemoveFirst(names, b))
    ensures forall n :: n in RemoveFirst(names, b) <==> n in keys - {b}
  {
  }

  /** The position map loses `b` and still agrees with the merged rooms. */
  lemma MergedPositions(rooms: map<string, Room>, pos: map<string, Pos>, a: string, b: string)
    requires a in rooms && b in rooms && a != b
    requires pos.Keys == rooms.Keys && forall n :: n in pos ==> pos[n] == rooms[n].pos
    ensures (pos - {b}).Keys == rooms.Keys - {b}
    ensures forall n :: n in pos - {b} ==> (pos - {b})[n] == MergedRooms(rooms, a, b)[n].pos
  {
  }

  /** The room map a merge leaves once `a` has taken the average noise
      in place and `b` is deleted. */
  lemma MergedRoomsInPlace(rooms: map<string, Room>, averaged: map<string, Room>, a: string, b: string)
    requires a in rooms && b in rooms && a != b
    requires averaged == rooms[a := rooms[a].(noise := (rooms[a].noise + rooms[b].noise) / 2.0)]
    ensures averaged - {b} == MergedRooms(rooms, a, b)
  {
  }

  /** The adjacency a merge leaves once `a` has adopted `b`'s neighbours in
      place, `b` has been detached from them and then deleted. */
  lemma MergedAdjInPlace(adj: Adjacency, detached: Adjacency, a: string, b: string)
    requires Mergeable(adj, a, b)
    requires detached == Detach(AdoptAll(adj, a, adj[b]), b, adj[b])
    ensures detached - {b} == MergedAdj(adj, a, b)
  {
    assert AdoptAll(adj, a, adj[b])[b] == adj[b];
  }

  /** One turn of the corrected pass: merge the pair only if both of its
      rooms are still present, otherwise leave the building as it is. */
  function MergeIfPresent(g: Graph, a: string, b: string): (h: Graph)
    requires Valid(g) && a != b
    ensures Valid(h)
  {
    if a in g.rooms && b in g.rooms then
      MergeStepValid(g, a, b);
      MergeStep(g, a, b)
    else g
  }

  /** The corrected reduction: the pairs are taken in order, each with
      `MergeIfPresent`. */
  function Reduce(g: Graph, ps: seq<(string, string)>): (h: Graph)
    requires Valid(g) && DistinctPairs(ps)
    ensures Valid(h)
    decreases |ps|
  {
    if ps == [] then g
    else
      var ps' := ps[..|ps| - 1];
      assert DistinctPairs(ps') by {
        assert forall i :: 0 <= i < |ps'| ==> ps'[i] == ps[i];
      }
      MergeIfPresent(Reduce(g, ps'), ps[|ps| - 1].0, ps[|ps| - 1].1)
  }

  /** The last turn of a pass. */
  lemma ReduceLast(g: Graph, ps: seq<(string, string)>)
    requires Valid(g) && DistinctPairs(ps) && ps != []
    ensures DistinctPairs(ps[..|ps| - 1])
    ensures Reduce(g, ps) == MergeIfPresent(Reduce(g, ps[..|ps| - 1]), ps[|ps| - 1].0, ps[|ps| - 1].1)
  {
  }

  /** Turn `k` of a pass, as a step from the first `k` pairs to the first
      `k + 1`. */
  lemma ReduceStep(g: Graph, ps: seq<(string, string)>, k: nat)
    requires Valid(g) && DistinctPairs(ps) && k < |ps|
    ensures DistinctPairs(ps[..k]) && DistinctPairs(ps[..k + 1])
    ensures ps[k].0 != ps[k].1
    ensures Reduce(g, ps[..k + 1]) == MergeIfPresent(Reduce(g, ps[..k]), ps[k].0, ps[k].1)
  {
    assert ps[..k + 1][..k] == ps[..k];
    assert forall i :: 0 <= i <= k ==> ps[..k + 1][i] == ps[i];
    ReduceLast(g, ps[..k + 1]);
  }

  /** What the pass does to the room map alone: a turn deletes no room
      but its second, and never its first. */
  function MergedRoomsIfPresent(rooms: map<string, Room>, a: string, b: string): (r: map<string, Room>)
    requires a != b
    ensures r.Keys <= rooms.Keys && rooms.Keys - {b} <= r.Keys
  {
    if a in rooms && b in rooms then MergedRooms(rooms, a, b) else rooms
  }

  /** The room map after the pass: the pass never adds a room. */
  function ReduceRooms(rooms: map<string, Room>, ps: seq<(string, string)>): (r: map<string, Room>)
    requires DistinctPairs(ps)
    ensures r.Keys <= rooms.Keys
    decreases |ps|
  {
    if ps == [] then rooms
    else
      var ps' := ps[..|ps| - 1];
      assert DistinctPairs(ps') by {
        assert forall i :: 0 <= i < |ps'| ==> ps'[i] == ps[i];
      }
      MergedRoomsIfPresent(ReduceRooms(rooms, ps'), ps[|ps| - 1].0, ps[|ps| - 1].1)
  }

  /** The room map of a reduced building depends on the room map alone. */
  lemma {:induction false} ReduceProjectsRooms(g: Graph, ps: seq<(string, string)>)
    requires Valid(g) && DistinctPairs(ps)
    ensures Reduce(g, ps).rooms == ReduceRooms(g.rooms, ps)
    decreases |ps|
  {
    if ps != [] {
      var ps' := ps[..|ps| - 1];
      var a, b := ps[|ps| - 1].0, ps[|ps| - 1].1;
      ReduceLast(g, ps);
      ReduceProjectsRooms(g, ps');
      var prev := Reduce(g, ps');
      assert MergeIfPresent(prev, a, b).rooms == MergedRoomsIfPresent(prev.rooms, a, b);
    }
  }

  /** No room occurs in two pairs, nor twice in one pair. */
  predicate DisjointPairs(ps: seq<(string, string)>)
  {
    && DistinctPairs(ps)
    && forall i, j :: 0 <= i < j < |ps| ==>
         && ps[i].0 != ps[j].0 && ps[i].0 != ps[j].1
         && ps[i].1 != ps[j].0 && ps[i].1 != ps[j].1
  }

  /** The rooms that the pairs delete. */
  function Seconds(ps: seq<(string, string)>): set<string>
  {
    set i | 0 <= i < |ps| :: ps[i].1
  }

  /** `x` is the first room of none of the pairs. */
  predicate NeverFirst(ps: seq<(string, string)>, x: string)
  {
    forall i :: 0 <= i < |ps| ==> ps[i].0 != x
  }

  /** Every pair names two rooms of the map. */
  predicate PairsIn(ps: seq<(string, string)>, rooms: map<string, Room>)
  {
    forall i :: 0 <= i < |ps| ==> ps[i].0 in rooms && ps[i].1 in rooms
  }

  /** The pairs before the last one. */
  lemma PrefixPairs(ps: seq<(string, string)>, rooms: map<string, Room>)
    requires ps != []
    ensures DistinctPairs(ps) ==> DistinctPairs(ps[..|ps| - 1])
    ensures DisjointPairs(ps) ==> DisjointPairs(ps[..|ps| - 1])
    ensures PairsIn(ps, rooms) ==> PairsIn(ps[..|ps| - 1], rooms)
    ensures forall x :: NeverFirst(ps, x) ==> NeverFirst(ps[..|ps| - 1], x)
    ensures forall i :: 0 <= i < |ps| - 1 ==> ps[..|ps| - 1][i] == ps[i]
  {
  }

  /** The last pair of a disjoint list against the rooms the ones before it
      delete. */
  lemma SecondsLast(ps: seq<(string, string)>)
    requires DisjointPairs(ps) && ps != []
    ensures ps[|ps| - 1].0 !in Seconds(ps[..|ps| - 1])
    ensures ps[|ps| - 1].1 !in Seconds(ps[..|ps| - 1])
    ensures NeverFirst(ps[..|ps| - 1], ps[|ps| - 1].0)
    ensures NeverFirst(ps[..|ps| - 1], ps[|ps| - 1].1)
    ensures Seconds(ps) == Seconds(ps[..|ps| - 1]) + {ps[|ps| - 1].1}
  {
    var ps' := ps[..|ps| - 1];
    assert forall i :: 0 <= i < |ps'| ==> ps'[i] == ps[i];
  }

  lemma {:induction false} RoomsLeaveOthers(rooms: map<string, Room>, ps: seq<(string, string)>, x: string)
    requires DistinctPairs(ps) && NeverFirst(ps, x) && x in ReduceRooms(rooms, ps)
    ensures x in rooms && ReduceRooms(rooms, ps)[x] == rooms[x]
    decreases |ps|
  {
    if ps != [] {
      PrefixPairs(ps, rooms);
      RoomsLeaveOthers(rooms, ps[..|ps| - 1], x);
    }
  }

  lemma SetStep(k: set<string>, s: set<string>, b: string, p: set<string>, x: set<string>, t: set<string>)
    requires p == k - s && x == p - {b} && t == s + {b}
    ensures x == k - t
  {
  }

  lemma {:induction false} RoomsDisjoint(rooms: map<string, Room>, ps: seq<(string, string)>)
    requires DisjointPairs(ps) && PairsIn(ps, rooms)
    ensures ReduceRooms(rooms, ps).Keys == rooms.Keys - Seconds(ps)
    ensures |ReduceRooms(rooms, ps)| == |rooms| - |ps|
    decreases |ps|
  {
    if ps != [] {
      var ps' := ps[..|ps| - 1];
      var b := ps[|ps| - 1].1;
      PrefixPairs(ps, rooms);
      SecondsLast(ps);
      RoomsDisjoint(rooms, ps');
      SetStep(rooms.Keys, Seconds(ps'), b, ReduceRooms(rooms, ps').Keys, ReduceRooms(rooms, ps).Keys, Seconds(ps));
    }
  }

  lemma {:induction false} RoomsDisjointNoise(rooms: map<string, Room>, ps: seq<(string, string)>, k: nat)
    requires DisjointPairs(ps) && PairsIn(ps, rooms) && k < |ps|
    ensures ps[k].0 in ReduceRooms(rooms, ps)
    ensures ReduceRooms(rooms, ps)[ps[k].0].noise == Average(rooms[ps[k].0].noise, rooms[ps[k].1].noise)
    decreases |ps|
  {
    var n := |ps| - 1;
    if k < n {
      var ps' := ps[..n];
      PrefixPairs(ps, rooms);
      assert ps'[k] == ps[k];
      RoomsDisjointNoise(rooms, ps', k);
      assert ps[k].0 != ps[n].1;
    } else {
      RoomsDisjointLast(rooms, ps);
    }
  }

  lemma RoomsDisjointLast(rooms: map<string, Room>, ps: seq<(string, string)>)
    requires DisjointPairs(ps) && PairsIn(ps, rooms) && ps != []
    ensures ps[|ps| - 1].0 in ReduceRooms(rooms, ps)
    ensures ReduceRooms(rooms, ps)[ps[|ps| - 1].0].noise
              == Average(rooms[ps[|ps| - 1].0].noise, rooms[ps[|ps| - 1].1].noise)
  {
    var ps' := ps[..|ps| - 1];
    var a, b := ps[|ps| - 1].0, ps[|ps| - 1].1;
    PrefixPairs(ps, rooms);
    SecondsLast(ps);
    RoomsDisjoint(rooms, ps');
    RoomsLeaveOthers(rooms, ps', a);
    RoomsLeaveOthers(rooms, ps', b);
  }

  /** The pass never adds a room. */
  lemma ReduceShrinks(g: Graph, ps: seq<(string, string)>)
    requires Valid(g) && DistinctPairs(ps)
    ensures Reduce(g, ps).rooms.Keys <= g.rooms.Keys
  {
    ReduceProjectsRooms(g, ps);
  }

  /** A room that is never the first of a pair keeps its attributes through
      the whole pass, if it survives. */
  lemma ReduceLeavesOthers(g: Graph, ps: seq<(string, string)>, x: string)
    requires Valid(g) && DistinctPairs(ps)
    requires x in Reduce(g, ps).rooms && NeverFirst(ps, x)
    ensures x in g.rooms && Reduce(g, ps).rooms[x] == g.rooms[x]
  {
    ReduceProjectsRooms(g, ps);
    RoomsLeaveOthers(g.rooms, ps, x);
  }

  /** A pass over pairs that share no room merges every pair: exactly the
      second rooms disappear, the room count falls by the number of pairs,
      and the first room of each pair ends with the average noise of its
      pair. */
  lemma ReduceDisjoint(g: Graph, ps: seq<(string, string)>)
    requires Valid(g) && DisjointPairs(ps) && PairsIn(ps, g.rooms)
    ensures Reduce(g, ps).rooms.Keys == g.rooms.Keys - Seconds(ps)
    ensures |Reduce(g, ps).rooms| == |g.rooms| - |ps|
    ensures forall k :: 0 <= k < |ps| ==>
              && ps[k].0 in Reduce(g, ps).rooms
              && Reduce(g, ps).rooms[ps[k].0].noise == Average(g.rooms[ps[k].0].noise, g.rooms[ps[k].1].noise)
  {
    ReduceProjectsRooms(g, ps);
    RoomsDisjoint(g.rooms, ps);
    forall k | 0 <= k < |ps|
      ensures ps[k].0 in ReduceRooms(g.rooms, ps)
      ensures ReduceRooms(g.rooms, ps)[ps[k].0].noise == Average(g.rooms[ps[k].0].noise, g.rooms[ps[k].1].noise)
    {
      RoomsDisjointNoise(g.rooms, ps, k);
    }
  }
}
