/** The building as a value: rooms by name, the neighbour list of each room
    (adjacency is kept by name, beside the rooms rather than inside them),
    the fixed position map, and the insertion order of the room names. */
module Graphs {
  import opened Rooms

  type Adjacency = map<string, seq<string>>

  /** `names` is the key order of the room map (a dictionary iterates its
      keys in insertion order); `pos` is the separate position map that the
      building keeps beside the rooms. */
  datatype Graph = Graph(rooms: map<string, Room>, adj: Adjacency, pos: map<string, Pos>, names: seq<string>)

  predicate NoDups(s: seq<string>)
  {
    forall i, j :: 0 <= i < j < |s| ==> s[i] != s[j]
  }

  /** Neighbour lists without repeats, self-loops or dangling names, and
      symmetric: whenever x lists y, y lists x. */
  ghost predicate AdjValid(adj: Adjacency)
  {
    forall x :: x in adj ==>
      NoDups(adj[x]) && forall y :: y in adj[x] ==> y != x && y in adj && x in adj[y]
  }

  /** The building invariant: the room, adjacency and position maps have the
      same names, positions agree with the rooms' own, the name order lists
      each room exactly once, and adjacency is valid. */
  ghost predicate Valid(g: Graph)
  {
    && g.adj.Keys == g.rooms.Keys
    && g.pos.Keys == g.rooms.Keys
    && (forall n :: n in g.pos ==> g.pos[n] == g.rooms[n].pos)
    && NoDups(g.names)
    && (forall n :: n in g.names <==> n in g.rooms)
    && AdjValid(g.adj)
  }

  /** Every name of the insertion order denotes a room. */
  ghost predicate NamesInRooms(g: Graph)
  {
    forall i :: 0 <= i < |g.names| ==> g.names[i] in g.rooms
  }

  lemma ValidNamesInRooms(g: Graph)
    requires Valid(g)
    ensures NamesInRooms(g)
  {
    forall i | 0 <= i < |g.names| ensures g.names[i] in g.rooms {
      assert g.names[i] in g.names;
    }
  }

  /** List removal of the first occurrence of `x`; a list without `x` is
      returned as it is. */
  function RemoveFirst(s: seq<string>, x: string): (r: seq<string>)
    ensures x !in s ==> r == s
    ensures x in s ==> |r| == |s| - 1
    ensures forall y :: y != x ==> (y in r <==> y in s)
    ensures NoDups(s) ==> NoDups(r) && x !in r
  {
    if s == [] then []
    else
      NoDupsSplit(s);
      if s[0] == x then s[1..]
      else
        var rest := RemoveFirst(s[1..], x);
        NoDupsPrepend(s[0], rest);
        [s[0]] + rest
  }

  /** The removal cuts out the first occurrence of `x` and keeps the order
      of everything else. */
  lemma RemoveFirstCuts(s: seq<string>, x: string)
    ensures x in s ==> exists i :: 0 <= i < |s| && s[i] == x && (forall k :: 0 <= k < i ==> s[k] != x) &&
                                   RemoveFirst(s, x) == s[..i] + s[i + 1..]
  {
    if x in s {
      var i := FirstOccurrence(s, x);
      RemoveFirstAt(s, x, i);
    }
  }

  /** The index of the first occurrence of `x`. */
  lemma {:induction false} FirstOccurrence(s: seq<string>, x: string) returns (i: nat)
    requires x in s
    ensures i < |s| && s[i] == x && forall k :: 0 <= k < i ==> s[k] != x
  {
    if s[0] == x {
      i := 0;
    } else {
      assert s == [s[0]] + s[1..];
      var j := FirstOccurrence(s[1..], x);
      i := j + 1;
    }
  }

  /** The removal cuts at the first occurrence of `x`. */
  lemma {:induction false} RemoveFirstAt(s: seq<string>, x: string, i: nat)
    requires i < |s| && s[i] == x && forall k :: 0 <= k < i ==> s[k] != x
    ensures RemoveFirst(s, x) == s[..i] + s[i + 1..]
    decreases i
  {
    if i == 0 {
      assert s[..0] + s[1..] == s[1..];
    } else {
      var t := s[1..];
      assert s[0] != x;
      RemoveFirstAt(t, x, i - 1);
      assert s[..i] == [s[0]] + t[..i - 1];
      assert s[i + 1..] == t[i..];
    }
  }

  /** Splitting a list without repeats into its head and tail. */
  lemma NoDupsSplit(s: seq<string>)
    requires s != []
    ensures s == [s[0]] + s[1..]
    ensures NoDups(s) <==> NoDups(s[1..]) && s[0] !in s[1..]
  {
    if NoDups(s) {
      forall k | 0 <= k < |s[1..]| ensures s[1..][k] != s[0] {
        assert s[1..][k] == s[k + 1];
      }
    }
  }

  lemma NoDupsPrepend(h: string, t: seq<string>)
    ensures NoDups(t) && h !in t ==> NoDups([h] + t)
  {
    NoDupsSplit([h] + t);
    assert ([h] + t)[1..] == t;
  }

  lemma NoDupsAppend(s: seq<string>, x: string)
    ensures NoDups(s) && x !in s ==> NoDups(s + [x])
  {
    forall i, j | NoDups(s) && x !in s && 0 <= i < j < |s + [x]| ensures (s + [x])[i] != (s + [x])[j] {
      if j == |s| {
        assert (s + [x])[i] == s[i];
      } else {
        assert (s + [x])[i] == s[i] && (s + [x])[j] == s[j];
      }
    }
  }

  /** Connecting `a` to `c`: if `c` is not yet a neighbour of `a`, append it
      to `a`'s list and then append `a` to `c`'s list unless `c` already
      lists it. */
  function ConnectAdj(adj: Adjacency, a: string, c: string): (r: Adjacency)
    requires a in adj && c in adj
    ensures r.Keys == adj.Keys
    ensures c in r[a]
    ensures forall x :: x in adj && x != a && x != c ==> r[x] == adj[x]
  {
    if c in adj[a] then adj
    else
      var adj' := adj[a := adj[a] + [c]];
      if a in adj'[c] then adj'
      else adj'[c := adj'[c] + [a]]
  }

  /** On a valid adjacency, connecting two distinct rooms links them both
      ways, keeps the adjacency valid and adds no other link. */
  lemma ConnectSymmetric(adj: Adjacency, a: string, c: string)
    requires AdjValid(adj) && a in adj && c in adj && a != c
    ensures AdjValid(ConnectAdj(adj, a, c))
    ensures c in ConnectAdj(adj, a, c)[a] && a in ConnectAdj(adj, a, c)[c]
    ensures forall x, y :: x in adj ==>
      (y in ConnectAdj(adj, a, c)[x] <==> y in adj[x] || (x == a && y == c) || (x == c && y == a))
  {
    var r := ConnectAdj(adj, a, c);
    if c !in adj[a] {
      assert a !in adj[c];
      NoDupsAppend(adj[a], c);
      NoDupsAppend(adj[c], a);
      assert r == adj[a := adj[a] + [c]][c := adj[c] + [a]];
    }
  }

  /** Connecting two distinct rooms of a valid building keeps it valid. */
  lemma ConnectKeepsValid(g: Graph, a: string, c: string)
    requires Valid(g) && a in g.rooms && c in g.rooms && a != c
    ensures Valid(g.(adj := ConnectAdj(g.adj, a, c)))
  {
    ConnectSymmetric(g.adj, a, c);
  }

  /** Connecting twice has no further effect. */
  lemma ConnectIdempotent(adj: Adjacency, a: string, c: string)
    requires a in adj && c in adj
    ensures ConnectAdj(ConnectAdj(adj, a, c), a, c) == ConnectAdj(adj, a, c)
  {
  }

  /** On a valid adjacency, connecting back in the other direction has no
      further effect either. */
  lemma ConnectConverse(adj: Adjacency, a: string, c: string)
    requires AdjValid(adj) && a in adj && c in adj && a != c
    ensures ConnectAdj(ConnectAdj(adj, a, c), c, a) == ConnectAdj(adj, a, c)
  {
    ConnectSymmetric(adj, a, c);
  }
}
