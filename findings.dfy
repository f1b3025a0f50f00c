/** Two buildings on which the reduction pass as written goes wrong, and
    the general pair patterns behind them. */
module Findings {
  import opened Rooms
  import opened Graphs
  import opened Reduction
  import opened ReductionAsWritten

  lemma LettersDistinct()
    ensures "A" != "B" && "A" != "C" && "A" != "D"
    ensures "B" != "C" && "B" != "D" && "C" != "D"
  {
    assert "A"[0] != "B"[0] && "A"[0] != "C"[0] && "A"[0] != "D"[0];
    assert "B"[0] != "C"[0] && "B"[0] != "D"[0] && "C"[0] != "D"[0];
  }

  /** The rooms left after the first of two pairs. */
  lemma TwoPairsRoomMap(rooms: map<string, Room>, p: (string, string), q: (string, string))
    requires p.0 in rooms && p.1 in rooms && p.0 != p.1 && q.0 != q.1
    ensures DistinctPairs([p, q])
    ensures FirstFault(rooms, [p]) == None
    ensures ReduceRooms(rooms, [p]) == MergedRooms(rooms, p.0, p.1)
    ensures ReduceRooms(rooms, [p, q]) == MergedRoomsIfPresent(MergedRooms(rooms, p.0, p.1), q.0, q.1)
  {
    var ps := [p, q];
    assert ps[..1] == [p] && ps[..1][..0] == [];
    assert ReduceRooms(rooms, ps[..1]) == MergedRooms(rooms, p.0, p.1);
  }

  /** Two pairs that delete the same room: the pass as written raises on the
      second pair, while the corrected pass deletes the room once. */
  lemma SharedSecond(rooms: map<string, Room>, a: string, b: string, c: string)
    requires a in rooms && b in rooms && c in rooms && a != b && a != c && b != c
    ensures DistinctPairs([(a, c), (b, c)])
    ensures FirstFault(rooms, [(a, c), (b, c)]) == Some(SecondAlreadyRemoved(c))
    ensures ReduceRooms(rooms, [(a, c), (b, c)]).Keys == rooms.Keys - {c}
  {
    TwoPairsRoomMap(rooms, (a, c), (b, c));
    assert [(a, c), (b, c)][..1] == [(a, c)];
  }

  /** A pair whose first room an earlier pair deleted: the pass as written
      merges into the deleted room, while the corrected pass skips the pair. */
  lemma DeletedFirst(rooms: map<string, Room>, a: string, b: string, c: string)
    requires a in rooms && b in rooms && c in rooms && a != b && a != c && b != c
    ensures DistinctPairs([(a, b), (b, c)])
    ensures FirstFault(rooms, [(a, b), (b, c)]) == Some(FirstAlreadyRemoved(b))
    ensures ReduceRooms(rooms, [(a, b), (b, c)]).Keys == rooms.Keys - {b}
  {
    TwoPairsRoomMap(rooms, (a, b), (b, c));
    assert [(a, b), (b, c)][..1] == [(a, b)];
  }

  function Office(x: int): Room
  {
    Room("oficina", true, 50.0, Pos(x, 0, 0), 1, true)
  }

  /** Two offices 4 units apart, each 2 units from a third office between
      them and linked to it. */
  function Chain(): Graph
  {
    Graph(map["A" := Office(0), "B" := Office(4), "C" := Office(2)],
          map["A" := ["C"], "B" := ["C"], "C" := ["A", "B"]],
          map["A" := Pos(0, 0, 0), "B" := Pos(4, 0, 0), "C" := Pos(2, 0, 0)],
          ["A", "B", "C"])
  }

  lemma ChainValid()
    ensures Valid(Chain())
  {
    var g := Chain();
    LettersDistinct();
    assert g.rooms.Keys == {"A", "B", "C"};
    assert g.adj.Keys == g.rooms.Keys && g.pos.Keys == g.rooms.Keys;
    forall n | n in g.pos ensures g.pos[n] == g.rooms[n].pos {
      assert n == "A" || n == "B" || n == "C";
    }
    assert NoDups(g.names);
    ChainAdjValid();
  }

  lemma ChainAdjValid()
    ensures AdjValid(Chain().adj)
  {
    var adj := Chain().adj;
    LettersDistinct();
    forall x | x in adj
      ensures NoDups(adj[x]) && forall y :: y in adj[x] ==> y != x && y in adj && x in adj[y]
    {
      assert x == "A" || x == "B" || x == "C";
    }
  }

  lemma ChainCriteria()
    ensures !IsCandidate(Chain(), "A", "B") && IsCandidate(Chain(), "A", "C") && IsCandidate(Chain(), "B", "C")
  {
  }

  lemma ChainCandidates()
    ensures NamesInRooms(Chain())
    ensures Candidates(Chain()) == [("A", "C"), ("B", "C")]
  {
    var g := Chain();
    ChainValid();
    ValidNamesInRooms(g);
    ChainCriteria();
    assert CandidateRow(g, 0, 3) == [("A", "C")];
    assert CandidateRow(g, 1, 3) == [("B", "C")];
    assert CandidateRow(g, 2, 3) == [];
    assert CandidateRows(g, 1) == CandidateRow(g, 0, 3);
    assert CandidateRows(g, 2) == CandidateRows(g, 1) + CandidateRow(g, 1, 3);
  }

  /** The chain: the pass as written raises on the stale middle office; the
      corrected pass keeps the two outer offices. */
  lemma ChainAsWritten(g: Graph)
    requires g == Chain()
    ensures Valid(g) && NamesInRooms(g)
    ensures DistinctPairs(Candidates(g)) && PairsIn(Candidates(g), g.rooms)
    ensures ReduceAsWritten(g, Candidates(g)) == Stopped(SecondAlreadyRemoved("C"))
  {
    ChainValid();
    ChainCandidates();
    CandidatesDistinct(g);
    LettersDistinct();
    SharedSecond(g.rooms, "A", "B", "C");
    AsWrittenCharacterized(g, Candidates(g));
  }

  lemma ChainCorrected(g: Graph)
    requires g == Chain()
    ensures Valid(g) && NamesInRooms(g) && DistinctPairs(Candidates(g))
    ensures Reduce(g, Candidates(g)).rooms.Keys == {"A", "B"}
  {
    ChainValid();
    ChainCandidates();
    CandidatesDistinct(g);
    LettersDistinct();
    SharedSecond(g.rooms, "A", "B", "C");
    ReduceProjectsRooms(g, Candidates(g));
  }

  function Classroom(x: int): Room
  {
    Room("aula", true, 60.0, Pos(x, 0, 0), 1, true)
  }

  /** Three classrooms in a row, 2 units apart, the first two linked, and a
      corridor linked to the third. */
  function Row(): Graph
  {
    Graph(map["A" := Classroom(0), "B" := Classroom(2), "C" := Classroom(4),
              "D" := Room("pasillo", false, 40.0, Pos(10, 0, 0), 1, true)],
          map["A" := ["B"], "B" := ["A"], "C" := ["D"], "D" := ["C"]],
          map["A" := Pos(0, 0, 0), "B" := Pos(2, 0, 0), "C" := Pos(4, 0, 0), "D" := Pos(10, 0, 0)],
          ["A", "B", "C", "D"])
  }

  lemma RowValid()
    ensures Valid(Row())
  {
    var g := Row();
    LettersDistinct();
    assert g.rooms.Keys == {"A", "B", "C", "D"};
    assert g.adj.Keys == g.rooms.Keys && g.pos.Keys == g.rooms.Keys;
    forall n | n in g.pos ensures g.pos[n] == g.rooms[n].pos {
      assert n == "A" || n == "B" || n == "C" || n == "D";
    }
    assert NoDups(g.names);
    RowAdjValid();
  }

  lemma RowAdjValid()
    ensures AdjValid(Row().adj)
  {
    var adj := Row().adj;
    LettersDistinct();
    forall x | x in adj
      ensures NoDups(adj[x]) && forall y :: y in adj[x] ==> y != x && y in adj && x in adj[y]
    {
      assert x == "A" || x == "B" || x == "C" || x == "D";
    }
  }

  lemma RowCriteria()
    ensures IsCandidate(Row(), "A", "B") && !IsCandidate(Row(), "A", "C") && !IsCandidate(Row(), "A", "D")
    ensures IsCandidate(Row(), "B", "C") && !IsCandidate(Row(), "B", "D") && !IsCandidate(Row(), "C", "D")
  {
  }

  lemma RowCandidates()
    ensures NamesInRooms(Row())
    ensures Candidates(Row()) == [("A", "B"), ("B", "C")]
  {
    var g := Row();
    RowCandidateRows();
    assert CandidateRows(g, 1) == CandidateRow(g, 0, 4);
    assert CandidateRows(g, 2) == CandidateRows(g, 1) + CandidateRow(g, 1, 4);
    assert CandidateRows(g, 3) == CandidateRows(g, 2) + CandidateRow(g, 2, 4);
  }

  /** The candidate row of each classroom and of the corridor. */
  lemma RowCandidateRows()
    ensures NamesInRooms(Row())
    ensures CandidateRow(Row(), 0, 4) == [("A", "B")] && CandidateRow(Row(), 1, 4) == [("B", "C")]
    ensures CandidateRow(Row(), 2, 4) == [] && CandidateRow(Row(), 3, 4) == []
  {
    var g := Row();
    RowValid();
    ValidNamesInRooms(g);
    LettersDistinct();
    RowCriteria();
    assert CandidateRow(g, 0, 4) == [("A", "B")];
    assert CandidateRow(g, 1, 4) == [("B", "C")];
  }

  /** The row: the pass as written reaches pair (B, C) with B deleted, where
      the source would merge the third classroom into it; the model stops
      there. The corrected pass keeps the third classroom. */
  lemma RowAsWritten(g: Graph)
    requires g == Row()
    ensures Valid(g) && NamesInRooms(g)
    ensures DistinctPairs(Candidates(g)) && PairsIn(Candidates(g), g.rooms)
    ensures ReduceAsWritten(g, Candidates(g)) == Stopped(FirstAlreadyRemoved("B"))
  {
    RowValid();
    RowCandidates();
    CandidatesDistinct(g);
    LettersDistinct();
    DeletedFirst(g.rooms, "A", "B", "C");
    AsWrittenCharacterized(g, Candidates(g));
  }

  lemma RowCorrected(g: Graph)
    requires g == Row()
    ensures Valid(g) && NamesInRooms(g) && DistinctPairs(Candidates(g))
    ensures Reduce(g, Candidates(g)).rooms.Keys == {"A", "C", "D"}
  {
    RowValid();
    RowCandidates();
    CandidatesDistinct(g);
    LettersDistinct();
    DeletedFirst(g.rooms, "A", "B", "C");
    ReduceProjectsRooms(g, Candidates(g));
  }
}
