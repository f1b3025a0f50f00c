/** The noise report: one reading per room in name order, the mean and the
    maximum of the readings, and the state of each reading against the
    limits of its room's category. */
module Report {
  import opened Rooms
  import opened Graphs
  import opened Propagation

  /** The three states of a reading: above the exceeded limit, above the
      near limit, or neither. */
  datatype Verdict = Exceeds | Near | Adequate

  /** A reading: the room's name and the level it measured. */
  datatype Reading = Reading(name: string, level: real)

  /** One line of the report. */
  datatype Entry = Entry(name: string, level: real, verdict: Verdict)

  /** The state of a level. Both comparisons are strict, so a level equal
      to a threshold falls to the lower state. */
  function Classify(level: real, l: Limits): (v: Verdict)
    requires l.near < l.exceeded
    ensures v == Exceeds <==> level > l.exceeded as real
    ensures v == Near <==> l.near as real < level <= l.exceeded as real
    ensures v == Adequate <==> level <= l.near as real
  {
    if level > l.exceeded as real then Exceeds
    else if level > l.near as real then Near
    else Adequate
  }

  /** Severity of a state, for comparing states. */
  function Severity(v: Verdict): nat
  {
    match v
    case Adequate => 0
    case Near => 1
    case Exceeds => 2
  }

  /** A louder reading never gets a milder state. */
  lemma ClassifyMonotone(x: real, y: real, l: Limits)
    requires l.near < l.exceeded && x <= y
    ensures Severity(Classify(x, l)) <= Severity(Classify(y, l))
  {
  }

  /** The thresholds themselves fall to the lower state. */
  lemma ClassifyBoundaries(kind: string)
    ensures Classify(NoiseLimits(kind).exceeded as real, NoiseLimits(kind)) == Near
    ensures Classify(NoiseLimits(kind).near as real, NoiseLimits(kind)) == Adequate
  {
  }

  /** The state of a reading of a room of category `kind`. */
  function Judge(kind: string, level: real): (v: Verdict)
    ensures v == Exceeds <==> level > NoiseLimits(kind).exceeded as real
    ensures v == Near <==> NoiseLimits(kind).near as real < level <= NoiseLimits(kind).exceeded as real
    ensures v == Adequate <==> level <= NoiseLimits(kind).near as real
  {
    Classify(level, NoiseLimits(kind))
  }

  /** Every name of the name order is a room that can be measured. */
  ghost predicate Readable(g: Graph)
  {
    forall n :: n in g.names ==> Measurable(g, n)
  }

  lemma ValidReadable(g: Graph)
    requires Valid(g)
    ensures Readable(g)
  {
    forall n | n in g.names ensures Measurable(g, n) {
      ValidMeasurable(g, n);
    }
  }

  /** The readings of the rooms of the name order, in that order: the i-th
      reading is the level the i-th room measures. */
  function Readings(g: Graph, decay: nat -> real): (rs: seq<Reading>)
    requires Readable(g) && PositiveDecay(decay)
    ensures |rs| == |g.names|
    ensures forall i :: 0 <= i < |rs| ==> rs[i].name == g.names[i] && rs[i].name in g.rooms
  {
    assert forall i :: 0 <= i < |g.names| ==> g.names[i] in g.names;
    seq(|g.names|, i requires 0 <= i < |g.names| =>
      Reading(g.names[i], Level(g, g.names[i], decay)))
  }

  /** Every room has exactly one reading, and it is the level the room
      measures. */
  lemma ReadingOfEachRoom(g: Graph, decay: nat -> real, n: string)
    requires Valid(g) && Readable(g) && PositiveDecay(decay) && n in g.rooms
    ensures |Readings(g, decay)| == |g.rooms|
    ensures exists i :: 0 <= i < |Readings(g, decay)| && Readings(g, decay)[i] == Reading(n, Level(g, n, decay))
    ensures forall i, j :: 0 <= i < j < |Readings(g, decay)| ==> Readings(g, decay)[i].name != Readings(g, decay)[j].name
  {
    NamesCount(g);
    assert n in g.names;
    var i :| 0 <= i < |g.names| && g.names[i] == n;
    assert Readings(g, decay)[i] == Reading(n, Level(g, n, decay));
  }

  /** The name order lists each room once, so it is as long as the room map. */
  lemma NamesCount(g: Graph)
    requires Valid(g)
    ensures |g.names| == |g.rooms|
  {
    NoDupsCard(g.names);
    assert (set n | n in g.names) == g.rooms.Keys;
  }

  lemma {:induction false} NoDupsCard(s: seq<string>)
    requires NoDups(s)
    ensures |set n | n in s| == |s|
    decreases |s|
  {
    if s != [] {
      var s' := s[..|s| - 1];
      assert NoDups(s') by {
        forall i, j | 0 <= i < j < |s'| ensures s'[i] != s'[j] {
          assert s'[i] == s[i] && s'[j] == s[j];
        }
      }
      NoDupsCard(s');
      assert s == s' + [s[|s| - 1]];
      assert (set n | n in s) == (set n | n in s') + {s[|s| - 1]};
      assert s[|s| - 1] !in s' by {
        forall i | 0 <= i < |s'| ensures s'[i] != s[|s| - 1] {
          assert s'[i] == s[i];
        }
      }
    }
  }

  /** The levels of the readings, in order. */
  function Levels(rs: seq<Reading>): (xs: seq<real>)
    ensures |xs| == |rs|
    ensures forall i :: 0 <= i < |rs| ==> xs[i] == rs[i].level
  {
    seq(|rs|, i requires 0 <= i < |rs| => rs[i].level)
  }

  /** The sum of the levels, in order; a single level sums to itself. */
  function Sum(xs: seq<real>): (s: real)
    ensures |xs| == 1 ==> s == xs[0]
    decreases |xs|
  {
    if xs == [] then 0.0 else Sum(xs[..|xs| - 1]) + xs[|xs| - 1]
  }

  /** The mean level; no readings give 0. */
  function Mean(xs: seq<real>): (m: real)
    ensures xs == [] ==> m == 0.0
    ensures xs != [] ==> m * |xs| as real == Sum(xs)
  {
    if xs == [] then 0.0 else Sum(xs) / |xs| as real
  }

  /** The largest level; no readings give 0. */
  function MaxOf(xs: seq<real>): (m: real)
    ensures xs == [] ==> m == 0.0
    ensures xs != [] ==> m in xs
    ensures forall i :: 0 <= i < |xs| ==> xs[i] <= m
    decreases |xs|
  {
    if |xs| == 0 then 0.0
    else if |xs| == 1 then xs[0]
    else
      var prev := MaxOf(xs[..|xs| - 1]);
      assert forall i :: 0 <= i < |xs| - 1 ==> xs[..|xs| - 1][i] == xs[i];
      if xs[|xs| - 1] > prev then xs[|xs| - 1] else prev
  }

  /** A sum of levels none above `m` is at most their number times `m`,
      and one none below `m` at least that. */
  lemma SumBounds(xs: seq<real>, m: real)
    ensures (forall i :: 0 <= i < |xs| ==> xs[i] <= m) ==> Sum(xs) <= |xs| as real * m
    ensures (forall i :: 0 <= i < |xs| ==> m <= xs[i]) ==> |xs| as real * m <= Sum(xs)
  {
    if forall i :: 0 <= i < |xs| ==> xs[i] <= m {
      SumAtMost(xs, m);
    }
    if forall i :: 0 <= i < |xs| ==> m <= xs[i] {
      SumAtLeast(xs, m);
    }
  }

  lemma {:induction false} SumAtMost(xs: seq<real>, m: real)
    requires forall i :: 0 <= i < |xs| ==> xs[i] <= m
    ensures Sum(xs) <= |xs| as real * m
    decreases |xs|
  {
    if xs != [] {
      var xs' := xs[..|xs| - 1];
      assert forall i :: 0 <= i < |xs'| ==> xs'[i] == xs[i];
      SumAtMost(xs', m);
      assert |xs| as real * m == |xs'| as real * m + m;
    }
  }

  lemma {:induction false} SumAtLeast(xs: seq<real>, m: real)
    requires forall i :: 0 <= i < |xs| ==> m <= xs[i]
    ensures |xs| as real * m <= Sum(xs)
    decreases |xs|
  {
    if xs != [] {
      var xs' := xs[..|xs| - 1];
      assert forall i :: 0 <= i < |xs'| ==> xs'[i] == xs[i];
      SumAtLeast(xs', m);
      assert |xs| as real * m == |xs'| as real * m + m;
    }
  }

  /** The mean never exceeds the maximum. */
  lemma MeanAtMostMax(xs: seq<real>)
    ensures Mean(xs) <= MaxOf(xs)
  {
    if xs != [] {
      SumAtMost(xs, MaxOf(xs));
      QuotientAtMost(Sum(xs), |xs| as real, MaxOf(xs));
    }
  }

  lemma QuotientAtMost(s: real, n: real, m: real)
    requires n > 0.0 && s <= n * m
    ensures s / n <= m
  {
  }

  /** The report lines of the readings `rs`, in order. Every reading names a
      room, whose category gives the limits. */
  function ReportOf(rooms: map<string, Room>, rs: seq<Reading>): (es: seq<Entry>)
    requires forall i :: 0 <= i < |rs| ==> rs[i].name in rooms
    ensures |es| == |rs|
    ensures forall i :: 0 <= i < |rs| ==>
              es[i] == Entry(rs[i].name, rs[i].level, Judge(rooms[rs[i].name].kind, rs[i].level))
    decreases |rs|
  {
    if rs == [] then []
    else
      var rs' := rs[..|rs| - 1];
      assert forall i :: 0 <= i < |rs'| ==> rs'[i] == rs[i];
      var r := rs[|rs| - 1];
      ReportOf(rooms, rs') + [Entry(r.name, r.level, Judge(rooms[r.name].kind, r.level))]
  }
}
