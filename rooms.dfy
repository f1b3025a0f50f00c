/** Rooms of the building: the attributes a room carries, the distance
    between two rooms, the noise limits of each room category and the
    fixed-reading sensors attached to rooms. */
module Rooms {

  datatype Option<T> = None | Some(value: T)

  /** A position in building units. Every position of the building layout
      is integral, so distances can be compared through their squares. */
  datatype Pos = Pos(x: int, y: int, z: int)

  /** A room, i.e. a node of the noise graph. The building stores each room
      under its name, so the name is the map key rather than a field.
      `kind` is the category used for the limit lookup, `wall` says whether
      the room has walls that absorb propagated noise, `noise` is its
      intrinsic level in dB and `source` whether it emits that level itself. */
  datatype Room = Room(kind: string, wall: bool, noise: real, pos: Pos, floor: int, source: bool)

  /** Square of the Euclidean distance between two positions. The distance
      of the system is its square root; the root is monotone and zero only
      at zero, so "distance == 0" is "SqDist == 0" and "distance <= 2.0" is
      "SqDist <= 4". */
  function SqDist(p: Pos, q: Pos): (d: nat)
    ensures d == 0 <==> p == q
  {
    var dx, dy, dz := q.x - p.x, q.y - p.y, q.z - p.z;
    assert dx * dx >= 0 && dy * dy >= 0 && dz * dz >= 0;
    assert dx != 0 ==> dx * dx > 0;
    assert dy != 0 ==> dy * dy > 0;
    assert dz != 0 ==> dz * dz > 0;
    dx * dx + dy * dy + dz * dz
  }

  /** Distance does not depend on which room is asked. */
  lemma SqDistSymmetric(p: Pos, q: Pos)
    ensures SqDist(p, q) == SqDist(q, p)
  {
    var dx, dy, dz := q.x - p.x, q.y - p.y, q.z - p.z;
    assert (-dx) * (-dx) == dx * dx;
    assert (-dy) * (-dy) == dy * dy;
    assert (-dz) * (-dz) == dz * dz;
  }

  /** The three thresholds of a category, in dB. */
  datatype Limits = Limits(adequate: int, near: int, exceeded: int)

  /** Thresholds of the room categories the building knows about. */
  const LimitTable: map<string, Limits> := map[
    "aula" := Limits(55, 60, 65),
    "pasillo" := Limits(45, 50, 55),
    "biblioteca" := Limits(35, 40, 45),
    "auditorio" := Limits(60, 65, 70),
    "cafetería" := Limits(60, 65, 70),
    "laboratorio" := Limits(50, 55, 60),
    "oficina" := Limits(50, 55, 60),
    "reuniones" := Limits(50, 55, 60)
  ]

  /** Thresholds of a category that is not in the table. */
  const DefaultLimits: Limits := Limits(50, 55, 60)

  /** Limit lookup with a default: a known category yields its own triple,
      any other category the default (50, 55, 60); every triple rises
      strictly, in steps of 5 dB. */
  function NoiseLimits(kind: string): (l: Limits)
    ensures kind in LimitTable ==> l == LimitTable[kind]
    ensures kind !in LimitTable ==> l == Limits(50, 55, 60)
    ensures l.adequate < l.near < l.exceeded
    ensures l.near == l.adequate + 5 && l.exceeded == l.near + 5
  {
    if kind in LimitTable then LimitTable[kind] else DefaultLimits
  }

  /** A probe bound to a room; its reading is fixed when it is built. */
  datatype Sensor = Sensor(location: string, fixedReading: Option<real>)

  /** A probe without a fixed reading reads 0, otherwise its fixed reading. */
  function Read(s: Sensor): (r: real)
    ensures s.fixedReading.None? ==> r == 0.0
    ensures s.fixedReading.Some? ==> r == s.fixedReading.value
  {
    match s.fixedReading
    case Some(v) => v
    case None => 0.0
  }
}
