/**
 The robot roster (`spawn_robots`): five robots with ids 1 to 5, each of the
 kind `id % 3` selects, named by its kind followed by its id, with 100 maximum
 health points and speed 1, at a random in-range start cell.
 */
module Robots {
  import opened Types
  import opened Decimal

  const RobotCount: nat := 5
  const PvMax: int := 100
  const Vitesse: int := 1

  /** The kind of robot `id`: 0 gives an explorer, 1 a collector, 2 a visitor. */
  function TypeFor(id: nat): (t: TypeRobot)
    ensures t == Explorateur <==> id % 3 == 0
    ensures t == Collecteur <==> id % 3 == 1
    ensures t == Visiteur <==> id % 3 == 2
  {
    match id % 3
    case 0 => Explorateur
    case 1 => Collecteur
    case _ => Visiteur
  }

  function Prefix(t: TypeRobot): string
  {
    match t
    case Explorateur => "Explorateur"
    case Collecteur => "Collecteur"
    case Visiteur => "Visiteur"
  }

  /** The name of robot `id`: its kind's prefix followed by the decimal id. */
  function NameFor(id: nat): string
  {
    Prefix(TypeFor(id)) + DecimalString(id)
  }

  /** The kind a name prefix stands for. */
  function KindOfPrefix(p: string): Option<TypeRobot>
  {
    if p == "Explorateur" then Some(Explorateur)
    else if p == "Collecteur" then Some(Collecteur)
    else if p == "Visiteur" then Some(Visiteur)
    else None
  }

  /** The index of the first digit of `s`, or `|s|` when it has none. */
  function FirstDigit(s: string): (k: nat)
    ensures k <= |s|
    ensures forall i :: 0 <= i < k ==> !IsDigit(s[i])
    ensures k < |s| ==> IsDigit(s[k])
  {
    if s == [] || IsDigit(s[0]) then 0 else 1 + FirstDigit(s[1..])
  }

  /** Splits a string before its first digit. */
  function SplitAtDigit(s: string): (r: (string, string))
    ensures r.0 + r.1 == s
    ensures forall i :: 0 <= i < |r.0| ==> !IsDigit(r.0[i])
    ensures r.1 != [] ==> IsDigit(r.1[0])
  {
    var k := FirstDigit(s);
    assert s[..k] + s[k..] == s;
    (s[..k], s[k..])
  }

  /** Reads a robot name back into its kind and id; `None` if it is not one. */
  function ParseName(s: string): Option<(TypeRobot, nat)>
  {
    var (p, d) := SplitAtDigit(s);
    if d == [] || exists i :: 0 <= i < |d| && !IsDigit(d[i]) then None
    else match KindOfPrefix(p)
      case None => None
      case Some(t) => Some((t, ParseDecimal(d)))
  }

  lemma SplitAtDigitAppend(p: string, d: string)
    requires forall i :: 0 <= i < |p| ==> !IsDigit(p[i])
    requires d != [] && IsDigit(d[0])
    ensures SplitAtDigit(p + d) == (p, d)
  {
    var k := FirstDigit(p + d);
    assert (p + d)[|p|] == d[0];
    assert forall i :: 0 <= i < |p| ==> (p + d)[i] == p[i];
    assert k == |p|;
    assert (p + d)[..k] == p && (p + d)[k..] == d;
  }

  /** A robot's name gives back its kind and its id. */
  lemma NameRoundTrip(id: nat)
    ensures ParseName(NameFor(id)) == Some((TypeFor(id), id))
  {
    var p := Prefix(TypeFor(id));
    var d := DecimalString(id);
    assert forall i :: 0 <= i < |p| ==> !IsDigit(p[i]);
    SplitAtDigitAppend(p, d);
    ParseDecimalString(id);
  }

  /** No two robots share a name. */
  lemma NamesDistinct(a: nat, b: nat)
    requires NameFor(a) == NameFor(b)
    ensures a == b
  {
    NameRoundTrip(a);
    NameRoundTrip(b);
  }

  /**
   The roster of `spawn_robots`: nothing when no map entity exists; otherwise
   robots 1 to 5 in id order, robot `i + 1` starting at `(xs[i], ys[i])`.
   */
  method SpawnRobots(carte: Option<Carte>, xs: seq<int>, ys: seq<int>) returns (spawned: seq<RobotEntity>)
    requires carte.Some? ==>
               |xs| == RobotCount && |ys| == RobotCount &&
               forall i :: 0 <= i < RobotCount ==> InRange(carte.value, Position(xs[i], ys[i]))
    ensures carte.None? ==> spawned == []
    ensures carte.Some? ==> |spawned| == RobotCount
    ensures carte.Some? ==> forall i :: 0 <= i < |spawned| ==>
              spawned[i].robot == Robot(i + 1, NameFor(i + 1), PvMax, TypeFor(i + 1), Vitesse) &&
              spawned[i].pos == Position(xs[i], ys[i]) &&
              InRange(carte.value, spawned[i].pos)
    ensures forall i :: 0 <= i < |spawned| ==> (IsCollector(spawned[i]) <==> i == 0 || i == 3)
    ensures forall i :: 0 <= i < |spawned| ==> (spawned[i].robot.typeRobot == Visiteur <==> i == 1 || i == 4)
    ensures forall i :: 0 <= i < |spawned| ==> (spawned[i].robot.typeRobot == Explorateur <==> i == 2)
  {
    spawned := [];
    if carte.Some? {
      for id := 1 to RobotCount + 1
        invariant |spawned| == id - 1
        invariant forall i :: 0 <= i < |spawned| ==>
                    spawned[i] == RobotEntity(Robot(i + 1, NameFor(i + 1), PvMax, TypeFor(i + 1), Vitesse),
                                              Position(xs[i], ys[i]))
      {
        var robotX := xs[id - 1];
        var robotY := ys[id - 1];
        var typeRobot := match id % 3
          case 0 => Explorateur
          case 1 => Collecteur
          case _ => Visiteur;
        var robotName := match typeRobot
          case Explorateur => "Explorateur" + DecimalString(id)
          case Collecteur => "Collecteur" + DecimalString(id)
          case Visiteur => "Visiteur" + DecimalString(id);
        spawned := spawned + [RobotEntity(Robot(id, robotName, PvMax, typeRobot, Vitesse), Position(robotX, robotY))];
      }
    }
  }
}
