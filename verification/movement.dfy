/**
 The movement step (`move_robots_on_map_system`, once its one-second timer
 fires): a robot standing on the map's centre cell stays where it is; every
 other robot moves one cell diagonally, wrapping around at the map's edges.
 */
module Movement {
  import opened Types

  /** Rust's `%` on `i32`: the remainder of division truncated toward zero. */
  function RustRem(a: int, b: int): (r: int)
    requires b > 0
    ensures a >= 0 ==> 0 <= r < b
    ensures a < 0 ==> -b < r <= 0
    ensures 0 <= a < b ==> r == a
    ensures a == b ==> r == 0
  {
    if a >= 0 then
      if a < b then ModUnique(a, b, 0, a); a % b
      else if a == b then ModUnique(a, b, 1, 0); a % b
      else a % b
    else -((-a) % b)
  }

  /** The cell the program treats as the base: `(largeur / 2, hauteur / 2)`. */
  function Center(carte: Carte): (c: Position)
    ensures carte.largeur > 0 && carte.hauteur > 0 ==> InRange(carte, c)
    ensures 2 * c.x <= carte.largeur < 2 * c.x + 2
    ensures 2 * c.y <= carte.hauteur < 2 * c.y + 2
  {
    Position(carte.largeur / 2, carte.hauteur / 2)
  }

  /** One movement step of a robot at `p`. */
  function Advance(carte: Carte, p: Position): (q: Position)
    requires carte.largeur > 0 && carte.hauteur > 0
    ensures p == Center(carte) ==> q == p
    ensures InRange(carte, p) ==> InRange(carte, q)
    ensures InRange(carte, p) && p != Center(carte) ==>
              q.x == (if p.x == carte.largeur - 1 then 0 else p.x + 1) &&
              q.y == (if p.y == carte.hauteur - 1 then 0 else p.y + 1)
  {
    if p == Center(carte) then p
    else Position(RustRem(p.x + 1, carte.largeur), RustRem(p.y + 1, carte.hauteur))
  }

  /** `k` movement steps from `p`. */
  function AdvanceN(carte: Carte, p: Position, k: nat): Position
    requires carte.largeur > 0 && carte.hauteur > 0
    decreases k
  {
    if k == 0 then p else AdvanceN(carte, Advance(carte, p), k - 1)
  }

  /**
   The movement loop: every robot's position becomes `Advance` of its old
   position; its other fields do not change.
   */
  method MoveRobotsOnMap(robots: array<RobotEntity>, carte: Carte)
    requires carte.largeur > 0 && carte.hauteur > 0
    modifies robots
    ensures forall i :: 0 <= i < robots.Length ==>
              robots[i] == RobotEntity(old(robots[i]).robot, Advance(carte, old(robots[i]).pos))
    ensures (forall i :: 0 <= i < robots.Length ==> InRange(carte, old(robots[i]).pos)) ==>
              forall i :: 0 <= i < robots.Length ==> InRange(carte, robots[i].pos)
  {
    for i := 0 to robots.Length
      invariant forall k :: 0 <= k < i ==>
                  robots[k] == RobotEntity(old(robots[k]).robot, Advance(carte, old(robots[k]).pos))
      invariant forall k :: i <= k < robots.Length ==> robots[k] == old(robots[k])
    {
      var position := robots[i].pos;
      if position.x == carte.largeur / 2 && position.y == carte.hauteur / 2 {
        continue;
      }
      var x := RustRem(position.x + 1, carte.largeur);
      var y := RustRem(position.y + 1, carte.hauteur);
      robots[i] := robots[i].(pos := Position(x, y));
    }
  }

  /** The far corner wraps to the origin, unless the corner is the centre itself. */
  lemma CornerWraps(carte: Carte)
    requires carte.largeur > 0 && carte.hauteur > 0
    requires Position(carte.largeur - 1, carte.hauteur - 1) != Center(carte)
    ensures Advance(carte, Position(carte.largeur - 1, carte.hauteur - 1)) == Position(0, 0)
  {
  }

  /** The corner is the centre only on maps at most 2 cells wide and high. */
  lemma CornerIsCenter(carte: Carte)
    requires carte.largeur > 0 && carte.hauteur > 0
    ensures Position(carte.largeur - 1, carte.hauteur - 1) == Center(carte) <==>
            carte.largeur <= 2 && carte.hauteur <= 2
  {
  }

  /** On the program's 50 × 50 map the base cell is (25, 25) and the far corner wraps to the origin. */
  lemma ProgramMapMoves()
    ensures Center(ProgramCarte) == Position(25, 25)
    ensures Advance(ProgramCarte, Position(49, 49)) == Position(0, 0)
    ensures Advance(ProgramCarte, Position(25, 25)) == Position(25, 25)
  {
  }

  /** A robot parked on the centre never moves again. */
  lemma {:induction false} ParkedStays(carte: Carte, k: nat)
    requires carte.largeur > 0 && carte.hauteur > 0
    ensures AdvanceN(carte, Center(carte), k) == Center(carte)
  {
    if k > 0 {
      ParkedStays(carte, k - 1);
    }
  }

  /**
   Until it reaches the centre, a robot starting in range follows the diagonal:
   after `k` steps it is at `((x + k) % largeur, (y + k) % hauteur)`.
   */
  lemma {:induction false} DiagonalTrajectory(carte: Carte, p: Position, k: nat)
    requires carte.largeur > 0 && carte.hauteur > 0
    requires InRange(carte, p)
    requires forall j :: 0 <= j < k ==> AdvanceN(carte, p, j) != Center(carte)
    ensures AdvanceN(carte, p, k) == Position((p.x + k) % carte.largeur, (p.y + k) % carte.hauteur)
    decreases k
  {
    if k > 0 {
      var q := Advance(carte, p);
      StepAvoidsCenter(carte, p, k);
      DiagonalTrajectory(carte, q, k - 1);
      var w, h := carte.largeur, carte.hauteur;
      assert (q.x + (k - 1)) % w == (p.x + k) % w by {
        WrapStep(p.x, k, w);
      }
      assert (q.y + (k - 1)) % h == (p.y + k) % h by {
        WrapStep(p.y, k, h);
      }
    } else {
      ModUnique(p.x, carte.largeur, 0, p.x);
      ModUnique(p.y, carte.hauteur, 0, p.y);
    }
  }

  /** One step along a trajectory that avoids the centre: the rest of it avoids the centre too. */
  lemma StepAvoidsCenter(carte: Carte, p: Position, k: nat)
    requires carte.largeur > 0 && carte.hauteur > 0
    requires InRange(carte, p) && k > 0
    requires forall j :: 0 <= j < k ==> AdvanceN(carte, p, j) != Center(carte)
    ensures InRange(carte, Advance(carte, p))
    ensures Advance(carte, p).x == (if p.x == carte.largeur - 1 then 0 else p.x + 1)
    ensures Advance(carte, p).y == (if p.y == carte.hauteur - 1 then 0 else p.y + 1)
    ensures AdvanceN(carte, p, k) == AdvanceN(carte, Advance(carte, p), k - 1)
    ensures forall j :: 0 <= j < k - 1 ==> AdvanceN(carte, Advance(carte, p), j) != Center(carte)
  {
    assert AdvanceN(carte, p, 0) == p;
    forall j | 0 <= j < k - 1
      ensures AdvanceN(carte, Advance(carte, p), j) != Center(carte)
    {
      assert AdvanceN(carte, p, j + 1) == AdvanceN(carte, Advance(carte, p), j);
    }
  }

  /** Stepping a coordinate with wrap-around and then `k - 1` more is `k` steps. */
  lemma WrapStep(a: int, k: nat, n: nat)
    requires 0 <= a < n && k > 0
    ensures ((if a == n - 1 then 0 else a + 1) + (k - 1)) % n == (a + k) % n
  {
    if a == n - 1 {
      ModShift(k - 1, n);
    }
  }

  lemma ModShift(x: int, n: int)
    requires n > 0
    ensures (x + n) % n == x % n
  {
    var q, r := x / n, x % n;
    assert x == q * n + r;
    assert x + n == (q + 1) * n + r;
    ModUnique(x + n, n, q + 1, r);
  }

  /** Quotient and remainder are the only ones with `0 <= r < n`. */
  lemma ModUnique(x: int, n: int, q: int, r: int)
    requires n > 0 && 0 <= r < n && x == q * n + r
    ensures x % n == r
  {
    var q', r' := x / n, x % n;
    assert x == q' * n + r';
    if q > q' {
      MulAtLeast(q - q', n);
    } else if q < q' {
      MulAtLeast(q' - q, n);
    }
  }

  lemma {:induction false} MulAtLeast(d: int, n: int)
    requires d >= 1 && n > 0
    ensures d * n >= n
    decreases d
  {
    if d > 1 {
      MulAtLeast(d - 1, n);
      assert d * n == (d - 1) * n + n;
    }
  }
}
