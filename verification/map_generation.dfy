/**
 Map population (`setup_map`): every cell of the `largeur × hauteur` grid is
 classified by its normalised noise value, the first matching threshold wins,
 and the cell receives at most one obstacle or resource entity; then exactly
 one base is placed at a random in-range cell.

 The noise field and the random draws are inputs: `noise(x, y)` is the
 normalised value of cell `(x, y)`, `obstacleId(x, y)` is the random id drawn
 for an obstacle spawned there, and the base cell is a parameter.
 */
module MapGeneration {
  import opened Types

  /** Normalised noise value of a cell. */
  type Noise = (int, int) -> real

  /** Random id given to an obstacle spawned at a cell. */
  type IdSource = (int, int) -> int

  /** The outcome of classifying one cell. */
  datatype Cell = ObstacleCell | ResourceCell(ressource: Ressource) | EmptyCell

  /**
   The threshold chain: obstacle above 0.8, otherwise the first resource band
   that matches, otherwise nothing. Each outcome is stated as its own band.
   */
  function Classify(n: real): (c: Cell)
    ensures c == ObstacleCell <==> n > 0.8
    ensures c == ResourceCell(Energie) <==> 0.75 < n <= 0.8
    ensures c == ResourceCell(Mineral) <==> 0.72 < n <= 0.75
    ensures c == ResourceCell(LieuInteretScientifique) <==> 0.7 < n <= 0.72
    ensures c == EmptyCell <==> n <= 0.7
  {
    if n > 0.8 then ObstacleCell
    else if n > 0.75 then ResourceCell(Energie)
    else if n > 0.72 then ResourceCell(Mineral)
    else if n > 0.7 then ResourceCell(LieuInteretScientifique)
    else EmptyCell
  }

  /** The classification an obstacle or resource entity stands for. */
  function SpawnClass(e: Entity): Cell
  {
    match e
    case ObstacleEntity(_, _) => ObstacleCell
    case RessourceEntity(r, _) => ResourceCell(r)
    case _ => EmptyCell
  }

  /** What the generation loop spawns for cell `(x, y)`. */
  function CellSpawn(x: int, y: int, noise: Noise, obstacleId: IdSource): seq<Entity>
  {
    match Classify(noise(x, y))
    case ObstacleCell => [ObstacleEntity(obstacleId(x, y), Position(x, y))]
    case ResourceCell(r) => [RessourceEntity(r, Position(x, y))]
    case EmptyCell => []
  }

  /** The spawns of cells `0 .. width - 1` of row `y`, in loop order. */
  function RowSpawns(y: int, width: nat, noise: Noise, obstacleId: IdSource): seq<Entity>
  {
    if width == 0 then []
    else RowSpawns(y, width - 1, noise, obstacleId) + CellSpawn(width - 1, y, noise, obstacleId)
  }

  /** The spawns of rows `0 .. rows - 1` of a grid of width `largeur`, in loop order. */
  function GridSpawns(largeur: nat, rows: nat, noise: Noise, obstacleId: IdSource): seq<Entity>
  {
    if rows == 0 then []
    else GridSpawns(largeur, rows - 1, noise, obstacleId) + RowSpawns(rows - 1, largeur, noise, obstacleId)
  }

  /** `e` is exactly what its own cell spawns. */
  predicate FromCell(e: Entity, noise: Noise, obstacleId: IdSource)
  {
    CellSpawn(e.pos.x, e.pos.y, noise, obstacleId) == [e]
  }

  /** Row-major order of cells: `p` is visited strictly before `q`. */
  predicate Before(p: Position, q: Position)
  {
    p.y < q.y || (p.y == q.y && p.x < q.x)
  }

  /** The entities of `s` are in strictly increasing row-major order of their cells. */
  predicate Ordered(s: seq<Entity>)
  {
    forall i, j :: 0 <= i < j < |s| ==> Before(s[i].pos, s[j].pos)
  }

  ghost function PositionsOf(s: seq<Entity>): set<Position>
  {
    set i | 0 <= i < |s| :: s[i].pos
  }

  /** The cells of the grid whose classification is one of `cs`. */
  ghost function CellsIn(largeur: nat, hauteur: nat, noise: Noise, cs: set<Cell>): set<Position>
  {
    set x: int, y: int | 0 <= x < largeur && 0 <= y < hauteur && Classify(noise(x, y)) in cs :: Position(x, y)
  }

  /** The classifications that spawn an entity. */
  const NonEmpty: set<Cell> :=
    {ObstacleCell, ResourceCell(Energie), ResourceCell(Mineral), ResourceCell(LieuInteretScientifique)}

  /** The subsequence of the entities of `s` whose classification is one of `cs`. */
  function Select(s: seq<Entity>, cs: set<Cell>): seq<Entity>
  {
    if s == [] then []
    else Select(s[..|s| - 1], cs) + (if SpawnClass(s[|s| - 1]) in cs then [s[|s| - 1]] else [])
  }

  /**
   The generation loop of `setup_map`: the map entity at the origin, then for
   each row `y` and each column `x` the obstacle or resource of cell `(x, y)`,
   then the base at `(baseX, baseY)`. The spawned list is returned in the
   order the commands were issued.
   */
  method SetupMap(carte: Carte, noise: Noise, obstacleId: IdSource, baseX: int, baseY: int)
    returns (spawned: seq<Entity>)
    requires 0 <= baseX < carte.largeur && 0 <= baseY < carte.hauteur
    ensures spawned == [CarteEntity(carte, Position(0, 0))]
                       + GridSpawns(carte.largeur, carte.hauteur, noise, obstacleId)
                       + [BaseEntity(Position(baseX, baseY))]
    ensures forall i :: 0 <= i < |spawned| ==> (spawned[i].BaseEntity? <==> i == |spawned| - 1)
    ensures InRange(carte, spawned[|spawned| - 1].pos)
    ensures |spawned| == |CellsIn(carte.largeur, carte.hauteur, noise, NonEmpty)| + 2
  {
    spawned := [CarteEntity(carte, Position(0, 0))];
    for y := 0 to carte.hauteur
      invariant spawned == [CarteEntity(carte, Position(0, 0))] + GridSpawns(carte.largeur, y, noise, obstacleId)
    {
      ghost var rowStart := spawned;
      for x := 0 to carte.largeur
        invariant spawned == rowStart + RowSpawns(y, x, noise, obstacleId)
      {
        assert RowSpawns(y, x + 1, noise, obstacleId) == RowSpawns(y, x, noise, obstacleId) + CellSpawn(x, y, noise, obstacleId);
        var position := Position(x, y);
        var n := noise(x, y);
        if n > 0.8 {
          assert CellSpawn(x, y, noise, obstacleId) == [ObstacleEntity(obstacleId(x, y), position)];
          spawned := spawned + [ObstacleEntity(obstacleId(x, y), position)];
        } else {
          var sprite: Option<Ressource> :=
            if n > 0.75 then Some(Energie)
            else if n > 0.72 then Some(Mineral)
            else if n > 0.7 then Some(LieuInteretScientifique)
            else None;
          if sprite.Some? {
            assert CellSpawn(x, y, noise, obstacleId) == [RessourceEntity(sprite.value, position)];
            spawned := spawned + [RessourceEntity(sprite.value, position)];
          } else {
            assert CellSpawn(x, y, noise, obstacleId) == [];
          }
        }
      }
      assert GridSpawns(carte.largeur, y + 1, noise, obstacleId) ==
             GridSpawns(carte.largeur, y, noise, obstacleId) + RowSpawns(y, carte.largeur, noise, obstacleId);
      assert spawned == [CarteEntity(carte, Position(0, 0))] + GridSpawns(carte.largeur, y + 1, noise, obstacleId);
    }
    spawned := spawned + [BaseEntity(Position(baseX, baseY))];
    SetupShape(carte, noise, obstacleId, baseX, baseY);
  }

  /** The spawned list ends with the only base, and has one entity per non-empty cell plus two. */
  lemma SetupShape(carte: Carte, noise: Noise, obstacleId: IdSource, baseX: int, baseY: int)
    ensures var spawned := [CarteEntity(carte, Position(0, 0))]
                           + GridSpawns(carte.largeur, carte.hauteur, noise, obstacleId)
                           + [BaseEntity(Position(baseX, baseY))];
            (forall i :: 0 <= i < |spawned| ==> (spawned[i].BaseEntity? <==> i == |spawned| - 1)) &&
            |spawned| == |CellsIn(carte.largeur, carte.hauteur, noise, NonEmpty)| + 2
  {
    var grid := GridSpawns(carte.largeur, carte.hauteur, noise, obstacleId);
    var spawned := [CarteEntity(carte, Position(0, 0))] + grid + [BaseEntity(Position(baseX, baseY))];
    GridSpawnsTotal(carte.largeur, carte.hauteur, noise, obstacleId);
    GridSpawnsNoBase(carte.largeur, carte.hauteur, noise, obstacleId);
    forall i | 0 <= i < |spawned| - 1
      ensures !spawned[i].BaseEntity?
    {
      if i > 0 {
        assert spawned[i] == grid[i - 1];
      }
    }
  }

  /** Generation of the grid never spawns a base. */
  lemma GridSpawnsNoBase(largeur: nat, rows: nat, noise: Noise, obstacleId: IdSource)
    ensures forall i :: 0 <= i < |GridSpawns(largeur, rows, noise, obstacleId)| ==>
              !GridSpawns(largeur, rows, noise, obstacleId)[i].BaseEntity?
  {
    GridSpawnsFromCells(largeur, rows, noise, obstacleId);
  }

  /**
   A cell spawns nothing exactly when it is empty, and otherwise one entity of
   its classification, at its own position; an obstacle carries the cell's id.
   */
  lemma CellSpawnShape(x: int, y: int, noise: Noise, obstacleId: IdSource)
    ensures |CellSpawn(x, y, noise, obstacleId)| == if Classify(noise(x, y)) == EmptyCell then 0 else 1
    ensures forall i :: 0 <= i < |CellSpawn(x, y, noise, obstacleId)| ==>
              CellSpawn(x, y, noise, obstacleId)[i].pos == Position(x, y) &&
              SpawnClass(CellSpawn(x, y, noise, obstacleId)[i]) == Classify(noise(x, y)) &&
              FromCell(CellSpawn(x, y, noise, obstacleId)[i], noise, obstacleId) &&
              (CellSpawn(x, y, noise, obstacleId)[i].ObstacleEntity? ==>
                 CellSpawn(x, y, noise, obstacleId)[i].id == obstacleId(x, y))
  {
  }

  lemma OrderedAppend(a: seq<Entity>, b: seq<Entity>)
    requires Ordered(a) && Ordered(b)
    requires forall i, j :: 0 <= i < |a| && 0 <= j < |b| ==> Before(a[i].pos, b[j].pos)
    ensures Ordered(a + b)
  {
    forall i, j | 0 <= i < j < |a + b|
      ensures Before((a + b)[i].pos, (a + b)[j].pos)
    {
      if j < |a| {
        assert (a + b)[i] == a[i] && (a + b)[j] == a[j];
      } else if i >= |a| {
        assert (a + b)[i] == b[i - |a|] && (a + b)[j] == b[j - |a|];
      } else {
        assert (a + b)[i] == a[i] && (a + b)[j] == b[j - |a|];
      }
    }
  }

  /** Row `y` spawns only cells of row `y` within columns `0 .. width - 1`, in increasing column order. */
  lemma {:induction false} RowSpawnsOrdered(y: int, width: nat, noise: Noise, obstacleId: IdSource)
    ensures forall i :: 0 <= i < |RowSpawns(y, width, noise, obstacleId)| ==>
              RowSpawns(y, width, noise, obstacleId)[i].pos.y == y &&
              0 <= RowSpawns(y, width, noise, obstacleId)[i].pos.x < width
    ensures Ordered(RowSpawns(y, width, noise, obstacleId))
  {
    if width > 0 {
      var prev := RowSpawns(y, width - 1, noise, obstacleId);
      var cell := CellSpawn(width - 1, y, noise, obstacleId);
      RowSpawnsOrdered(y, width - 1, noise, obstacleId);
      CellSpawnShape(width - 1, y, noise, obstacleId);
      OrderedAppend(prev, cell);
      forall i | 0 <= i < |prev + cell|
        ensures (prev + cell)[i].pos.y == y && 0 <= (prev + cell)[i].pos.x < width
      {
        if i < |prev| {
          assert (prev + cell)[i] == prev[i];
        } else {
          assert (prev + cell)[i] == cell[i - |prev|];
        }
      }
    }
  }

  /** Row `y` spawns only what its cells classify to. */
  lemma {:induction false} RowSpawnsFromCells(y: int, width: nat, noise: Noise, obstacleId: IdSource)
    ensures forall i :: 0 <= i < |RowSpawns(y, width, noise, obstacleId)| ==>
              FromCell(RowSpawns(y, width, noise, obstacleId)[i], noise, obstacleId)
  {
    if width > 0 {
      var prev := RowSpawns(y, width - 1, noise, obstacleId);
      var cell := CellSpawn(width - 1, y, noise, obstacleId);
      RowSpawnsFromCells(y, width - 1, noise, obstacleId);
      CellSpawnShape(width - 1, y, noise, obstacleId);
      forall i | 0 <= i < |prev + cell|
        ensures FromCell((prev + cell)[i], noise, obstacleId)
      {
        if i < |prev| {
          assert (prev + cell)[i] == prev[i];
        } else {
          assert (prev + cell)[i] == cell[i - |prev|];
        }
      }
    }
  }

  lemma PositionsOfAppend(a: seq<Entity>, b: seq<Entity>)
    ensures PositionsOf(a + b) == PositionsOf(a) + PositionsOf(b)
  {
    forall p | p in PositionsOf(a + b)
      ensures p in PositionsOf(a) + PositionsOf(b)
    {
      var i :| 0 <= i < |a + b| && (a + b)[i].pos == p;
      if i < |a| {
        assert (a + b)[i] == a[i];
      } else {
        assert (a + b)[i] == b[i - |a|];
      }
    }
    forall p | p in PositionsOf(a) + PositionsOf(b)
      ensures p in PositionsOf(a + b)
    {
      if p in PositionsOf(a) {
        var i :| 0 <= i < |a| && a[i].pos == p;
        assert (a + b)[i] == a[i];
      } else {
        var i :| 0 <= i < |b| && b[i].pos == p;
        assert (a + b)[|a| + i] == b[i];
      }
    }
  }

  /** Every non-empty cell of columns `0 .. width - 1` of row `y` is among the row's spawns. */
  lemma {:induction false} RowSpawnsCover(y: int, width: nat, noise: Noise, obstacleId: IdSource)
    ensures forall x :: 0 <= x < width && Classify(noise(x, y)) != EmptyCell ==>
              Position(x, y) in PositionsOf(RowSpawns(y, width, noise, obstacleId))
  {
    if width > 0 {
      var prev := RowSpawns(y, width - 1, noise, obstacleId);
      var cell := CellSpawn(width - 1, y, noise, obstacleId);
      RowSpawnsCover(y, width - 1, noise, obstacleId);
      CellSpawnShape(width - 1, y, noise, obstacleId);
      PositionsOfAppend(prev, cell);
      if Classify(noise(width - 1, y)) != EmptyCell {
        assert cell[0].pos in PositionsOf(cell);
      }
    }
  }

  lemma CellsInMember(largeur: nat, hauteur: nat, noise: Noise, cs: set<Cell>, p: Position)
    ensures p in CellsIn(largeur, hauteur, noise, cs) <==>
            InRange(Carte(largeur, hauteur), p) && Classify(noise(p.x, p.y)) in cs
  {
    if InRange(Carte(largeur, hauteur), p) && Classify(noise(p.x, p.y)) in cs {
      assert p == Position(p.x, p.y);
    }
  }

  /** The grid spawns only entities of in-range cells. */
  lemma {:induction false} GridSpawnsInRange(largeur: nat, rows: nat, noise: Noise, obstacleId: IdSource)
    ensures forall i :: 0 <= i < |GridSpawns(largeur, rows, noise, obstacleId)| ==>
              InRange(Carte(largeur, rows), GridSpawns(largeur, rows, noise, obstacleId)[i].pos)
  {
    if rows > 0 {
      var prev: seq<Entity> := GridSpawns(largeur, rows - 1, noise, obstacleId);
      var row: seq<Entity> := RowSpawns(rows - 1, largeur, noise, obstacleId);
      GridSpawnsInRange(largeur, rows - 1, noise, obstacleId);
      RowSpawnsOrdered(rows - 1, largeur, noise, obstacleId);
      forall i | 0 <= i < |prev + row|
        ensures InRange(Carte(largeur, rows), (prev + row)[i].pos)
      {
        if i < |prev| {
          assert (prev + row)[i] == prev[i];
        } else {
          assert (prev + row)[i] == row[i - |prev|];
        }
      }
    }
  }

  /** The grid spawns only what its cells classify to, each at its own cell. */
  lemma {:induction false} GridSpawnsFromCells(largeur: nat, rows: nat, noise: Noise, obstacleId: IdSource)
    ensures forall i :: 0 <= i < |GridSpawns(largeur, rows, noise, obstacleId)| ==>
              FromCell(GridSpawns(largeur, rows, noise, obstacleId)[i], noise, obstacleId)
  {
    if rows > 0 {
      var prev: seq<Entity> := GridSpawns(largeur, rows - 1, noise, obstacleId);
      var row: seq<Entity> := RowSpawns(rows - 1, largeur, noise, obstacleId);
      GridSpawnsFromCells(largeur, rows - 1, noise, obstacleId);
      RowSpawnsFromCells(rows - 1, largeur, noise, obstacleId);
      forall i | 0 <= i < |prev + row|
        ensures FromCell((prev + row)[i], noise, obstacleId)
      {
        if i < |prev| {
          assert (prev + row)[i] == prev[i];
        } else {
          assert (prev + row)[i] == row[i - |prev|];
        }
      }
    }
  }

  /** The grid's spawns are in strictly increasing row-major order, so no cell receives two. */
  lemma {:induction false} GridSpawnsOrdered(largeur: nat, rows: nat, noise: Noise, obstacleId: IdSource)
    ensures Ordered(GridSpawns(largeur, rows, noise, obstacleId))
  {
    if rows > 0 {
      var prev: seq<Entity> := GridSpawns(largeur, rows - 1, noise, obstacleId);
      var row: seq<Entity> := RowSpawns(rows - 1, largeur, noise, obstacleId);
      GridSpawnsOrdered(largeur, rows - 1, noise, obstacleId);
      GridSpawnsInRange(largeur, rows - 1, noise, obstacleId);
      RowSpawnsOrdered(rows - 1, largeur, noise, obstacleId);
      OrderedAppend(prev, row);
    }
  }

  /** Every non-empty cell of the grid is among the grid's spawns. */
  lemma {:induction false} GridSpawnsCover(largeur: nat, rows: nat, noise: Noise, obstacleId: IdSource)
    ensures forall x, y :: 0 <= x < largeur && 0 <= y < rows && Classify(noise(x, y)) != EmptyCell ==>
              Position(x, y) in PositionsOf(GridSpawns(largeur, rows, noise, obstacleId))
  {
    if rows > 0 {
      var prev: seq<Entity> := GridSpawns(largeur, rows - 1, noise, obstacleId);
      var row: seq<Entity> := RowSpawns(rows - 1, largeur, noise, obstacleId);
      GridSpawnsCover(largeur, rows - 1, noise, obstacleId);
      RowSpawnsCover(rows - 1, largeur, noise, obstacleId);
      PositionsOfAppend(prev, row);
    }
  }

  /** The cells the grid spawns on are exactly the non-empty cells. */
  lemma GridSpawnsCells(largeur: nat, hauteur: nat, noise: Noise, obstacleId: IdSource)
    ensures PositionsOf(GridSpawns(largeur, hauteur, noise, obstacleId)) == CellsIn(largeur, hauteur, noise, NonEmpty)
  {
    var grid := GridSpawns(largeur, hauteur, noise, obstacleId);
    GridSpawnsInRange(largeur, hauteur, noise, obstacleId);
    GridSpawnsFromCells(largeur, hauteur, noise, obstacleId);
    GridSpawnsCover(largeur, hauteur, noise, obstacleId);
    forall p | p in CellsIn(largeur, hauteur, noise, NonEmpty)
      ensures p in PositionsOf(grid)
    {
      CellsInMember(largeur, hauteur, noise, NonEmpty, p);
    }
    forall p | p in PositionsOf(grid)
      ensures p in CellsIn(largeur, hauteur, noise, NonEmpty)
    {
      var i :| 0 <= i < |grid| && grid[i].pos == p;
      CellSpawnShape(p.x, p.y, noise, obstacleId);
      CellsInMember(largeur, hauteur, noise, NonEmpty, p);
    }
  }

  lemma {:induction false} SelectMember(s: seq<Entity>, cs: set<Cell>, e: Entity)
    ensures e in Select(s, cs) <==> e in s && SpawnClass(e) in cs
  {
    if s != [] {
      SelectMember(s[..|s| - 1], cs, e);
      assert s == s[..|s| - 1] + [s[|s| - 1]];
    }
  }

  /** A subsequence of an ordered sequence is ordered. */
  lemma {:induction false} SelectOrdered(s: seq<Entity>, cs: set<Cell>)
    requires Ordered(s)
    ensures Ordered(Select(s, cs))
  {
    if s != [] {
      var init := s[..|s| - 1];
      var last := s[|s| - 1];
      SelectOrdered(init, cs);
      if SpawnClass(last) in cs {
        forall e: Entity, f: Entity | e in Select(init, cs) && f in [last]
          ensures Before(e.pos, f.pos)
        {
          SelectMember(init, cs, e);
          var i :| 0 <= i < |init| && init[i] == e;
          assert s[i] == e;
        }
        OrderedAppend(Select(init, cs), [last]);
      }
    }
  }

  /** In an ordered sequence no two entities share a cell, so it has as many cells as entities. */
  lemma {:induction false} OrderedCount(s: seq<Entity>)
    requires Ordered(s)
    ensures |PositionsOf(s)| == |s|
  {
    if s != [] {
      var init := s[..|s| - 1];
      var last := s[|s| - 1];
      assert Ordered(init) by {
        forall i, j | 0 <= i < j < |init|
          ensures Before(init[i].pos, init[j].pos)
        {
          assert init[i] == s[i] && init[j] == s[j];
        }
      }
      OrderedCount(init);
      assert last.pos !in PositionsOf(init) by {
        forall i | 0 <= i < |init|
          ensures init[i].pos != last.pos
        {
          assert Before(s[i].pos, s[|s| - 1].pos);
        }
      }
      assert PositionsOf(s) == PositionsOf(init) + {last.pos} by {
        forall p | p in PositionsOf(s)
          ensures p in PositionsOf(init) + {last.pos}
        {
          var i :| 0 <= i < |s| && s[i].pos == p;
          if i < |init| {
            assert s[i] == init[i];
          }
        }
        forall p | p in PositionsOf(init)
          ensures p in PositionsOf(s)
        {
          var i :| 0 <= i < |init| && init[i].pos == p;
          assert s[i] == init[i];
        }
      }
    }
  }

  /**
   For any choice `cs` of non-empty classifications, the number of spawned
   entities of those kinds equals the number of cells of the grid whose noise
   value falls in those bands.
   */
  lemma GridSpawnsCount(largeur: nat, hauteur: nat, noise: Noise, obstacleId: IdSource, cs: set<Cell>)
    requires EmptyCell !in cs
    ensures |Select(GridSpawns(largeur, hauteur, noise, obstacleId), cs)| == |CellsIn(largeur, hauteur, noise, cs)|
  {
    var chosen := Select(GridSpawns(largeur, hauteur, noise, obstacleId), cs);
    GridSpawnsOrdered(largeur, hauteur, noise, obstacleId);
    SelectOrdered(GridSpawns(largeur, hauteur, noise, obstacleId), cs);
    OrderedCount(chosen);
    forall p | p in CellsIn(largeur, hauteur, noise, cs)
      ensures p in PositionsOf(chosen)
    {
      CellSelected(largeur, hauteur, noise, obstacleId, cs, p);
    }
    forall p | p in PositionsOf(chosen)
      ensures p in CellsIn(largeur, hauteur, noise, cs)
    {
      SelectedCell(largeur, hauteur, noise, obstacleId, cs, p);
    }
    assert PositionsOf(chosen) == CellsIn(largeur, hauteur, noise, cs);
  }

  lemma CellSelected(largeur: nat, hauteur: nat, noise: Noise, obstacleId: IdSource, cs: set<Cell>, p: Position)
    requires p in CellsIn(largeur, hauteur, noise, cs)
    requires EmptyCell !in cs
    ensures p in PositionsOf(Select(GridSpawns(largeur, hauteur, noise, obstacleId), cs))
  {
    var grid := GridSpawns(largeur, hauteur, noise, obstacleId);
    var chosen := Select(grid, cs);
    CellsInMember(largeur, hauteur, noise, cs, p);
    GridSpawnsCover(largeur, hauteur, noise, obstacleId);
    var i :| 0 <= i < |grid| && grid[i].pos == p;
    var e := grid[i];
    GridSpawnsFromCells(largeur, hauteur, noise, obstacleId);
    assert FromCell(e, noise, obstacleId);
    CellSpawnShape(p.x, p.y, noise, obstacleId);
    assert SpawnClass(e) == Classify(noise(p.x, p.y));
    SelectMember(grid, cs, e);
    var k :| 0 <= k < |chosen| && chosen[k] == e;
  }

  lemma SelectedCell(largeur: nat, hauteur: nat, noise: Noise, obstacleId: IdSource, cs: set<Cell>, p: Position)
    requires p in PositionsOf(Select(GridSpawns(largeur, hauteur, noise, obstacleId), cs))
    ensures p in CellsIn(largeur, hauteur, noise, cs)
  {
    var grid := GridSpawns(largeur, hauteur, noise, obstacleId);
    var chosen := Select(grid, cs);
    var k :| 0 <= k < |chosen| && chosen[k].pos == p;
    var e := chosen[k];
    SelectMember(grid, cs, e);
    var i :| 0 <= i < |grid| && grid[i] == e;
    GridSpawnsInRange(largeur, hauteur, noise, obstacleId);
    GridSpawnsFromCells(largeur, hauteur, noise, obstacleId);
    assert FromCell(e, noise, obstacleId);
    CellSpawnShape(p.x, p.y, noise, obstacleId);
    assert SpawnClass(e) == Classify(noise(p.x, p.y));
    CellsInMember(largeur, hauteur, noise, cs, p);
  }

  /** Generation spawns exactly one entity per non-empty cell, and nothing else. */
  lemma GridSpawnsTotal(largeur: nat, hauteur: nat, noise: Noise, obstacleId: IdSource)
    ensures |GridSpawns(largeur, hauteur, noise, obstacleId)| == |CellsIn(largeur, hauteur, noise, NonEmpty)|
  {
    var grid := GridSpawns(largeur, hauteur, noise, obstacleId);
    GridSpawnsFromCells(largeur, hauteur, noise, obstacleId);
    GridSpawnsOrdered(largeur, hauteur, noise, obstacleId);
    GridSpawnsCells(largeur, hauteur, noise, obstacleId);
    OrderedCount(grid);
  }

  /** A noise field that is 0.9 at cell (1, 1) and 0 everywhere else. */
  const SpikeNoise: Noise := (x: int, y: int) => if x == 1 && y == 1 then 0.9 else 0.0

  /** On a 4 × 4 grid, that field yields a single obstacle at (1, 1) and nothing else. */
  lemma SpikeScenario(obstacleId: IdSource)
    ensures GridSpawns(4, 4, SpikeNoise, obstacleId) == [ObstacleEntity(obstacleId(1, 1), Position(1, 1))]
  {
    var grid := GridSpawns(4, 4, SpikeNoise, obstacleId);
    forall p
      ensures p in CellsIn(4, 4, SpikeNoise, NonEmpty) <==> p == Position(1, 1)
    {
      CellsInMember(4, 4, SpikeNoise, NonEmpty, p);
    }
    assert CellsIn(4, 4, SpikeNoise, NonEmpty) == {Position(1, 1)};
    GridSpawnsTotal(4, 4, SpikeNoise, obstacleId);
    GridSpawnsCells(4, 4, SpikeNoise, obstacleId);
    GridSpawnsFromCells(4, 4, SpikeNoise, obstacleId);
    assert grid[0] in grid;
    assert grid[0].pos in PositionsOf(grid);
  }
}
