# Grid-world robot simulation: verified model of the simulation rules

This project models the simulation core of a small Bevy program ("Essaim de
Robots pour Exploration et Etude Astrobiologique"). A 50 × 50 map (`Carte`) is
populated from a noise field with obstacles and three kinds of resources
(`Energie`, `Mineral`, `LieuInteretScientifique`), plus one `Base`. Five robots
(`Explorateur`, `Collecteur`, `Visiteur`) start on random cells. Once per timer
tick every robot moves one cell diagonally, with wrap-around, unless it stands
on the map's centre. Every frame, each collector removes the resources on its
own cell.

The model is written in the program's own terms and follows the code of
`src/main.rs`:

- `types.dfy` (module `Types`): the components (`Ressource`, `TypeRobot`,
  `Position`, `Carte`, `Robot`) and the entities the program spawns.
- `map_generation.dfy` (module `MapGeneration`): the threshold chain and the
  nested generation loop of `setup_map`.
- `robots.dfy` (module `Robots`) and `decimal.dfy` (module `Decimal`): the
  roster of `spawn_robots` and the `format!("{}", id)` used in robot names.
- `movement.dfy` (module `Movement`): the position update of
  `move_robots_on_map_system`. It is an in-place loop over an array of robots.
- `collection.dfy` (module `Collection`): the nested scan of
  `collect_resources_system`.

Bevy's `Commands` are deferred, so the model makes them explicit. `SetupMap`
returns the list of spawned entities, in the order the commands are issued.
`CollectResources` returns the despawn queue, as indices into the world's
entity list, together with each robot's outcome. `CollectStep` applies that
queue. Because of this deferral, every collector in one pass scans the same
unchanged resources.

The inputs that come from outside the core are parameters:

- the normalised noise value of each cell, a function `(x, y) -> real`;
- the random obstacle ids, a function of the cell;
- the random base cell and the random robot start cells, each required to be
  in range, as `gen_range` guarantees.

Notes on `src/main.rs` that the model keeps as written:

- Despawns go through `Commands` and are applied after the system returns.
  So two collectors on one cell both report its resources, and the pass
  removes the union of their matches; no collector takes a resource first.
- The comment at `src/main.rs:107` speaks of an obstacle threshold of 0.6. The
  code tests `> 0.8`, and the model uses 0.8.
- The movement rule's "robot in the base" test compares against the map's
  geometric centre `(largeur / 2, hauteur / 2)`. It does not use the base
  entity's random position, and the model keeps that test as written.

## Model

| member | source | states |
|---|---|---|
| `MapGeneration.Classify` | src/main.rs:108-123 | first-match thresholds: above 0.8 is an obstacle and never a resource; (0.75, 0.8] is Energie, (0.72, 0.75] Mineral, (0.7, 0.72] LieuInteretScientifique, at most 0.7 nothing; each band holds in both directions, so every value gets exactly one outcome |
| `MapGeneration.CellSpawnShape` | src/main.rs:106-134 | a cell spawns nothing exactly when its value is at most 0.7; otherwise it spawns one entity, on that cell, of the kind its value classifies to, and an obstacle carries the id drawn for that cell |
| `MapGeneration.SetupMap` | src/main.rs:79-150 | the nested `for y` / `for x` loop spawns the map entity at the origin, then each cell's entity in row-major order, then exactly one base; the base is the last entity, no other entity is a base, the base lies in the grid, and the entity count is the number of non-empty cells plus two |
| `MapGeneration.GridSpawnsInRange` | src/main.rs:101-102 | every obstacle or resource spawned lies inside `[0, largeur) × [0, hauteur)` |
| `MapGeneration.GridSpawnsFromCells` | src/main.rs:101-135 | every obstacle or resource spawned stands on its own cell and is exactly what that cell's noise value classifies to (the obstacle id is the one drawn there) |
| `MapGeneration.GridSpawnsNoBase` | src/main.rs:101-135 | the generation loop itself never spawns a base |
| `MapGeneration.GridSpawnsOrdered` | src/main.rs:101-102 | the spawns are in strictly increasing row-major order of their cells, so each cell is visited once and receives at most one entity |
| `MapGeneration.GridSpawnsCover` | src/main.rs:101-135 | every in-range cell whose value is above 0.7 receives an entity |
| `MapGeneration.GridSpawnsCells` | src/main.rs:101-135 | the set of cells that receive an entity equals the set of non-empty cells |
| `MapGeneration.GridSpawnsCount` | src/main.rs:101-135 | for any choice of obstacle/resource kinds, the number of spawned entities of those kinds equals the number of cells whose value falls in those bands |
| `MapGeneration.GridSpawnsTotal` | src/main.rs:101-135 | the number of spawned obstacles and resources equals the number of non-empty cells |
| `MapGeneration.SpikeScenario` | src/main.rs:101-135 | on a 4 × 4 grid whose value is 0.9 at (1, 1) and 0 elsewhere, generation yields a single obstacle at (1, 1) and nothing else |
| `Robots.SpawnRobots` | src/main.rs:202-240 | with a map, robots 1 to 5 are spawned in id order, each at its drawn in-range cell, with kind from `id % 3`, name = kind prefix + id, `pv_max` 100 and `vitesse` 1; robots 1 and 4 are collectors, 2 and 5 visitors, 3 the explorer; without a map nothing is spawned |
| `Robots.TypeFor` | src/main.rs:214-218 | the kind is an explorer exactly when `id % 3` is 0, a collector exactly when it is 1, and a visitor exactly when it is 2 |
| `Robots.NameRoundTrip` | src/main.rs:214-224 | the name `NameFor` builds (the kind's prefix followed by `format!("{}", id)`) parses back to its kind and its id; reading a name splits it before its first digit, via the helper `SplitAtDigit` |
| `Robots.NamesDistinct` | src/main.rs:220-224 | different ids give different names |
| `Decimal.DecimalString` | src/main.rs:221-223 | `format!("{}", id)` is non-empty, all decimal digits, without a leading zero |
| `Decimal.ParseDecimalString` | src/main.rs:221-223 | reading the decimal rendering of `n` gives back `n` |
| `Decimal.DecimalStringInjective` | src/main.rs:221-223 | distinct numbers render differently |
| `Movement.RustRem` | src/main.rs:353-354 | Rust's `%` on `i32` takes the sign of the dividend and has magnitude below the divisor; for `0 <= a < b` it is `a`, and `b % b` is 0 |
| `Movement.Center` | src/main.rs:348 | the cell `(largeur / 2, hauteur / 2)` with integer division, which lies on the map whenever the map is non-empty |
| `Movement.ProgramMapMoves` | src/main.rs:91-92 | on the program's 50 × 50 map the centre is (25, 25), a robot there stays, and a robot on (49, 49) moves to (0, 0) |
| `Movement.Advance` | src/main.rs:346-354 | a robot on the centre stays put; any other in-range robot moves to the next column and row, wrapping from the last to 0; in-range positions stay in range |
| `Movement.MoveRobotsOnMap` | src/main.rs:329-358 | every robot's position becomes its advanced position, no other robot field changes, and if all robots were in range they all stay in range |
| `Movement.CornerWraps` | src/main.rs:353-354 | a robot at `(largeur - 1, hauteur - 1)` moves to `(0, 0)`, unless that corner is the centre |
| `Movement.CornerIsCenter` | src/main.rs:348 | the far corner is the centre exactly on maps at most 2 cells wide and 2 cells high |
| `Movement.ParkedStays` | src/main.rs:347-350 | a robot on the centre never moves, however many ticks pass |
| `Movement.DiagonalTrajectory` | src/main.rs:352-354 | until it reaches the centre, a robot starting in range is at `((x + k) % largeur, (y + k) % hauteur)` after `k` ticks |
| `Collection.MatchesInMeaning` | src/main.rs:256-257 | the matches of a scan are exactly the indices of the resource entities on the robot's cell, in increasing scan order |
| `Collection.ScanCell` | src/main.rs:255-272 | one collector's inner loop reports the matches and sets `resource_collected` exactly when there is at least one |
| `Collection.OutcomeFor` | src/main.rs:253-275 | a robot is reported as "not a collector" exactly when it is an explorer or a visitor; a reported collection is non-empty and lists only resources on the robot's cell |
| `Collection.CollectStep` | src/main.rs:270 | applying a pass's despawn queue keeps at most the entities of the world, and every kept entity was in the world and is not a resource on a collector's cell |
| `Collection.CollectResources` | src/main.rs:245-278 | a despawn is queued for an entity exactly when it is a resource on some collector's cell; explorers and visitors report nothing; a collector reports "nothing collected" exactly when no resource lies on its cell |
| `Collection.PassMeaning` | src/main.rs:251-275 | over a whole pass, an index is queued exactly when its entity is a resource on some collector's cell; explorers and visitors report nothing; a collector reports "nothing collected" exactly when no resource lies on its cell |
| `Collection.CollectorAtMeaning` | src/main.rs:253-257 | the recursive "some collector stands on this cell" test holds exactly when one of the robots is a collector at that position |
| `Collection.OutcomeMeaning` | src/main.rs:253-275 | a non-collector is never checked; a collector's outcome is "nothing collected" exactly when no resource shares its position |
| `Collection.DespawnQueueExact` | src/main.rs:251-271 | the queue built over all robots holds exactly the indices of the resources on some collector's cell, so a cell shared by two collectors is removed once, as a union |
| `Collection.CollectStepRemovesCollectable` | src/main.rs:251-271 | applying one pass leaves exactly the entities that are not resources on a collector's cell, in their order |
| `Collection.SurvivorsMember` | src/main.rs:251-271 | an entity survives exactly when it was present and is not a resource on a collector's cell: obstacles, the base, the map, and resources elsewhere are untouched |
| `Collection.NothingCollectable` | src/main.rs:255-275 | when no resource lies on a collector's cell, a pass queues nothing, changes nothing, and each collector reports that it collected nothing |
| `Collection.CollectIdempotent` | src/main.rs:255-275 | a second pass with no movement in between queues no despawn, changes nothing, and every collector reports that it collected nothing |
| `Collection.NoCollectorNoRemoval` | src/main.rs:253 | robots that are not collectors remove nothing, even when they share a resource's cell |
| `Collection.NonCollectorAddsNothing` | src/main.rs:253 | adding an explorer or a visitor to a pass does not change what it removes |
| `Collection.CollectorScenario` | src/main.rs:251-275 | a collector on (3, 3) with an energy resource on (3, 3) collects it, the resource is gone, and a second pass reports nothing collected |

## Left out

- The Perlin noise call and its `(n + 1) / 2` normalisation (src/main.rs:97-105). Both rely on a foreign library and `f64` arithmetic. The normalised value of each cell is an input function.
- The thresholds 0.8, 0.75, 0.72 and 0.7 are exact reals standing for the program's `f64` literals. The `f64` nearest 0.8 lies slightly above 0.8, so a cell whose value is exactly that `f64` is `Energie` in the program but an obstacle if its noise value here were read as that double's exact value. Reading each noise value through an order-preserving map that sends every `f64` literal to its decimal removes the difference.
- All `rand::thread_rng()` draws: the noise seed, obstacle ids, and the base and robot cells. They are parameters, and the cells are required to be in range, as `gen_range` guarantees.
- The `Timer`/`Time` gating of movement (src/main.rs:335-342). The model covers only the step that runs when the timer fires.
- Camera setup, pan and zoom; the border sprites of `setup_bordures`; texture loading; sprite scales; and the `Transform` updates that mirror positions (src/main.rs:356-357). These are rendering only.
- `println!` logging. The per-robot `Outcome` stands for the "collected" and "did not collect" lines. The "Resources available" count and the printed robot kind are not modelled.
- The Bevy `App` wiring (src/main.rs:362-381). `Update` systems have no declared order, so the model fixes no order between movement and collection.
- Bevy query iteration order is the order of the input lists, whatever that order is.
- `carte_query.single()` panics unless exactly one map exists. The model takes the map as a parameter.
- A second despawn of an already despawned entity has no effect (Bevy only warns); `Despawn` has set semantics.
- Movement.Advance: positions are unbounded integers, so the model does not capture the `i32` overflow of `x + 1`. Positions stay below 50, far from that limit.
- Robots.TypeFor: uses Dafny's `%`, which agrees with Rust's for the positive ids 1 to 5.
- MapGeneration.SetupMap: obstacle ids are unbounded integers rather than `i32` values.
