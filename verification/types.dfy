/**
 The components of the grid-world simulation: the map (`Carte`), the cell
 position, the three resource kinds, the robot record and the entities that
 map generation and the robot roster spawn into the world.
 */
module Types {

  datatype Option<+T> = None | Some(value: T)

  /** The three resource kinds a cell can hold. */
  datatype Ressource = Energie | Mineral | LieuInteretScientifique

  /** The three robot kinds; only `Collecteur` collects resources. */
  datatype TypeRobot = Explorateur | Collecteur | Visiteur

  /** A grid cell coordinate (an `i32` pair in the program). */
  datatype Position = Position(x: int, y: int)

  /** The map: its width (`largeur`) and height (`hauteur`). */
  datatype Carte = Carte(largeur: nat, hauteur: nat)

  /** The robot component; its position is a separate component. */
  datatype Robot = Robot(id: int, nom: string, pvMax: int, typeRobot: TypeRobot, vitesse: int)

  /** A robot entity: the robot component together with its position. */
  datatype RobotEntity = RobotEntity(robot: Robot, pos: Position)

  /** The non-robot entities of the world, each with its position component. */
  datatype Entity =
    | CarteEntity(carte: Carte, pos: Position)
    | ObstacleEntity(id: int, pos: Position)
    | RessourceEntity(ressource: Ressource, pos: Position)
    | BaseEntity(pos: Position)

  /** The map the program generates: 50 × 50 cells. */
  const ProgramCarte: Carte := Carte(50, 50)

  /** `p` is a cell of the map: `0 <= x < largeur` and `0 <= y < hauteur`. */
  predicate InRange(carte: Carte, p: Position)
  {
    0 <= p.x < carte.largeur && 0 <= p.y < carte.hauteur
  }

  predicate IsCollector(r: RobotEntity)
  {
    r.robot.typeRobot == Collecteur
  }
}
