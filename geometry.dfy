/** Grid geometry of the Battlesnake board: directions, cells, the step a
    direction makes from the head, and the board's bounds test. */
module Geometry {

  /** The four moves the game accepts. */
  datatype Direction = Up | Down | Right | Left

  /** A grid cell; "up" decreases y, as in the game protocol. */
  datatype Coord = Coord(x: int, y: int)

  /** A snake as the move request delivers it: health and body, head first. */
  datatype Snake = Snake(health: int, body: seq<Coord>)

  /** The board part of the request: its size, the food and every snake
      (the requesting snake included). */
  datatype Board = Board(width: int, height: int, food: seq<Coord>, snakes: seq<Snake>)

  /** The candidate list, in the order the selector indexes it. */
  const Moves: seq<Direction> := [Up, Down, Right, Left]

  /** The wire name of a direction. */
  function Name(d: Direction): (s: string)
    ensures s in ["up", "down", "right", "left"]
  {
    match d
    case Up => "up"
    case Down => "down"
    case Right => "right"
    case Left => "left"
  }

  function Abs(n: int): nat { if n < 0 then -n else n }

  /** Cells one orthogonal step apart. */
  predicate Adjacent(a: Coord, b: Coord)
  {
    Abs(a.x - b.x) + Abs(a.y - b.y) == 1
  }

  /** The cell the head enters when it takes direction `d`. */
  function MoveAsCoord(d: Direction, head: Coord): (c: Coord)
    ensures Adjacent(head, c)
    ensures (d == Up || d == Down) <==> c.x == head.x
    ensures d == Up <==> c.y < head.y
    ensures d == Down <==> c.y > head.y
    ensures d == Right <==> c.x > head.x
    ensures d == Left <==> c.x < head.x
  {
    match d
    case Up => Coord(head.x, head.y - 1)
    case Down => Coord(head.x, head.y + 1)
    case Right => Coord(head.x + 1, head.y)
    case Left => Coord(head.x - 1, head.y)
  }

  datatype Option<T> = None | Some(value: T)

  /** Which direction leads from `head` to `c`, if `c` is a neighbour. */
  function DirectionTo(head: Coord, c: Coord): Option<Direction>
  {
    if c == Coord(head.x, head.y - 1) then Some(Up)
    else if c == Coord(head.x, head.y + 1) then Some(Down)
    else if c == Coord(head.x + 1, head.y) then Some(Right)
    else if c == Coord(head.x - 1, head.y) then Some(Left)
    else None
  }

  /** DirectionTo undoes MoveAsCoord. */
  lemma DirectionToMoveAsCoord(d: Direction, head: Coord)
    ensures DirectionTo(head, MoveAsCoord(d, head)) == Some(d)
  {
  }

  /** DirectionTo succeeds exactly on the neighbours of the head, and then
      names the direction MoveAsCoord takes there. */
  lemma DirectionToAdjacent(head: Coord, c: Coord)
    ensures DirectionTo(head, c).Some? <==> Adjacent(head, c)
    ensures DirectionTo(head, c).Some? ==> MoveAsCoord(DirectionTo(head, c).value, head) == c
  {
  }

  /** The four directions reach four different cells, and together they are
      exactly the neighbours of the head: no diagonal, no skipped cell. */
  lemma NeighboursExactly(head: Coord, c: Coord)
    ensures forall d1, d2 :: MoveAsCoord(d1, head) == MoveAsCoord(d2, head) ==> d1 == d2
    ensures Adjacent(head, c) <==> exists d :: MoveAsCoord(d, head) == c
  {
    DirectionToAdjacent(head, c);
    if Adjacent(head, c) {
      var d := DirectionTo(head, c).value;
      assert MoveAsCoord(d, head) == c;
    }
  }

  /** Every direction occurs in the candidate list, each at its own index. */
  lemma MovesComplete(d: Direction)
    ensures d in Moves
    ensures forall i, j :: 0 <= i < j < |Moves| ==> Moves[i] != Moves[j]
  {
  }

  /** The board proper: [0, width) x [0, height). */
  predicate InBounds(board: Board, c: Coord)
  {
    0 <= c.x < board.width && 0 <= c.y < board.height
  }

  /** The bounds test, four early exits in the source's order. */
  function IsOffBoard(board: Board, c: Coord): (off: bool)
    ensures off <==> (c.x < 0 || c.y < 0 || c.y >= board.height || c.x >= board.width)
    ensures off <==> !InBounds(board, c)
  {
    if c.x < 0 then true
    else if c.y < 0 then true
    else if c.y >= board.height then true
    else if c.x >= board.width then true
    else false
  }

  /** From a head on the board, a step leaves the board exactly when the head
      lies on the edge in that direction. */
  lemma StepOffBoardAtEdge(board: Board, head: Coord, d: Direction)
    requires InBounds(board, head)
    ensures IsOffBoard(board, MoveAsCoord(d, head)) <==>
      match d
      case Up => head.y == 0
      case Down => head.y == board.height - 1
      case Right => head.x == board.width - 1
      case Left => head.x == 0
  {
  }

  /** From the top-left corner of an 11 x 11 board, up and left leave the
      board and down and right stay on it. */
  lemma CornerSteps(board: Board)
    requires board.width == 11 && board.height == 11
    ensures IsOffBoard(board, MoveAsCoord(Up, Coord(0, 0)))
    ensures IsOffBoard(board, MoveAsCoord(Left, Coord(0, 0)))
    ensures !IsOffBoard(board, MoveAsCoord(Down, Coord(0, 0)))
    ensures !IsOffBoard(board, MoveAsCoord(Right, Coord(0, 0)))
  {
  }
}
