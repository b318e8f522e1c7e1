/** The move's safety test: the target cell must be on the board and on no
    snake body. */
module Collision {
  import opened Geometry

  /** Some snake in the list has `c` in its body. */
  predicate OnSnake(c: Coord, snakes: seq<Snake>)
  {
    exists i :: 0 <= i < |snakes| && c in snakes[i].body
  }

  /** A cell the head may enter. */
  predicate ValidCell(board: Board, c: Coord, snakes: seq<Snake>)
  {
    InBounds(board, c) && !OnSnake(c, snakes)
  }

  /** Scans the snakes in order and stops at the first whose body holds `c`. */
  method IsSnake(c: Coord, snakes: seq<Snake>) returns (found: bool)
    ensures found <==> OnSnake(c, snakes)
    ensures snakes == [] ==> !found
  {
    for i := 0 to |snakes|
      invariant forall j :: 0 <= j < i ==> c !in snakes[j].body
    {
      if c in snakes[i].body {
        return true;
      }
    }
    return false;
  }

  /** The validity test; like the source, it takes the move and the head but
      does not look at them. */
  method IsValidMove(move: Direction, head: Coord, board: Board, c: Coord, snakes: seq<Snake>)
    returns (ok: bool)
    ensures ok <==> ValidCell(board, c, snakes)
    ensures ok ==> 0 <= c.x < board.width && 0 <= c.y < board.height
    ensures ok ==> forall i :: 0 <= i < |snakes| ==> c !in snakes[i].body
  {
    // `and` short-circuits: the snakes are only scanned for an on-board cell
    if IsOffBoard(board, c) {
      return false;
    }
    var onSnake := IsSnake(c, snakes);
    if !onSnake {
      return true;
    } else {
      return false;
    }
  }
}
