# Curly the snake: the move selector

A model of the move decision of a Battlesnake agent. On each move request
the agent takes its head cell, its health, the turn number and the board
(width, height, food, snakes). It then makes up to ten attempts to pick one of
"up", "down", "right" and "left". While health is above 20, each attempt is a
random direction. At or below 20, every attempt is the direction at index
`turn % 4` of `["up", "down", "right", "left"]`. An attempt is accepted when
the cell it leads to is on the board and on no snake's body. The loop stops at
the first accepted attempt; if none is accepted, the last attempt is answered
anyway. The reply always carries the shout "I am Curly the snake!".

Files and modules:

- `geometry.dfy` (`Geometry`): directions, cells, snakes and the board;
  `MoveAsCoord`, the step a direction makes (up is y−1, down y+1, right x+1,
  left x−1); `IsOffBoard`, the bounds test against [0, width) × [0, height).
- `collision.dfy` (`Collision`): `IsSnake`, the scan over the snakes with an
  early return; `IsValidMove`, on the board and on no snake.
- `selector.dfy` (`Selector`): the decision loop `ChooseMove`, proved against
  the function `Selected`; the handler `Move`, which reads the head and the
  first food item and builds the reply; and lemmas about `Selected`.

The random source is an input. `choices` is the sequence of ten directions
that `random.choice` yields on the ten attempts; any sequence of ten may be
passed, so every property holds for every outcome of the random draws.

Python's `%` with divisor 4 gives the same result in 0..3 as Dafny's `%` for
every integer turn, negative turns included, so `turn % 4` is modelled directly.

## Model

| member | source | states |
|---|---|---|
| `Geometry.Name` | app/server.py:49 | the wire name of every direction is one of "up", "down", "right", "left" |
| `Geometry.MovesComplete` | app/server.py:49 | the candidate list holds every direction, each once |
| `Geometry.MoveAsCoord` | app/server.py:80-88 | the new cell is one orthogonal step from the head; up and down keep x, right and left keep y; up lowers y, down raises y, right raises x, left lowers x |
| `Geometry.NeighboursExactly` | app/server.py:80-88 | the four directions reach four different cells, and a cell is reached by some direction exactly when it is one step from the head: nothing diagonal, no skipped cell |
| `Geometry.DirectionToMoveAsCoord` | app/server.py:80-88 | the inverse `DirectionTo` recovers the direction from the head and the cell `MoveAsCoord` produces |
| `Geometry.DirectionToAdjacent` | app/server.py:80-88 | `DirectionTo` succeeds exactly on the head's neighbours, and `MoveAsCoord` of its answer gives the cell back |
| `Geometry.IsOffBoard` | app/server.py:96-101 | off the board exactly when x < 0, y < 0, y ≥ height or x ≥ width; equivalently, false exactly on [0, width) × [0, height) |
| `Geometry.StepOffBoardAtEdge` | app/server.py:80-101 | from a head on the board, a step leaves the board exactly when the head is on the edge in that direction (up: y = 0, down: y = height − 1, right: x = width − 1, left: x = 0) |
| `Geometry.CornerSteps` | app/server.py:80-101 | from (0, 0) on an 11 × 11 board, up and left are off the board and down and right are on it |
| `Collision.IsSnake` | app/server.py:103-107 | true exactly when some snake in the list has the cell in its body; false for an empty snake list |
| `Collision.IsValidMove` | app/server.py:90-94 | true exactly when the cell is inside [0, width) × [0, height) and in no snake's body; the move and head arguments play no part |
| `Selector.FirstValid` | app/server.py:61-68 | finds the first accepted attempt from index k: it is accepted and every earlier one is not; none is found exactly when no attempt from k on is accepted |
| `Selector.ChooseMove` | app/server.py:49-68 | the loop of at most ten attempts answers `Selected`: the first accepted attempt, or else the tenth |
| `Selector.Move` | app/server.py:46-70 | fails on an empty body (head lookup) and then on an empty food list; otherwise the reply's move is the name of `Selected` for the request's head, health, turn and board, one of the four names, and the shout is "I am Curly the snake!" |
| `Selector.SelectedIsFirstValid` | app/server.py:61-68 | when attempt j is the first accepted one, the answer is attempt j and its cell is on the board and on no snake |
| `Selector.SelectedValidWhenSomeAttemptIs` | app/server.py:61-68 | if any of the ten attempts is accepted, the answer's cell is valid |
| `Selector.SelectedFallback` | app/server.py:61-70 | if no attempt is accepted, the answer is the tenth attempt and its cell is invalid |
| `Selector.SelectedIsAnAttempt` | app/server.py:61-65 | the answer is one of the attempts; with health above 20 it is one of the random draws |
| `Selector.LowHealthIsFixed` | app/server.py:62-65 | with health at most 20 the answer is the direction at index turn % 4 (up, down, right, left for 0, 1, 2, 3), valid or not |
| `Selector.FallbackMayLeaveBoard` | app/server.py:61-70 | a snake with health 10 at (0, 0) of an empty 11 × 11 board on turn 0 answers up, which leaves the board, although down is valid |

## Left out

- The routes `index`, `ping`, `start` and `end`, and the HTTP and JSON wrapping of `move` (app/server.py:9-36, 72-78, 109-116): fixed responses from the web framework.
- The `print` and `json.dumps` logging (app/server.py:29, 72, 115): output only.
- `main`, the `IP`, `PORT` and `DEBUG` settings and the WSGI `application` (app/server.py:119-132): process start-up.
- The `random` module (app/server.py:63): replaced by the input `choices`; the model says nothing about the distribution of the draws.
- Missing JSON keys and wrongly typed fields: the request is a typed record, so the key errors Python would raise are not modelled. Only the two list lookups that can fail on well-typed input are: `body[0]` (`NoHead`) and `food[0]` (`NoFood`).
- `Geometry.MoveAsCoord` takes a `Direction` rather than a string. The source returns `None` for any other string, but it only passes members of the candidate list.
- The first food item is read and then not used (app/server.py:59). Only its failure on an empty list is modelled.
