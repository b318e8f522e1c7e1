/** The move decision: up to ten attempts, each a random direction while the
    snake is healthy or the turn-indexed fixed direction when it is hungry,
    stopping at the first attempt whose cell is valid. The random source is
    an input: `choices` holds the direction `random.choice` yields on each
    attempt. */
module Selector {
  import opened Geometry
  import opened Collision

  /** The number of attempts the loop makes at most. */
  const Attempts: nat := 10

  /** Health above this draws random directions; at or below it the
      direction is fixed by the turn number. */
  const LowHealth: int := 20

  /** The constant broadcast message. */
  const Shout: string := "I am Curly the snake!"

  /** What the decision loop reads from the request. */
  datatype Snapshot = Snapshot(head: Coord, health: int, turn: int, board: Board)

  /** The request as the handler receives it, reduced to the fields it reads. */
  datatype Request = Request(board: Board, you: Snake, turn: int)

  /** The body of the reply. */
  datatype Response = Response(move: string, shout: string)

  /** The two lookups of the handler that fail on an empty list: the head
      (`body[0]`) and the first food item (`food[0]`). */
  datatype Fault = NoHead | NoFood

  datatype Result<T> = Ok(value: T) | Err(fault: Fault)

  /** The direction tried on attempt `k`. */
  function Candidate(s: Snapshot, choices: seq<Direction>, k: nat): Direction
    requires k < |choices|
  {
    if s.health > LowHealth then choices[k] else Moves[s.turn % 4]
  }

  /** Attempt `k` leads to a cell on the board and off every snake. */
  predicate ValidAttempt(s: Snapshot, choices: seq<Direction>, k: nat)
    requires k < |choices|
  {
    ValidCell(s.board, MoveAsCoord(Candidate(s, choices, k), s.head), s.board.snakes)
  }

  /** The first valid attempt at index `k` or later, if any. */
  function FirstValid(s: Snapshot, choices: seq<Direction>, k: nat): (r: Option<nat>)
    requires |choices| == Attempts && k <= Attempts
    ensures r.Some? ==> k <= r.value < Attempts && ValidAttempt(s, choices, r.value)
    ensures r.Some? ==> forall i :: k <= i < r.value ==> !ValidAttempt(s, choices, i)
    ensures r.None? <==> forall i :: k <= i < Attempts ==> !ValidAttempt(s, choices, i)
    decreases Attempts - k
  {
    if k == Attempts then None
    else if ValidAttempt(s, choices, k) then Some(k)
    else FirstValid(s, choices, k + 1)
  }

  /** The move the loop ends with: the first valid attempt, or else the last
      attempt. */
  function Selected(s: Snapshot, choices: seq<Direction>): Direction
    requires |choices| == Attempts
  {
    match FirstValid(s, choices, 0)
    case Some(j) => Candidate(s, choices, j)
    case None => Candidate(s, choices, Attempts - 1)
  }

  /** The decision loop. */
  method ChooseMove(s: Snapshot, choices: seq<Direction>) returns (move: Direction)
    requires |choices| == Attempts
    ensures move == Selected(s, choices)
  {
    var moves := Moves;
    move := moves[0]; // never returned: the first attempt overwrites it
    var i := 0;
    while i < Attempts
      invariant 0 <= i <= Attempts
      invariant forall j :: 0 <= j < i ==> !ValidAttempt(s, choices, j)
      invariant 0 < i ==> move == Candidate(s, choices, i - 1)
    {
      if s.health > LowHealth {
        move := choices[i];
      } else {
        move := moves[s.turn % 4];
      }
      var coord := MoveAsCoord(move, s.head);
      var ok := IsValidMove(move, s.head, s.board, coord, s.board.snakes);
      if ok {
        break;
      }
      i := i + 1;
    }
  }

  /** The snapshot the handler hands to the loop. */
  function SnapshotOf(req: Request): Snapshot
    requires req.you.body != []
  {
    Snapshot(req.you.body[0], req.you.health, req.turn, req.board)
  }

  /** The move handler without its HTTP and JSON wrapping. It looks up the
      head and the first food item (unused afterwards) before the loop; either
      lookup fails on an empty list. */
  method Move(req: Request, choices: seq<Direction>) returns (r: Result<Response>)
    requires |choices| == Attempts
    ensures r.Err? <==> req.you.body == [] || req.board.food == []
    ensures req.you.body == [] ==> r == Err(NoHead)
    ensures req.you.body != [] && req.board.food == [] ==> r == Err(NoFood)
    ensures r.Ok? ==> r.value.shout == Shout
    ensures r.Ok? ==> r.value.move in ["up", "down", "right", "left"]
    ensures r.Ok? ==> r.value.move == Name(Selected(SnapshotOf(req), choices))
  {
    if req.you.body == [] {
      return Err(NoHead);
    }
    var head := req.you.body[0];
    var health := req.you.health;
    var board := req.board;
    if board.food == [] {
      return Err(NoFood);
    }
    var move := ChooseMove(Snapshot(head, health, req.turn, board), choices);
    return Ok(Response(Name(move), Shout));
  }

  /** When some attempt is valid the result is the first valid attempt, and
      its cell is on the board and on no snake. */
  lemma SelectedIsFirstValid(s: Snapshot, choices: seq<Direction>, j: nat)
    requires |choices| == Attempts && j < Attempts
    requires ValidAttempt(s, choices, j)
    requires forall i :: 0 <= i < j ==> !ValidAttempt(s, choices, i)
    ensures Selected(s, choices) == Candidate(s, choices, j)
    ensures InBounds(s.board, MoveAsCoord(Selected(s, choices), s.head))
    ensures !OnSnake(MoveAsCoord(Selected(s, choices), s.head), s.board.snakes)
  {
  }

  /** If any of the ten attempts is valid, so is the selected move. */
  lemma SelectedValidWhenSomeAttemptIs(s: Snapshot, choices: seq<Direction>)
    requires |choices| == Attempts
    requires exists j :: 0 <= j < Attempts && ValidAttempt(s, choices, j)
    ensures ValidCell(s.board, MoveAsCoord(Selected(s, choices), s.head), s.board.snakes)
  {
  }

  /** If no attempt is valid, the result is the tenth attempt, valid or not. */
  lemma SelectedFallback(s: Snapshot, choices: seq<Direction>)
    requires |choices| == Attempts
    requires forall j :: 0 <= j < Attempts ==> !ValidAttempt(s, choices, j)
    ensures Selected(s, choices) == Candidate(s, choices, Attempts - 1)
    ensures !ValidCell(s.board, MoveAsCoord(Selected(s, choices), s.head), s.board.snakes)
  {
  }

  /** The result is always one of the attempts made. */
  lemma SelectedIsAnAttempt(s: Snapshot, choices: seq<Direction>)
    requires |choices| == Attempts
    ensures exists k :: 0 <= k < Attempts && Selected(s, choices) == Candidate(s, choices, k)
    ensures s.health > LowHealth ==> Selected(s, choices) in choices
  {
    match FirstValid(s, choices, 0)
    case Some(j) =>
      assert Selected(s, choices) == Candidate(s, choices, j);
    case None =>
      assert Selected(s, choices) == Candidate(s, choices, Attempts - 1);
  }

  /** A hungry snake always answers the turn-indexed direction, whether or
      not that cell is valid. */
  lemma LowHealthIsFixed(s: Snapshot, choices: seq<Direction>)
    requires |choices| == Attempts
    requires s.health <= LowHealth
    ensures Selected(s, choices) == Moves[s.turn % 4]
    ensures s.turn % 4 == 0 ==> Selected(s, choices) == Up
    ensures s.turn % 4 == 1 ==> Selected(s, choices) == Down
    ensures s.turn % 4 == 2 ==> Selected(s, choices) == Right
    ensures s.turn % 4 == 3 ==> Selected(s, choices) == Left
  {
  }

  /** The fallback is not safe: a hungry snake in the top-left corner of an
      empty 11 x 11 board on turn 0 answers "up" and leaves the board,
      although "down" and "right" are valid. */
  lemma FallbackMayLeaveBoard(choices: seq<Direction>)
    requires |choices| == Attempts
    ensures var s := Snapshot(Coord(0, 0), 10, 0, Board(11, 11, [Coord(5, 5)], []));
      Selected(s, choices) == Up &&
      ValidCell(s.board, MoveAsCoord(Down, s.head), s.board.snakes) &&
      !ValidCell(s.board, MoveAsCoord(Selected(s, choices), s.head), s.board.snakes)
  {
  }
}
