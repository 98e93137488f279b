/**
 * The snake game of examples/terminal-app-snake.roc: the transition function, the game loop over
 * an arbitrary list of key presses, and what holds in every state that loop can reach.
 */
module Snake {

  datatype Position = Position(x: int, y: int)

  datatype Direction = Up | Down | Left | Right

  datatype NonEmptyList = NonEmptyList(first: Position, rest: seq<Position>)

  datatype GameState = GameState(
    snake: NonEmptyList, food: Position, direction: Direction, gameOver: bool)

  const GRID_SIZE: int := 20

  const INITIAL_STATE: GameState := GameState(
    NonEmptyList(Position(10, 10), [Position(9, 10), Position(8, 10)]), Position(15, 15), Right, false)

  function Contains(list: NonEmptyList, pos: Position): bool {
    list.first == pos || pos in list.rest
  }

  function Prepend(list: NonEmptyList, pos: Position): NonEmptyList {
    NonEmptyList(pos, [list.first] + list.rest)
  }

  function Len(list: NonEmptyList): nat {
    1 + |list.rest|
  }

  /** `List.drop_last` with a count of one: the empty list stays empty. */
  function DropLast<T>(s: seq<T>): seq<T> {
    if s == [] then [] else s[..|s| - 1]
  }

  function MoveHead(head: Position, direction: Direction): Position {
    match direction
    case Up => head.(y := head.y - 1)
    case Down => head.(y := head.y + 1)
    case Left => head.(x := head.x - 1)
    case Right => head.(x := head.x + 1)
  }

  predicate InGrid(p: Position) {
    0 <= p.x < GRID_SIZE && 0 <= p.y < GRID_SIZE
  }

  function UpdateGame(state: GameState): GameState {
    if state.gameOver then
      state
    else
      var newHead := MoveHead(state.snake.first, state.direction);
      if newHead.x < 0 || newHead.x >= GRID_SIZE || newHead.y < 0 || newHead.y >= GRID_SIZE then
        state.(gameOver := true)
      else if Contains(state.snake, newHead) then
        state.(gameOver := true)
      else if newHead == state.food then
        state.(snake := Prepend(state.snake, newHead),
               food := Position((newHead.x + 3) % GRID_SIZE, (newHead.y + 3) % GRID_SIZE))
      else
        var grown := Prepend(state.snake, newHead);
        state.(snake := NonEmptyList(grown.first, DropLast(grown.rest)))
  }

  /** What one read from standard input changes before the move; only single bytes are keys. */
  function PressKey(state: GameState, input: seq<char>): GameState {
    if input == ['w'] then state.(direction := Up)
    else if input == ['s'] then state.(direction := Down)
    else if input == ['a'] then state.(direction := Left)
    else if input == ['d'] then state.(direction := Right)
    else if input == ['q'] then state.(gameOver := true)
    else state
  }

  /** One turn of the game loop after drawing: a key press, then an update. */
  function Turn(state: GameState, input: seq<char>): GameState {
    UpdateGame(PressKey(state, input))
  }

  /** The game loop on the inputs it gets to read; it stops reading once the game is over. */
  function GameLoop(state: GameState, inputs: seq<seq<char>>): GameState
    decreases |inputs|
  {
    if state.gameOver || inputs == [] then
      state
    else
      GameLoop(Turn(state, inputs[0]), inputs[1..])
  }

  lemma {:induction false} OneMoreInput(state: GameState, inputs: seq<seq<char>>, input: seq<char>)
    ensures GameLoop(state, inputs + [input])
         == var s := GameLoop(state, inputs); if s.gameOver then s else Turn(s, input)
    decreases |inputs|
  {
    hide Turn;
    var all := inputs + [input];
    if inputs == [] {
      assert all[1..] == [];
    } else {
      assert all[0] == inputs[0] && all[1..] == inputs[1..] + [input];
      if !state.gameOver { OneMoreInput(Turn(state, inputs[0]), inputs[1..], input); }
    }
  }

  /** What a key means to the player; any other input keeps the direction. */
  const KEYS: map<string, Direction> := map["w" := Up, "s" := Down, "a" := Left, "d" := Right]

  function Steered(s: GameState, input: string): Direction {
    if input in KEYS then KEYS[input] else s.direction
  }

  /** The cell that the player steers at. */
  function Target(s: GameState, input: string): Position {
    var x, y := s.snake.first.x, s.snake.first.y;
    match Steered(s, input)
    case Up => Position(x, y - 1)
    case Down => Position(x, y + 1)
    case Left => Position(x - 1, y)
    case Right => Position(x + 1, y)
  }

  lemma TargetIsMoved(s: GameState, input: string)
    ensures Target(s, input) == MoveHead(s.snake.first, PressKey(s, input).direction)
    ensures PressKey(s, input) == s.(direction := Steered(s, input), gameOver := s.gameOver || input == "q")
  {
    assert input == ['q'] <==> input == "q";
  }

  // ---------------------------------------------------------------------------------------------
  // An observer that watches the game from outside
  // ---------------------------------------------------------------------------------------------

  /** All head positions so far, newest first, and how often the head arrived on the food. */
  datatype Observed = Observed(state: GameState, heads: seq<Position>, hits: nat)

  const OBSERVED_START: Observed := Observed(INITIAL_STATE, [INITIAL_STATE.snake.first], 0)

  /** Completed moves: every head position but the first was moved to. */
  function Moves(o: Observed): nat
    requires o.heads != []
  {
    |o.heads| - 1
  }

  function Observe(o: Observed, input: seq<char>): Observed {
    var state' := Turn(o.state, input);
    if state'.gameOver then
      o.(state := state')
    else
      Observed(state', [state'.snake.first] + o.heads,
               o.hits + if state'.snake.first == o.state.food then 1 else 0)
  }

  function Watch(o: Observed, inputs: seq<seq<char>>): Observed
    decreases |inputs|
  {
    if o.state.gameOver || inputs == [] then o else Watch(Observe(o, inputs[0]), inputs[1..])
  }

  lemma {:induction false} WatchFollowsLoop(o: Observed, inputs: seq<seq<char>>)
    ensures Watch(o, inputs).state == GameLoop(o.state, inputs)
    decreases |inputs|
  {
    if o.state.gameOver || inputs == [] {
    } else {
      WatchFollowsLoop(Observe(o, inputs[0]), inputs[1..]);
    }
  }

  // ---------------------------------------------------------------------------------------------
  // The invariant
  // ---------------------------------------------------------------------------------------------

  function Cells(list: NonEmptyList): (s: seq<Position>)
    ensures |s| == Len(list)
    ensures forall p :: p in s <==> Contains(list, p)
  {
    [list.first] + list.rest
  }

  function Abs(n: int): nat {
    if n < 0 then -n else n
  }

  function Distance(p: Position, q: Position): nat {
    Abs(p.x - q.x) + Abs(p.y - q.y)
  }

  ghost predicate Distinct(s: seq<Position>) {
    forall i, j | 0 <= i < j < |s| :: s[i] != s[j]
  }

  /** Shape of the body: on the grid, never crossing itself, each cell next to the one before. */
  ghost predicate WellFormed(s: seq<Position>) {
    && (forall i | 0 <= i < |s| :: InGrid(s[i]))
    && Distinct(s)
    && (forall i | 0 <= i < |s| - 1 :: Distance(s[i], s[i + 1]) == 1)
  }

  /** The two cells behind the head in the initial state. */
  const INITIAL_BODY: seq<Position> := INITIAL_STATE.snake.rest

  /** Where the food is after `k` hits. */
  function FoodAfter(k: nat): Position {
    var c := (15 + 3 * k) % GRID_SIZE;
    Position(c, c)
  }

  /** How far a snake has to crawl at the least to reach the food `k + 1` times. */
  function Crawl(k: nat): nat {
    if k == 0 then 10 else Crawl(k - 1) + Distance(FoodAfter(k - 1), FoodAfter(k))
  }

  /** The body is well formed and consists of the newest head positions, then the initial body. */
  ghost predicate BodyInv(o: Observed) {
    var cells, trail := Cells(o.state.snake), o.heads + INITIAL_BODY;
    && o.heads != []
    && WellFormed(cells)
    && |cells| == 3 + o.hits <= |trail|
    && cells == trail[..3 + o.hits]
  }

  /** Where the food is, which parity the head has, and how far the snake must have crawled. */
  ghost predicate FoodInv(o: Observed) {
    var head := o.state.snake.first;
    && o.heads != []
    && o.state.food == FoodAfter(o.hits)
    && (head.x + head.y) % 2 == Moves(o) % 2
    && Moves(o) + Distance(head, o.state.food) >= Crawl(o.hits)
    && (o.hits > 0 ==> Moves(o) >= Crawl(o.hits - 1))
  }

  ghost predicate Inv(o: Observed) {
    BodyInv(o) && FoodInv(o)
  }

  lemma Start()
    ensures Inv(OBSERVED_START)
  {
    assert OBSERVED_START.heads + INITIAL_BODY == Cells(INITIAL_STATE.snake);
  }

  lemma MoveIsOneStep(head: Position, d: Direction)
    ensures var p := MoveHead(head, d);
            Distance(p, head) == 1 && (p.x + p.y) % 2 == (head.x + head.y + 1) % 2
  {
  }

  /** Extending a well-formed body at the head, or moving it, keeps it well formed. */
  lemma ExtendWellFormed(s: seq<Position>, p: Position, n: nat)
    requires WellFormed(s) && s != [] && InGrid(p) && p !in s && Distance(p, s[0]) == 1
    requires n <= |s| + 1
    ensures WellFormed(([p] + s)[..n])
  {
  }

  lemma FoodStep(k: nat)
    ensures var p := FoodAfter(k); FoodAfter(k + 1) == Position((p.x + 3) % GRID_SIZE, (p.y + 3) % GRID_SIZE)
    ensures InGrid(FoodAfter(k)) && (FoodAfter(k).x + FoodAfter(k).y) % 2 == 0
  {
  }

  lemma ParityStep(a: int, b: int)
    requires a % 2 == b % 2
    ensures (a + 1) % 2 == (b + 1) % 2
  {
  }

  /**
   * A turn that does not end the game moves the head to the cell that the player steers at, which is
   * free ground in the grid, and the snake goes on in that direction.
   */
  lemma TurnEffect(s: GameState, input: seq<char>)
    requires !s.gameOver && !Turn(s, input).gameOver
    ensures var s', ate := Turn(s, input), Target(s, input) == s.food;
            var cells, p := Cells(s.snake), Target(s, input);
            && s'.snake.first == p && s'.direction == Steered(s, input)
            && InGrid(p) && p !in cells && Distance(p, s.snake.first) == 1
            && (p.x + p.y) % 2 == (s.snake.first.x + s.snake.first.y + 1) % 2
            && Cells(s'.snake) == ([p] + cells)[..|cells| + if ate then 1 else 0]
            && s'.food == if ate then Position((p.x + 3) % GRID_SIZE, (p.y + 3) % GRID_SIZE) else s.food
  {
    hide MoveHead, Distance, InGrid, Contains, Prepend, Cells, DropLast, Target, PressKey, Steered;
    TargetIsMoved(s, input);
    var pressed := PressKey(s, input);
    assert !pressed.gameOver && pressed.snake == s.snake && pressed.food == s.food;
    hide UpdateGame;
    MoveIsOneStep(s.snake.first, pressed.direction);
    UpdateSurvived(pressed);
    var p := MoveHead(s.snake.first, pressed.direction);
    CellsMoved(s.snake, p);
    assert Contains(s.snake, p) <==> p in Cells(s.snake);
  }

  lemma UpdateSurvived(s: GameState)
    requires !s.gameOver && !UpdateGame(s).gameOver
    ensures var s', p := UpdateGame(s), MoveHead(s.snake.first, s.direction);
            && InGrid(p) && !Contains(s.snake, p)
            && s'.snake == (if p == s.food then Prepend(s.snake, p)
                            else NonEmptyList(Prepend(s.snake, p).first, DropLast(Prepend(s.snake, p).rest)))
            && s'.food == (if p == s.food then Position((p.x + 3) % GRID_SIZE, (p.y + 3) % GRID_SIZE) else s.food)
            && s'.direction == s.direction
  {
    hide MoveHead, Contains, Prepend, DropLast;
  }

  lemma CellsMoved(list: NonEmptyList, p: Position)
    ensures var grown, cells := Prepend(list, p), Cells(list);
            && grown.first == p
            && Cells(grown) == ([p] + cells)[..|cells| + 1]
            && Cells(NonEmptyList(grown.first, DropLast(grown.rest))) == ([p] + cells)[..|cells|]
  {
  }

  /**
   * A turn ends the game exactly when the player quits or steers at a cell off the grid or in the
   * body, and then the snake and the food stay as they were.  The last cell counts as body although
   * it would have moved on, and the cell behind the head makes every reversal fatal.
   */
  lemma TurnEnds(s: GameState, input: seq<char>)
    requires !s.gameOver
    ensures var p := Target(s, input);
            Turn(s, input).gameOver
            <==> input == "q" || !(0 <= p.x < 20 && 0 <= p.y < 20) || p in Cells(s.snake)
    ensures Turn(s, input).gameOver ==> Turn(s, input).snake == s.snake && Turn(s, input).food == s.food
  {
    TargetIsMoved(s, input);
    hide MoveHead, PressKey, Target, Steered;
  }

  lemma ObserveKeepsBody(o: Observed, input: seq<char>)
    requires BodyInv(o) && !o.state.gameOver
    ensures BodyInv(Observe(o, input))
  {
    hide WellFormed, Turn, Contains, Distance, InGrid, MoveHead, Target, Steered;
    TurnEnds(o.state, input);
    var o' := Observe(o, input);
    if !o'.state.gameOver {
      TurnEffect(o.state, input);
      var p, cells, n := o'.state.snake.first, Cells(o.state.snake), 3 + o'.hits;
      ExtendWellFormed(cells, p, n);
      assert o'.heads + INITIAL_BODY == [p] + (o.heads + INITIAL_BODY);
      assert ([p] + cells)[..n] == (o'.heads + INITIAL_BODY)[..n];
    }
  }

  lemma CrawlStep(k: nat)
    ensures Crawl(k + 1) == Crawl(k) + Distance(FoodAfter(k), FoodAfter(k + 1))
  {
    hide FoodAfter, Distance;
  }

  lemma DistanceOne(p: Position, q: Position, f: Position)
    requires Distance(p, q) == 1
    ensures Distance(p, f) + 1 >= Distance(q, f)
    ensures p == f ==> Distance(q, f) == 1
  {
  }

  lemma ObserveKeepsFood(o: Observed, input: seq<char>)
    requires FoodInv(o) && !o.state.gameOver
    ensures FoodInv(Observe(o, input))
  {
    hide Turn, Contains, Cells, Distance, InGrid, MoveHead, FoodAfter, Crawl, Target, Steered;
    TurnEnds(o.state, input);
    var o' := Observe(o, input);
    if !o'.state.gameOver {
      TurnEffect(o.state, input);
      FoodStep(o.hits);
      CrawlStep(o.hits);
      DistanceOne(o'.state.snake.first, o.state.snake.first, o.state.food);
      ParityStep(o.state.snake.first.x + o.state.snake.first.y, Moves(o));
      assert Moves(o') == Moves(o) + 1;
    }
  }

  lemma {:induction false} WatchKeepsInv(o: Observed, inputs: seq<seq<char>>)
    requires Inv(o)
    ensures Inv(Watch(o, inputs))
    decreases |inputs|
  {
    if o.state.gameOver || inputs == [] {
    } else {
      ObserveKeepsBody(o, inputs[0]);
      ObserveKeepsFood(o, inputs[0]);
      WatchKeepsInv(Observe(o, inputs[0]), inputs[1..]);
    }
  }
}
