/** What holds of the snake game for every sequence of inputs, from the initial state on. */
module SnakeTheorems {
  import opened Snake
  import opened SnakeScreen

  /** Everything the observer knows after any inputs is true of the state the loop is in. */
  lemma Reachable(inputs: seq<seq<char>>)
    ensures var o := Watch(OBSERVED_START, inputs);
            Inv(o) && o.state == GameLoop(INITIAL_STATE, inputs)
  {
    Start();
    WatchKeepsInv(OBSERVED_START, inputs);
    WatchFollowsLoop(OBSERVED_START, inputs);
  }

  /**
   * In every reachable state all cells are distinct, in the grid and chained by steps of one, the
   * food follows from the length alone, and the length is between 3 and 400; so the unsigned
   * score `len - 3` never underflows.  The upper bound is the screen's: its census has 400 cells.
   */
  lemma ReachableStates(inputs: seq<seq<char>>)
    ensures var s := GameLoop(INITIAL_STATE, inputs);
            && WellFormed(Cells(s.snake))
            && Len(INITIAL_STATE.snake) == 3 <= Len(s.snake) <= GRID_SIZE * GRID_SIZE
            && s.food == FoodAfter(Len(s.snake) - 3) && InGrid(s.food)
  {
    hide DrawGame, WellFormed, Distance, Crawl, FoodAfter, Watch, GameLoop;
    Reachable(inputs);
    var o := Watch(OBSERVED_START, inputs);
    FoodStep(o.hits);
    Census(o.state);
  }

  /** The exact census of the screen in every reachable state. */
  lemma ReachableCensus(inputs: seq<seq<char>>)
    ensures var s := GameLoop(INITIAL_STATE, inputs); var t := multiset(DrawGame(s));
            var stars := if Contains(s.snake, s.food) then 0 else 1;
            && |DrawGame(s)| == SCREEN_SIZE
            && t['O'] == 1 && t['o'] == Len(s.snake) - 1 && t['*'] == stars
            && t['.'] == GRID_SIZE * GRID_SIZE - Len(s.snake) - stars
  {
    ReachableStates(inputs);
    Census(GameLoop(INITIAL_STATE, inputs));
  }

  /**
   * The snake is the newest stretch of its own trail: the first `len` of all head positions,
   * newest first, followed by the two initial body cells; `len` is 3 plus the number of hits.
   */
  lemma SnakeIsItsTrail(inputs: seq<seq<char>>)
    ensures var o := Watch(OBSERVED_START, inputs); var s := GameLoop(INITIAL_STATE, inputs);
            && Len(s.snake) == 3 + o.hits <= |o.heads + INITIAL_BODY|
            && Cells(s.snake) == (o.heads + INITIAL_BODY)[..Len(s.snake)]
  {
    hide WellFormed;
    Reachable(inputs);
  }

  /** The head's parity is the parity of the completed moves, so food is eaten on even moves only. */
  lemma FoodOnEvenMoves(inputs: seq<seq<char>>, input: seq<char>)
    ensures var o := Watch(OBSERVED_START, inputs);
            && o.heads != []
            && (o.state.snake.first.x + o.state.snake.first.y) % 2 == Moves(o) % 2
    ensures var o := Watch(OBSERVED_START, inputs); var o' := Observe(o, input);
            !o.state.gameOver && o'.hits > o.hits ==> Moves(o') == Moves(o) + 1 && Moves(o') % 2 == 0
  {
    hide Turn, WellFormed, FoodAfter, Crawl, Distance;
    Reachable(inputs);
    var o := Watch(OBSERVED_START, inputs);
    var o' := Observe(o, input);
    if !o.state.gameOver && o'.hits > o.hits {
      ObserveKeepsFood(o, input);
      FoodStep(o.hits);
    }
  }

  /** New food is never closer than six steps. */
  lemma FoodHop(p: Position)
    requires InGrid(p)
    ensures Distance(p, Position((p.x + 3) % GRID_SIZE, (p.y + 3) % GRID_SIZE)) >= 6
  {
  }

  lemma {:induction false} CrawlAtLeast(k: nat)
    ensures Crawl(k) >= 10 + 6 * k
  {
    hide FoodAfter, Distance;
    if k == 0 {
    } else {
      CrawlAtLeast(k - 1);
      FoodStep(k - 1);
      FoodHop(FoodAfter(k - 1));
    }
  }

  /** Any score `k > 0` has cost at least `6 * k + 4` moves, however the player steers. */
  lemma ScoreNeedsMoves(inputs: seq<seq<char>>)
    ensures var o := Watch(OBSERVED_START, inputs); var score := Len(GameLoop(INITIAL_STATE, inputs).snake) - 3;
            score > 0 ==> o.heads != [] && Moves(o) >= 6 * score + 4
  {
    hide WellFormed, FoodAfter, Distance, Watch, GameLoop, Crawl;
    Reachable(inputs);
    var o := Watch(OBSERVED_START, inputs);
    if o.hits > 0 {
      CrawlAtLeast(o.hits - 1);
    }
  }

  function Opposite(d: Direction): Direction {
    match d
    case Up => Down
    case Down => Up
    case Left => Right
    case Right => Left
  }

  /** While the game runs, the head is one step in the current direction from the next cell. */
  ghost predicate Heading(s: GameState) {
    !s.gameOver ==> s.snake.rest != [] && s.snake.first == MoveHead(s.snake.rest[0], s.direction)
  }

  lemma {:induction false} HeadingKept(s: GameState, inputs: seq<seq<char>>)
    requires Heading(s)
    ensures Heading(GameLoop(s, inputs))
    decreases |inputs|
  {
    if s.gameOver || inputs == [] {
    } else {
      HeadingKept(Turn(s, inputs[0]), inputs[1..]);
    }
  }

  /** A running snake can never turn around: the opposite direction always ends the game. */
  lemma ReversalIsFatal(inputs: seq<seq<char>>, input: seq<char>)
    ensures var s := GameLoop(INITIAL_STATE, inputs);
            !s.gameOver && Steered(s, input) == Opposite(s.direction) ==> Turn(s, input).gameOver
  {
    HeadingKept(INITIAL_STATE, inputs);
    var s := GameLoop(INITIAL_STATE, inputs);
    TargetIsMoved(s, input);
    if !s.gameOver && Steered(s, input) == Opposite(s.direction) {
      assert MoveHead(s.snake.first, Opposite(s.direction)) == s.snake.rest[0];
    }
  }

  /** How far each key moves the head on the screen. */
  function ScreenOffset(d: Direction): int {
    match d
    case Up => -STRIDE
    case Down => STRIDE
    case Left => -1
    case Right => 1
  }

  lemma HeadOnScreen(s: GameState, i: nat)
    requires i < |DrawGame(s)| && DrawGame(s)[i] == 'O'
    ensures i == ScreenIndex(s.snake.first)
  {
    hide DrawGame, CellChar;
    ScreenLayout(s);
    IndexOfPosition(i);
    CellCharMeaning(s, PositionAt(i));
  }

  /**
   * On the screen a turn that the snake survives moves the `O` by one line or one column in the
   * direction of the key: `w` one line up, `s` one line down, `a` left, `d` right.
   */
  lemma KeysMoveTheHead(s: GameState, input: string, i: nat, j: nat)
    requires !s.gameOver && !Turn(s, input).gameOver
    requires i < |DrawGame(s)| && DrawGame(s)[i] == 'O'
    requires j < |DrawGame(Turn(s, input))| && DrawGame(Turn(s, input))[j] == 'O'
    ensures j == i + ScreenOffset(Steered(s, input))
    ensures input == "w" ==> j == i - 22
    ensures input == "s" ==> j == i + 22
    ensures input == "a" ==> j == i - 1
    ensures input == "d" ==> j == i + 1
  {
    hide DrawGame, CellChar;
    TurnEffect(s, input);
    HeadOnScreen(s, i);
    HeadOnScreen(Turn(s, input), j);
  }

  /**
   * The screen tells everything but the order of the body: two reachable states that look alike
   * have the same head, cells, length, and food, even when the snake covers the food.
   */
  lemma ScreenTells(inputs1: seq<seq<char>>, inputs2: seq<seq<char>>)
    ensures var s1, s2 := GameLoop(INITIAL_STATE, inputs1), GameLoop(INITIAL_STATE, inputs2);
            DrawGame(s1) == DrawGame(s2) ==>
              && s1.snake.first == s2.snake.first
              && Len(s1.snake) == Len(s2.snake)
              && s1.food == s2.food
              && forall p :: Contains(s1.snake, p) <==> Contains(s2.snake, p)
  {
    hide DrawGame, CellChar, Distance, Contains, GameLoop, FoodAfter, Distinct;
    var s1, s2 := GameLoop(INITIAL_STATE, inputs1), GameLoop(INITIAL_STATE, inputs2);
    ReachableStates(inputs1);
    ReachableStates(inputs2);
    ReachableCensus(inputs1);
    ReachableCensus(inputs2);
    if DrawGame(s1) == DrawGame(s2) {
      forall p
        ensures Contains(s1.snake, p) ==> Contains(s2.snake, p)
        ensures Contains(s2.snake, p) ==> Contains(s1.snake, p)
      {
        if InGrid(p) {
          SameLooks(s1, s2, p);
        }
      }
      SameLooks(s1, s2, Cells(s1.snake)[0]);
    }
  }

  lemma SameLooks(s1: GameState, s2: GameState, p: Position)
    requires DrawGame(s1) == DrawGame(s2) && InGrid(p)
    ensures Contains(s1.snake, p) <==> Contains(s2.snake, p)
    ensures p == s1.snake.first <==> p == s2.snake.first
  {
    hide DrawGame;
    CellOnScreen(s1, p);
    CellOnScreen(s2, p);
  }

  /** While the game runs every input is one move, and none is read after its end. */
  lemma {:induction false} InputsAreMoves(o: Observed, inputs: seq<seq<char>>)
    requires !o.state.gameOver
    ensures var o' := Watch(o, inputs);
            if o'.state.gameOver then |o.heads| <= |o'.heads| < |o.heads| + |inputs|
            else |o'.heads| == |o.heads| + |inputs|
    decreases |inputs|
  {
    hide Turn;
    if inputs == [] {
    } else if !Observe(o, inputs[0]).state.gameOver {
      InputsAreMoves(Observe(o, inputs[0]), inputs[1..]);
    }
  }

  /** The initial snake, moved on by `n` columns. */
  function Ahead(n: nat): GameState {
    INITIAL_STATE.(snake := NonEmptyList(Position(10 + n, 10), [Position(9 + n, 10), Position(8 + n, 10)]))
  }

  lemma TurnAhead(n: nat, input: seq<char>)
    requires n < 10 && input !in KEYS && input != "q"
    ensures Turn(Ahead(n), input) == if n < 9 then Ahead(n + 1) else Ahead(n).(gameOver := true)
  {
    TargetIsMoved(Ahead(n), input);
  }

  /**
   * Left alone, the snake starts at column 10 of line 10 and runs to the right: after nine inputs
   * that are no keys it is at the wall, and the tenth ends the game.
   */
  lemma {:induction false} LeftAlone(inputs: seq<seq<char>>)
    requires |inputs| <= 10 && forall i | 0 <= i < |inputs| :: inputs[i] !in KEYS && inputs[i] != "q"
    ensures GameLoop(INITIAL_STATE, inputs)
         == if |inputs| < 10 then Ahead(|inputs|) else Ahead(9).(gameOver := true)
    decreases |inputs|
  {
    hide Turn;
    if inputs == [] {
    } else {
      var n := |inputs| - 1;
      LeftAlone(inputs[..n]);
      OneMoreInput(INITIAL_STATE, inputs[..n], inputs[n]);
      assert inputs == inputs[..n] + [inputs[n]];
      TurnAhead(n, inputs[n]);
    }
  }
}
