/**
 * The renderer of the snake game (examples/terminal-app-snake.roc:125-149) and what the player can
 * read off the screen: a fixed layout, an exact census of the characters, and key presses that
 * move the head by fixed distances.
 */
module SnakeScreen {
  import opened Snake

  /** `Str.join_with`. */
  function JoinWith(parts: seq<string>, separator: string): string {
    if parts == [] then ""
    else if |parts| == 1 then parts[0]
    else parts[0] + separator + JoinWith(parts[1..], separator)
  }

  function CellChar(state: GameState, pos: Position): char {
    if Contains(state.snake, pos) then
      if pos == state.snake.first then 'O' else 'o'
    else if pos == state.food then '*'
    else '.'
  }

  function DrawLine(state: GameState, y: int): string {
    JoinWith(seq(GRID_SIZE, x => [CellChar(state, Position(x, y))]), "")
  }

  function DrawGame(state: GameState): string {
    JoinWith(seq(GRID_SIZE, y => DrawLine(state, y)), "\r\n")
  }

  // ---------------------------------------------------------------------------------------------
  // Layout
  // ---------------------------------------------------------------------------------------------

  /** A drawn line and its line break. */
  const STRIDE: int := 22

  const SCREEN_SIZE: int := 438

  /** Where line `y` begins on the screen. */
  function LineStart(y: int): int {
    22 * y
  }

  /** Where the screen shows a grid position. */
  function ScreenIndex(p: Position): int {
    LineStart(p.y) + p.x
  }

  lemma {:induction false} JoinSingles(parts: seq<string>)
    requires forall i | 0 <= i < |parts| :: |parts[i]| == 1
    ensures |JoinWith(parts, "")| == |parts|
    ensures forall i | 0 <= i < |parts| :: JoinWith(parts, "")[i] == parts[i][0]
  {
    if |parts| <= 1 {
    } else {
      JoinSingles(parts[1..]);
      assert parts[0] + "" == parts[0];
    }
  }

  lemma SliceBehind(a: string, b: string, i: nat, j: nat)
    requires i <= j <= |b|
    ensures (a + b)[|a| + i..|a| + j] == b[i..j]
  {
  }

  lemma JoinStep(lines: seq<string>, separator: string)
    requires lines != []
    ensures JoinWith(lines, separator)
         == if |lines| == 1 then lines[0] else lines[0] + separator + JoinWith(lines[1..], separator)
  {
  }

  lemma FirstLine(line: string, rest: string)
    requires |line| == GRID_SIZE
    ensures var t := line + "\r\n" + rest;
            t[..GRID_SIZE] == line && t[GRID_SIZE..STRIDE] == "\r\n"
  {
  }

  /** Joining full lines puts line `k` at `k` strides, followed by its line break. */
  lemma {:induction false} JoinLines(lines: seq<string>, k: nat)
    requires forall i | 0 <= i < |lines| :: |lines[i]| == GRID_SIZE
    requires k < |lines|
    ensures var t, at := JoinWith(lines, "\r\n"), LineStart(k);
            && |t| == LineStart(|lines|) - 2
            && t[at..at + GRID_SIZE] == lines[k]
            && (k + 1 < |lines| ==> t[at + GRID_SIZE..at + STRIDE] == "\r\n")
  {
    hide JoinWith;
    JoinStep(lines, "\r\n");
    if |lines| <= 1 {
    } else {
      var first, rest := lines[0] + "\r\n", JoinWith(lines[1..], "\r\n");
      JoinLines(lines[1..], if k == 0 then 0 else k - 1);
      if k > 0 {
        var at := LineStart(k - 1);
        SliceBehind(first, rest, at, at + GRID_SIZE);
        if k + 1 < |lines| {
          SliceBehind(first, rest, at + GRID_SIZE, at + STRIDE);
        }
      } else {
        FirstLine(lines[0], rest);
      }
    }
  }

  lemma LineLayout(state: GameState, y: int)
    ensures |DrawLine(state, y)| == GRID_SIZE
    ensures forall x | 0 <= x < GRID_SIZE :: DrawLine(state, y)[x] == CellChar(state, Position(x, y))
  {
    JoinSingles(seq(GRID_SIZE, x => [CellChar(state, Position(x, y))]));
  }

  lemma LineOnScreen(state: GameState, y: nat)
    requires y < GRID_SIZE
    ensures |DrawGame(state)| == SCREEN_SIZE
    ensures DrawGame(state)[LineStart(y)..LineStart(y) + GRID_SIZE] == DrawLine(state, y)
    ensures y < GRID_SIZE - 1 ==> DrawGame(state)[LineStart(y) + GRID_SIZE..LineStart(y) + STRIDE] == "\r\n"
  {
    hide DrawLine, JoinWith;
    var lines := seq(GRID_SIZE, i => DrawLine(state, i));
    forall i | 0 <= i < GRID_SIZE
      ensures |lines[i]| == GRID_SIZE
    {
      LineLayout(state, i);
    }
    JoinLines(lines, y);
  }

  lemma CellOnScreen(state: GameState, p: Position)
    requires InGrid(p)
    ensures 0 <= ScreenIndex(p) < |DrawGame(state)|
    ensures DrawGame(state)[ScreenIndex(p)] == CellChar(state, p)
  {
    hide DrawLine, DrawGame, CellChar;
    LineOnScreen(state, p.y);
    LineLayout(state, p.y);
    assert DrawGame(state)[ScreenIndex(p)] == DrawGame(state)[LineStart(p.y)..LineStart(p.y) + GRID_SIZE][p.x];
  }

  lemma BreakOnScreen(state: GameState, y: nat)
    requires y < GRID_SIZE - 1
    ensures |DrawGame(state)| == SCREEN_SIZE
    ensures DrawGame(state)[LineStart(y) + GRID_SIZE] == '\r' && DrawGame(state)[LineStart(y) + GRID_SIZE + 1] == '\n'
  {
    hide DrawLine, DrawGame;
    LineOnScreen(state, y);
    var gap := DrawGame(state)[LineStart(y) + GRID_SIZE..LineStart(y) + STRIDE];
    assert gap[0] == '\r' && gap[1] == '\n';
  }

  /** The grid position at index `i` of the screen; columns 20 and 21 are the line break. */
  function PositionAt(i: nat): Position {
    Position(i % 22, i / 22)
  }

  lemma PositionOfIndex(p: Position)
    requires InGrid(p)
    ensures 0 <= ScreenIndex(p) < SCREEN_SIZE && PositionAt(ScreenIndex(p)) == p
  {
  }

  lemma IndexOfPosition(i: nat)
    requires i < SCREEN_SIZE
    ensures var p := PositionAt(i);
            && ScreenIndex(p) == i
            && 0 <= p.y < GRID_SIZE && 0 <= p.x < STRIDE
            && (p.y == GRID_SIZE - 1 ==> p.x < GRID_SIZE)
  {
  }

  /** The character that belongs at a screen position. */
  function Expected(state: GameState, p: Position): char {
    if p.x == GRID_SIZE then '\r' else if p.x == GRID_SIZE + 1 then '\n' else CellChar(state, p)
  }

  /** For every state: 20 lines of 20 cells, separated by carriage return and line feed. */
  lemma ScreenLayout(state: GameState)
    ensures |DrawGame(state)| == SCREEN_SIZE
    ensures forall i | 0 <= i < SCREEN_SIZE :: DrawGame(state)[i] == Expected(state, PositionAt(i))
  {
    hide DrawGame, CellChar, PositionAt;
    LineOnScreen(state, 0);
    forall i | 0 <= i < SCREEN_SIZE
      ensures DrawGame(state)[i] == Expected(state, PositionAt(i))
    {
      IndexOfPosition(i);
      var p := PositionAt(i);
      if p.x < GRID_SIZE {
        CellOnScreen(state, p);
      } else {
        BreakOnScreen(state, p.y);
      }
    }
  }

  // ---------------------------------------------------------------------------------------------
  // Census
  // ---------------------------------------------------------------------------------------------

  ghost predicate AllDifferent(s: seq<int>) {
    forall i, j | 0 <= i < j < |s| :: s[i] != s[j]
  }

  lemma {:induction false} SizeOfDifferent(s: seq<int>)
    requires AllDifferent(s)
    ensures |set i | i in s| == |s|
  {
    if s == [] {
    } else {
      var rest, last := s[..|s| - 1], s[|s| - 1];
      SizeOfDifferent(rest);
      assert (set i | i in s) == (set i | i in rest) + {last};
    }
  }

  /** The indices at which `c` stands in `t`. */
  ghost function IndicesOf(t: string, c: char): (s: set<int>)
    ensures forall i :: i in s <==> 0 <= i < |t| && t[i] == c
  {
    set i | 0 <= i < |t| && t[i] == c
  }

  lemma {:induction false} CountByIndex(t: string, c: char)
    ensures multiset(t)[c] == |IndicesOf(t, c)|
  {
    if t == "" {
      assert IndicesOf(t, c) == {};
    } else {
      var n := |t| - 1;
      CountByIndex(t[..n], c);
      assert t == t[..n] + [t[n]];
      assert IndicesOf(t, c) == IndicesOf(t[..n], c) + if t[n] == c then {n} else {};
    }
  }

  /** If `places` lists without repetition where `c` stands in `t`, it stands there `|places|` times. */
  lemma CountByPlaces(t: string, c: char, places: seq<int>)
    requires AllDifferent(places)
    requires forall i :: i in places <==> 0 <= i < |t| && t[i] == c
    ensures multiset(t)[c] == |IndicesOf(t, c)| == |places|
  {
    CountByIndex(t, c);
    SizeOfDifferent(places);
    assert IndicesOf(t, c) == set i | i in places;
  }

  /** Character `c` stands exactly at the distinct grid positions `ps`, so it occurs `|ps|` times. */
  lemma CountCells(state: GameState, c: char, ps: seq<Position>)
    requires c != '\r' && c != '\n' && Distinct(ps)
    requires forall p :: p in ps <==> InGrid(p) && CellChar(state, p) == c
    ensures multiset(DrawGame(state))[c] == |IndicesOf(DrawGame(state), c)| == |ps|
  {
    hide DrawGame, CellChar, PositionAt, ScreenIndex;
    var t, places := DrawGame(state), seq(|ps|, j requires 0 <= j < |ps| => ScreenIndex(ps[j]));
    ScreenLayout(state);
    forall j | 0 <= j < |ps|
      ensures 0 <= places[j] < SCREEN_SIZE && PositionAt(places[j]) == ps[j]
    {
      assert ps[j] in ps;
      PositionOfIndex(ps[j]);
    }
    forall i | 0 <= i < SCREEN_SIZE && t[i] == c
      ensures i in places
    {
      var p := PositionAt(i);
      IndexOfPosition(i);
      var j :| 0 <= j < |ps| && ps[j] == p;
      assert places[j] == i;
    }
    forall i | i in places
      ensures 0 <= i < SCREEN_SIZE && t[i] == c
    {
      var j :| 0 <= j < |ps| && places[j] == i;
      assert ps[j] in ps && t[i] == Expected(state, ps[j]);
    }
    CountByPlaces(t, c, places);
  }

  lemma CellCharMeaning(state: GameState, p: Position)
    ensures CellChar(state, p) in {'O', 'o', '*', '.'}
    ensures CellChar(state, p) == 'O' <==> p == state.snake.first
    ensures CellChar(state, p) == 'o' <==> p != state.snake.first && p in state.snake.rest
    ensures CellChar(state, p) == '*' <==> p == state.food && p !in Cells(state.snake)
  {
  }

  /** The snake's own characters: one head, and one `o` for every other cell of the body. */
  lemma SnakeCensus(state: GameState)
    requires WellFormed(Cells(state.snake))
    ensures multiset(DrawGame(state))['O'] == |IndicesOf(DrawGame(state), 'O')| == 1
    ensures multiset(DrawGame(state))['o'] == |IndicesOf(DrawGame(state), 'o')| == Len(state.snake) - 1
  {
    hide DrawGame, CellChar, Distance;
    var cells, head, rest := Cells(state.snake), state.snake.first, state.snake.rest;
    assert rest == cells[1..] && head == cells[0];
    forall p
      ensures p in [head] <==> InGrid(p) && CellChar(state, p) == 'O'
      ensures p in rest <==> InGrid(p) && CellChar(state, p) == 'o'
    {
      CellCharMeaning(state, p);
    }
    assert Distinct(rest);
    CountCells(state, 'O', [head]);
    CountCells(state, 'o', rest);
  }

  /** The food is on the screen exactly when the snake does not cover it. */
  lemma FoodCensus(state: GameState)
    requires InGrid(state.food)
    ensures multiset(DrawGame(state))['*'] == |IndicesOf(DrawGame(state), '*')|
         == if Contains(state.snake, state.food) then 0 else 1
  {
    hide DrawGame, CellChar;
    var ps := if Contains(state.snake, state.food) then [] else [state.food];
    forall p
      ensures p in ps <==> InGrid(p) && CellChar(state, p) == '*'
    {
      CellCharMeaning(state, p);
    }
    CountCells(state, '*', ps);
  }

  /** Nineteen line breaks, for every state. */
  lemma BreakCensus(state: GameState, c: char, column: int)
    requires (c == '\r' && column == GRID_SIZE) || (c == '\n' && column == GRID_SIZE + 1)
    ensures |IndicesOf(DrawGame(state), c)| == GRID_SIZE - 1
  {
    hide DrawGame, CellChar, PositionAt;
    var t, places := DrawGame(state), seq(GRID_SIZE - 1, y => LineStart(y) + column);
    ScreenLayout(state);
    forall i | 0 <= i < SCREEN_SIZE
      ensures t[i] == c <==> PositionAt(i).x == column
    {
      IndexOfPosition(i);
      CellCharMeaning(state, PositionAt(i));
    }
    forall i | 0 <= i < |t| && t[i] == c
      ensures i in places
    {
      IndexOfPosition(i);
      assert i == places[PositionAt(i).y];
    }
    forall i | i in places
      ensures 0 <= i < |t| && t[i] == c
    {
      BreakPosition(i, column);
    }
    CountByPlaces(t, c, places);
  }

  lemma BreakPosition(i: int, column: int)
    requires GRID_SIZE <= column <= GRID_SIZE + 1
    requires exists y :: 0 <= y < GRID_SIZE - 1 && i == LineStart(y) + column
    ensures 0 <= i < SCREEN_SIZE && PositionAt(i).x == column
  {
  }

  /** The six characters of the screen account for every index once. */
  lemma Partition(t: string)
    requires forall i | 0 <= i < |t| :: t[i] in {'O', 'o', '*', '.', '\r', '\n'}
    ensures |IndicesOf(t, 'O')| + |IndicesOf(t, 'o')| + |IndicesOf(t, '*')| + |IndicesOf(t, '.')|
          + |IndicesOf(t, '\r')| + |IndicesOf(t, '\n')| == |t|
  {
    var all := seq(|t|, i => i);
    SizeOfDifferent(all);
    forall i | 0 <= i < |t|
      ensures i in all
    {
      assert all[i] == i;
    }
    var snake := IndicesOf(t, 'O') + IndicesOf(t, 'o');
    var ground := IndicesOf(t, '*') + IndicesOf(t, '.');
    var breaks := IndicesOf(t, '\r') + IndicesOf(t, '\n');
    assert (set i | i in all) == (snake + ground) + breaks;
  }

  /**
   * The census of the whole screen: 438 characters; exactly one head, one `o` per further body
   * cell, one `*` unless the snake covers the food, and dots on all other cells of the grid.
   */
  lemma Census(state: GameState)
    requires WellFormed(Cells(state.snake)) && InGrid(state.food)
    ensures var t, n := multiset(DrawGame(state)), Len(state.snake);
            var stars := if Contains(state.snake, state.food) then 0 else 1;
            && |DrawGame(state)| == SCREEN_SIZE
            && t['O'] == 1 && t['o'] == n - 1 && t['*'] == stars
            && t['.'] == GRID_SIZE * GRID_SIZE - n - stars
  {
    hide DrawGame, CellChar, PositionAt, WellFormed, Contains;
    var t := DrawGame(state);
    ScreenLayout(state);
    SnakeCensus(state);
    FoodCensus(state);
    BreakCensus(state, '\r', GRID_SIZE);
    BreakCensus(state, '\n', GRID_SIZE + 1);
    forall i | 0 <= i < |t|
      ensures t[i] in {'O', 'o', '*', '.', '\r', '\n'}
    {
      CellCharMeaning(state, PositionAt(i));
    }
    Partition(t);
    CountByIndex(t, '.');
  }
}
