// The terminal as the kernel holds it (output/vt100.c): a grid of cells changed in place byte by byte, with a
// mark on every row that has to be drawn again.
module Terminals {
  import opened Vt100

  /** The cells of a grid, row by row. */
  ghost function GridOf(a: array2<Cell>): (g: Grid)
    requires a.Length0 == ROWS && a.Length1 == COLUMNS
    reads a
    ensures GridOk(g) && forall r, c :: 0 <= r < ROWS && 0 <= c < COLUMNS ==> g[r][c] == a[r, c]
  {
    seq(ROWS, r requires 0 <= r < ROWS reads a => seq(COLUMNS, c requires 0 <= c < COLUMNS reads a => a[r, c]))
  }

  /** A grid is known by its cells. */
  lemma GridIs(a: array2<Cell>, g: Grid)
    requires a.Length0 == ROWS && a.Length1 == COLUMNS && GridOk(g)
    requires forall r, c :: 0 <= r < ROWS && 0 <= c < COLUMNS ==> a[r, c] == g[r][c]
    ensures GridOf(a) == g
  {
    forall r | 0 <= r < ROWS ensures GridOf(a)[r] == g[r] { assert |GridOf(a)[r]| == |g[r]|; }
  }

  /** A row without a mark has not changed, and marks stay. */
  ghost predicate Marked(before: Grid, marks: seq<bool>, after: Grid, marks': seq<bool>) {
    && |before| == |marks| == |after| == |marks'| == ROWS
    && forall r :: 0 <= r < ROWS && !marks'[r] ==> !marks[r] && after[r] == before[r]
  }

  // ----- moving cells about -----

  method SetCell(a: array2<Cell>, r: nat, c: nat, cell: Cell)
    requires a.Length0 == ROWS && a.Length1 == COLUMNS && r < ROWS && c < COLUMNS
    modifies a
    ensures GridOf(a) == old(GridOf(a))[r := old(GridOf(a))[r][c := cell]]
  {
    ghost var g := GridOf(a);
    a[r, c] := cell;
    GridIs(a, g[r := g[r][c := cell]]);
  }

  method CopyRow(a: array2<Cell>, to: nat, from: nat)
    requires a.Length0 == ROWS && a.Length1 == COLUMNS && to < ROWS && from < ROWS && to != from
    modifies a
    ensures GridOf(a) == old(GridOf(a))[to := old(GridOf(a))[from]]
  {
    ghost var g := GridOf(a);
    var column := 0;
    while column < COLUMNS
      invariant column <= COLUMNS
      invariant forall r, c :: 0 <= r < ROWS && 0 <= c < COLUMNS ==>
        a[r, c] == if r == to && c < column then g[from][c] else g[r][c]
    {
      a[to, column] := a[from, column];
      column := column + 1;
    }
    GridIs(a, g[to := g[from]]);
  }

  method CopyCells(to: array2<Cell>, from: array2<Cell>)
    requires to.Length0 == from.Length0 == ROWS && to.Length1 == from.Length1 == COLUMNS && to != from
    modifies to
    ensures GridOf(to) == GridOf(from)
  {
    var row := 0;
    while row < ROWS
      invariant row <= ROWS
      invariant forall r, c :: 0 <= r < row && 0 <= c < COLUMNS ==> to[r, c] == from[r, c]
    {
      var column := 0;
      while column < COLUMNS
        invariant column <= COLUMNS
        invariant forall r, c :: 0 <= r < row && 0 <= c < COLUMNS ==> to[r, c] == from[r, c]
        invariant forall c :: 0 <= c < column ==> to[row, c] == from[row, c]
      {
        to[row, column] := from[row, column];
        column := column + 1;
      }
      row := row + 1;
    }
    GridIs(to, GridOf(from));
  }

  /** The columns from `from` up to `to` of one row become blank. */
  method BlankCells(a: array2<Cell>, r: nat, from: nat, to: nat, blank: Cell)
    requires a.Length0 == ROWS && a.Length1 == COLUMNS && r < ROWS && from <= to <= COLUMNS
    modifies a
    ensures GridOf(a) == old(GridOf(a))[r := Erased(old(GridOf(a))[r], from, to, blank)]
  {
    ghost var g := GridOf(a);
    var column := from;
    while column < to
      invariant from <= column <= to
      invariant forall k, c :: 0 <= k < ROWS && 0 <= c < COLUMNS ==>
        a[k, c] == if k == r && from <= c < column then blank else g[k][c]
    {
      a[r, column] := blank;
      column := column + 1;
    }
    GridIs(a, g[r := Erased(g[r], from, to, blank)]);
  }

  method MoveRowsUp(a: array2<Cell>, row: nat, amount: nat)
    requires a.Length0 == ROWS && a.Length1 == COLUMNS && 1 <= amount && row + amount <= ROWS
    modifies a
    ensures GridOf(a) == MovedUp(old(GridOf(a)), row, amount, ROWS - amount)
  {
    ghost var g := GridOf(a);
    var target := row;
    while target < ROWS - amount
      invariant row <= target <= ROWS - amount && GridOf(a) == MovedUp(g, row, amount, target)
    {
      CopyRow(a, target, target + amount);
      target := target + 1;
    }
  }

  method MoveRowsDown(a: array2<Cell>, row: nat, amount: nat)
    requires a.Length0 == ROWS && a.Length1 == COLUMNS && 1 <= amount && row + amount <= ROWS
    modifies a
    ensures GridOf(a) == MovedDown(old(GridOf(a)), amount, row + amount)
  {
    ghost var g := GridOf(a);
    var target: nat := ROWS;
    while target > row + amount
      invariant row + amount <= target <= ROWS && GridOf(a) == MovedDown(g, amount, target)
    {
      target := target - 1;
      CopyRow(a, target, target - amount);
    }
  }

  /** One step of moving the cells of a row, of which `row` is what they are and `then_row` what they become. */
  method CopyCell(a: array2<Cell>, r: nat, to: nat, from: nat, ghost g: Grid, ghost row: Row, ghost then_row: Row)
    requires a.Length0 == ROWS && a.Length1 == COLUMNS && r < ROWS && to < COLUMNS && from < COLUMNS && GridOk(g)
    requires |row| == COLUMNS && GridOf(a) == g[r := row] && then_row == row[to := row[from]]
    modifies a
    ensures GridOf(a) == g[r := then_row]
  {
    assert GridOf(a)[r] == row && a[r, from] == row[from];
    SetCell(a, r, to, a[r, from]);
    assert g[r := row][r := then_row] == g[r := then_row];
  }

  method MoveCellsLeft(a: array2<Cell>, r: nat, column: nat, amount: nat)
    requires a.Length0 == ROWS && a.Length1 == COLUMNS && r < ROWS && 1 <= amount && column + amount <= COLUMNS
    modifies a
    ensures GridOf(a) == old(GridOf(a))[r := MovedUp(old(GridOf(a))[r], column, amount, COLUMNS - amount)]
  {
    ghost var g := GridOf(a);
    assert MovedUp(g[r], column, amount, column) == g[r] && g[r := g[r]] == g;
    var target := column;
    while target < COLUMNS - amount
      invariant column <= target <= COLUMNS - amount && GridOf(a) == g[r := MovedUp(g[r], column, amount, target)]
    {
      MovedUpStep(g[r], column, amount, target);
      CopyCell(a, r, target, target + amount, g, MovedUp(g[r], column, amount, target),
          MovedUp(g[r], column, amount, target + 1));
      target := target + 1;
    }
  }

  method MoveCellsRight(a: array2<Cell>, r: nat, column: nat, amount: nat)
    requires a.Length0 == ROWS && a.Length1 == COLUMNS && r < ROWS && 1 <= amount && column + amount <= COLUMNS
    modifies a
    ensures GridOf(a) == old(GridOf(a))[r := MovedDown(old(GridOf(a))[r], amount, column + amount)]
  {
    ghost var g := GridOf(a);
    assert MovedDown(g[r], amount, COLUMNS) == g[r] && g[r := g[r]] == g;
    var target: nat := COLUMNS;
    while target > column + amount
      invariant column + amount <= target <= COLUMNS && GridOf(a) == g[r := MovedDown(g[r], amount, target)]
    {
      target := target - 1;
      MovedDownStep(g[r], amount, target);
      CopyCell(a, r, target, target - amount, g, MovedDown(g[r], amount, target + 1), MovedDown(g[r], amount, target));
    }
  }

  /** Moving up is under way: the elements from `from` up to `target` have moved by n. */
  ghost function MovedUp<T>(s: seq<T>, from: nat, n: nat, target: nat): (r: seq<T>)
    requires from <= target && target + n <= |s|
    ensures |r| == |s| && forall k :: 0 <= k < |s| ==> r[k] == if from <= k < target then s[k + n] else s[k]
  {
    s[..from] + s[from + n..target + n] + s[target..]
  }

  /** Moving down is under way: the elements from `target` on have moved by n. */
  ghost function MovedDown<T>(s: seq<T>, n: nat, target: nat): (r: seq<T>)
    requires n <= target <= |s|
    ensures |r| == |s| && forall k :: 0 <= k < |s| ==> r[k] == if k < target then s[k] else s[k - n]
  {
    s[..target] + s[target - n..|s| - n]
  }

  lemma MovedUpStep<T>(s: seq<T>, from: nat, n: nat, target: nat)
    requires from <= target && target + n < |s|
    ensures MovedUp(s, from, n, target)[target + n] == s[target + n]
    ensures MovedUp(s, from, n, target)[target := s[target + n]] == MovedUp(s, from, n, target + 1)
  {
  }

  lemma MovedDownStep<T>(s: seq<T>, n: nat, target: nat)
    requires n <= target < |s|
    ensures MovedDown(s, n, target + 1)[target - n] == s[target - n]
    ensures MovedDown(s, n, target + 1)[target := s[target - n]] == MovedDown(s, n, target)
  {
  }

  // ----- the terminal -----

  class Terminal {
    const cells: array2<Cell>
    const saved_cells: array2<Cell>
    const parameters: array<int>
    const dirty_rows: array<bool>
    var cursor_row: int
    var cursor_column: int
    var saved_row: int
    var saved_column: int
    var pen: Pen
    var cursor_visible: bool
    var autowrap: bool
    var wrap_pending: bool
    var parser_state: Parser
    var private_sequence: bool
    var parameter_count: nat
    var alternate_active: bool
    var primary: Primary

    ghost predicate Shape() {
      && cells.Length0 == saved_cells.Length0 == dirty_rows.Length == ROWS
      && cells.Length1 == saved_cells.Length1 == COLUMNS
      && parameters.Length == MAX_PARAMETERS && cells != saved_cells
    }

    ghost function Repr(): set<object> { {this, cells, saved_cells, parameters, dirty_rows} }

    ghost function State(): Term
      requires Shape() && parameter_count <= MAX_PARAMETERS
      reads this, cells, saved_cells, parameters
    {
      Term(GridOf(cells), GridOf(saved_cells), cursor_row, cursor_column, saved_row, saved_column, pen, cursor_visible,
          autowrap,
           wrap_pending, parser_state, private_sequence, parameters[..parameter_count], alternate_active, primary)
    }

    ghost predicate Valid()
      reads this, cells, saved_cells, parameters
    {
      Shape() && parameter_count <= MAX_PARAMETERS && Ok(State())
    }

    /** Every row that differs from `before` is marked, and no mark of `marks` is gone. */
    ghost predicate MarkedSince(before: Grid, marks: seq<bool>)
      requires Shape()
      reads cells, dirty_rows
    {
      Marked(before, marks, GridOf(cells), dirty_rows[..])
    }

    constructor ()
      ensures Valid() && fresh(Repr()) && State().cells == BlankRows(ROWS, Blank(PLAIN)) && State().parser.Ground?
      ensures !State().alternate_active
    {
      var blank := Cell(32, DEFAULT_FOREGROUND, DEFAULT_BACKGROUND, Attributes(false, false, false));
      cells := new Cell[ROWS, COLUMNS]((_, _) => blank);
      saved_cells := new Cell[ROWS, COLUMNS]((_, _) => blank);
      parameters := new int[MAX_PARAMETERS](_ => 0);
      dirty_rows := new bool[ROWS](_ => false);
      pen := PLAIN;
      primary := Primary(0, 0, 0, 0, PLAIN, true, true);
      parameter_count, cursor_row, cursor_column := 0, 0, 0;
      new;
      Init();
    }

    // ----- marks -----

    method MarkRows(from: nat)
      requires Shape() && from <= ROWS
      modifies dirty_rows
      ensures forall r :: 0 <= r < ROWS ==> dirty_rows[r] == (r >= from || old(dirty_rows[r]))
    {
      var row := from;
      while row < ROWS
        invariant from <= row <= ROWS
        invariant forall r :: 0 <= r < ROWS ==> dirty_rows[r] == (from <= r < row || old(dirty_rows[r]))
      {
        dirty_rows[row] := true;
        row := row + 1;
      }
    }

    // ----- clearing and erasing -----

    /** clear_line on the rows from `from` up to `to`. */
    method ClearLines(from: nat, to: nat)
      requires Valid() && from <= to <= ROWS
      modifies cells, dirty_rows
      ensures Valid() && State() == old(State()).(cells := ErasedRows(old(State().cells), from, to, Blank(pen)))
      ensures forall r :: 0 <= r < ROWS ==> dirty_rows[r] == (from <= r < to || old(dirty_rows[r]))
    {
      ghost var g := GridOf(cells);
      ErasedNone(g, from, Blank(pen));
      var row := from;
      while row < to
        invariant from <= row <= to && GridOf(cells) == ErasedRows(g, from, row, Blank(pen))
        invariant forall r :: 0 <= r < ROWS ==> dirty_rows[r] == (from <= r < row || old(dirty_rows[r]))
      {
        ErasedMore(g, from, row, Blank(pen));
        BlankCells(cells, row, 0, COLUMNS, Blank(pen));
        dirty_rows[row] := true;
        row := row + 1;
      }
    }

    /** kvt_clear. */
    method Clear()
      requires Valid()
      modifies `cursor_row, `cursor_column, `wrap_pending, cells, dirty_rows
      ensures Valid() && State() == Cleared(old(State()))
      ensures forall r :: 0 <= r < ROWS ==> dirty_rows[r]
    {
      cursor_row, cursor_column, wrap_pending := 0, 0, false;
      ErasedAll(GridOf(cells), Blank(pen));
      ClearLines(0, ROWS);
    }

    /** kvt_init. */
    method Init()
      requires Valid()
      modifies this, cells, dirty_rows
      ensures Valid() && State() == Reset(old(State()))
      ensures forall r :: 0 <= r < ROWS ==> dirty_rows[r]
    {
      hide Cleared, Initial, Ok, GridOk, GridOf;
      InitModes();
      Clear();
    }

    method InitModes()
      requires Valid()
      modifies this
      ensures Valid() && State() == Initial(old(State()))
    {
      hide GridOk, GridOf;
      ghost var g, saved := GridOf(cells), GridOf(saved_cells);
      pen, cursor_visible, autowrap, parser_state := PLAIN, true, true, Ground;
      parameter_count, private_sequence, alternate_active, saved_row, saved_column := 0, false, false, 0, 0;
      assert parameters[..parameter_count] == [] && GridOf(cells) == g && GridOf(saved_cells) == saved;
    }

    method EraseLine(mode: int)
      requires Valid()
      modifies cells, dirty_rows
      ensures Valid() && State() == LineErased(old(State()), mode)
      ensures MarkedSince(old(State().cells), old(dirty_rows[..]))
    {
      var first := if mode == 0 then cursor_column else 0;
      var last := if mode == 1 then cursor_column else COLUMNS - 1;
      if mode == 2 { first, last := 0, COLUMNS - 1; }
      BlankCells(cells, cursor_row, first, last + 1, Blank(pen));
      dirty_rows[cursor_row] := true;
    }

    method EraseDisplay(mode: int)
      requires Valid()
      modifies cells, dirty_rows
      ensures Valid() && State() == DisplayErased(old(State()), mode)
      ensures MarkedSince(old(State().cells), old(dirty_rows[..]))
    {
      if mode == 2 || mode == 3 {
        ErasedAll(GridOf(cells), Blank(pen));
        ClearLines(0, ROWS);
      } else if mode == 0 {
        EraseBelow();
      } else if mode == 1 {
        EraseAbove();
      }
    }

    method EraseBelow()
      requires Valid()
      modifies cells, dirty_rows
      ensures Valid() && State() == DisplayErased(old(State()), 0)
      ensures MarkedSince(old(State().cells), old(dirty_rows[..]))
    {
      EraseLine(0);
      ErasedElsewhere(GridOf(cells), cursor_row + 1, ROWS, Blank(pen));
      hide LineErased, ErasedRows, Inked;
      ClearLines(cursor_row + 1, ROWS);
    }

    method EraseAbove()
      requires Valid()
      modifies cells, dirty_rows
      ensures Valid() && State() == DisplayErased(old(State()), 1)
      ensures MarkedSince(old(State().cells), old(dirty_rows[..]))
    {
      ErasedElsewhere(GridOf(cells), 0, cursor_row, Blank(pen));
      hide LineErased, ErasedRows, Inked;
      ClearLines(0, cursor_row);
      EraseLine(1);
    }

    /** Command X. */
    method EraseCharacters(amount: nat)
      requires Valid()
      modifies cells, dirty_rows
      ensures Valid() && State() == CharactersErased(old(State()), amount)
      ensures MarkedSince(old(State().cells), old(dirty_rows[..]))
    {
      BlankCells(cells, cursor_row, cursor_column, Least(cursor_column + amount, COLUMNS), Blank(pen));
      dirty_rows[cursor_row] := true;
    }

    // ----- scrolling, inserting and deleting -----

    method ScrollUp(amount: nat)
      requires Valid()
      modifies cells, dirty_rows
      ensures Valid() && State() == ScrolledUp(old(State()), amount) && forall r :: 0 <= r < ROWS ==> dirty_rows[r]
    {
      ghost var g := GridOf(cells);
      ScrollNone(g, Blank(pen));
      var done := 0;
      while done < amount
        invariant done <= amount && GridOf(cells) == RowsUp(g, 0, Least(done, ROWS), Blank(pen))
      {
        ScrollUpMore(g, done, Blank(pen));
        MoveRowsUp(cells, 0, 1);
        ClearLines(ROWS - 1, ROWS);
        done := done + 1;
      }
      MarkRows(0);
    }

    method ScrollDown(amount: nat)
      requires Valid()
      modifies cells, dirty_rows
      ensures Valid() && State() == ScrolledDown(old(State()), amount) && forall r :: 0 <= r < ROWS ==> dirty_rows[r]
    {
      ghost var g := GridOf(cells);
      ScrollNone(g, Blank(pen));
      var done := 0;
      while done < amount
        invariant done <= amount && GridOf(cells) == RowsDown(g, 0, Least(done, ROWS), Blank(pen))
      {
        ScrollDownMore(g, done, Blank(pen));
        MoveRowsDown(cells, 0, 1);
        ClearLines(0, 1);
        done := done + 1;
      }
      MarkRows(0);
    }

    method InsertLines(amount: int)
      requires Valid()
      modifies cells, dirty_rows
      ensures Valid() && State() == LinesInserted(old(State()), amount)
      ensures MarkedSince(old(State().cells), old(dirty_rows[..]))
    {
      var n := Clamp(amount, 1, ROWS - cursor_row);
      hide RowsUp, RowsDown, ErasedRows, MovedUp, MovedDown, Inked, GridOf, LinesInserted, LinesDeleted, BlankRows;
      LinesInsertedIs(State(), amount, n);
      MoveRowsDown(cells, cursor_row, n);
      ClearLines(cursor_row, cursor_row + n);
      MarkRows(cursor_row);
    }

    method DeleteLines(amount: int)
      requires Valid()
      modifies cells, dirty_rows
      ensures Valid() && State() == LinesDeleted(old(State()), amount)
      ensures MarkedSince(old(State().cells), old(dirty_rows[..]))
    {
      var n := Clamp(amount, 1, ROWS - cursor_row);
      hide RowsUp, RowsDown, ErasedRows, MovedUp, MovedDown, Inked, GridOf, LinesInserted, LinesDeleted, BlankRows;
      LinesDeletedIs(State(), amount, n);
      MoveRowsUp(cells, cursor_row, n);
      ClearLines(ROWS - n, ROWS);
      MarkRows(cursor_row);
    }

    method InsertCharacters(amount: int)
      requires Valid()
      modifies cells, dirty_rows
      ensures Valid() && State() == CharactersInserted(old(State()), amount)
      ensures MarkedSince(old(State().cells), old(dirty_rows[..]))
    {
      var n := Clamp(amount, 1, COLUMNS - cursor_column);
      CellsRightIs(GridOf(cells)[cursor_row], cursor_column, n, Blank(pen));
      MoveCellsRight(cells, cursor_row, cursor_column, n);
      BlankCells(cells, cursor_row, cursor_column, cursor_column + n, Blank(pen));
      dirty_rows[cursor_row] := true;
    }

    method DeleteCharacters(amount: int)
      requires Valid()
      modifies cells, dirty_rows
      ensures Valid() && State() == CharactersDeleted(old(State()), amount)
      ensures MarkedSince(old(State().cells), old(dirty_rows[..]))
    {
      var n := Clamp(amount, 1, COLUMNS - cursor_column);
      CellsLeftIs(GridOf(cells)[cursor_row], cursor_column, n, Blank(pen));
      MoveCellsLeft(cells, cursor_row, cursor_column, n);
      BlankCells(cells, cursor_row, COLUMNS - n, COLUMNS, Blank(pen));
      dirty_rows[cursor_row] := true;
    }

    method Linefeed()
      requires Valid()
      modifies `wrap_pending, `cursor_row, cells, dirty_rows
      ensures Valid() && State() == LineFed(old(State())) && MarkedSince(old(State().cells), old(dirty_rows[..]))
    {
      hide RowsUp, Inked;
      wrap_pending := false;
      if cursor_row == ROWS - 1 { ScrollUp(1); } else { cursor_row := cursor_row + 1; }
    }

    // ----- control sequences -----

    function ParameterAt(index: nat, fallback: int): (p: int)
      requires Valid()
      reads this, cells, saved_cells, parameters
      ensures p == Parameter(State(), index, fallback)
    {
      if index >= parameter_count || parameters[index] < 0 then fallback else parameters[index]
    }

    method SetGraphics()
      requires Valid()
      modifies `pen
      ensures Valid() && State() == Styled(old(State()))
    {
      ghost var t := State();
      var count := if parameter_count == 0 then 1 else parameter_count;
      var index := 0;
      while index < count
        invariant index <= count && Valid() && State() == t.(pen := RestyledBy(t, index))
      {
        Restyle(index, t);
        index := index + 1;
      }
    }

    /** One parameter of the graphics command. */
    method Restyle(index: nat, ghost t: Term)
      requires Valid() && State() == t.(pen := RestyledBy(t, index))
      modifies `pen
      ensures Valid() && State() == t.(pen := RestyledBy(t, index + 1))
    {
      hide GridOf, GridOk, Restyled;
      pen := Restyled(pen, ParameterAt(index, 0));
    }

    method AlternateScreen(enabled: bool)
      requires Valid()
      modifies this, cells, saved_cells, dirty_rows
      ensures Valid() && State() == Switched(old(State()), enabled)
      ensures MarkedSince(old(State().cells), old(dirty_rows[..]))
    {
      hide Cleared, Ok;
      if enabled && !alternate_active {
        EnterAlternate();
      } else if !enabled && alternate_active {
        LeaveAlternate();
      }
    }

    method EnterAlternate()
      requires Valid() && !alternate_active
      modifies this, cells, saved_cells, dirty_rows
      ensures Valid() && State() == Switched(old(State()), true) && MarkedSince(old(State().cells), old(dirty_rows[..]))
    {
      hide Cleared;
      CopyCells(saved_cells, cells);
      primary := Primary(cursor_row, cursor_column, saved_row, saved_column, pen, cursor_visible, autowrap);
      alternate_active, pen, cursor_visible, autowrap := true, PLAIN, true, true;
      Clear();
    }

    method LeaveAlternate()
      requires Valid() && alternate_active
      modifies this, cells, dirty_rows
      ensures Valid() && State() == Switched(old(State()), false)
      ensures MarkedSince(old(State().cells), old(dirty_rows[..]))
    {
      hide Cleared, GridOk;
      CopyCells(cells, saved_cells);
      MarkRows(0);
      RestorePrimary();
    }

    method RestorePrimary()
      requires Valid() && alternate_active
      modifies this
      ensures Valid() && State() == Switched(old(State()), false).(cells := old(State().cells))
    {
      hide Cleared, GridOk, GridOf, Inked, Blanks, BlankRows;
      ghost var g, saved := GridOf(cells), GridOf(saved_cells);
      cursor_row, cursor_column, saved_row, saved_column := primary.row, primary.column, primary.saved_row, primary.saved_column;
      pen, cursor_visible, autowrap := primary.pen, primary.cursor_visible, primary.autowrap;
      wrap_pending, alternate_active := false, false;
      assert GridOf(cells) == g && GridOf(saved_cells) == saved;
    }

    method SetMode(enabled: bool)
      requires Valid()
      modifies this, cells, saved_cells, dirty_rows
      ensures Valid() && State() == ModeSet(old(State()), enabled)
      ensures MarkedSince(old(State().cells), old(dirty_rows[..]))
    {
      hide Switched;
      var mode := ParameterAt(0, 0);
      if mode == 25 { cursor_visible := enabled; }
      else if mode == 7 { autowrap := enabled; }
      else if mode == 1049 { AlternateScreen(enabled); }
    }

    /** The cursor goes to a row and a column, or as near as the screen allows. */
    method MoveTo(row: int, column: int)
      requires Valid()
      modifies `cursor_row, `cursor_column
      ensures Valid() && State() == MovedTo(old(State()), row, column)
    {
      cursor_row, cursor_column := Clamp(row, 0, ROWS - 1), Clamp(column, 0, COLUMNS - 1);
    }

    method SaveCursor()
      requires Valid()
      modifies `saved_row, `saved_column
      ensures Valid() && State() == old(State()).(saved_row := cursor_row, saved_column := cursor_column)
    {
      saved_row, saved_column := cursor_row, cursor_column;
    }

    method MoveCursor(command: char, amount: nat)
      requires Valid() && MovesCursor(command)
      modifies `cursor_row, `cursor_column, `saved_row, `saved_column
      ensures Valid() && State() == CursorMoved(old(State()), command, amount)
    {
      hide MovedTo, Parameter, GridOk;
      if command == 's' {
        SaveCursor();
      } else if command in "ABeCaDEF" {
        MoveBy(command, amount);
      } else {
        MoveToward(command, amount);
      }
    }

    /** The commands that move the cursor by an amount. */
    method MoveBy(command: char, amount: nat)
      requires Valid() && command in "ABeCaDEF"
      modifies `cursor_row, `cursor_column
      ensures Valid() && State() == CursorMoved(old(State()), command, amount)
    {
      hide MovedTo, Parameter, Ok;
      match command
      case 'A' => MoveTo(cursor_row - amount, cursor_column);
      case 'B' => MoveTo(cursor_row + amount, cursor_column);
      case 'e' => MoveTo(cursor_row + amount, cursor_column);
      case 'C' => MoveTo(cursor_row, cursor_column + amount);
      case 'a' => MoveTo(cursor_row, cursor_column + amount);
      case 'D' => MoveTo(cursor_row, cursor_column - amount);
      case 'E' => MoveTo(cursor_row + amount, 0);
      case _ => MoveTo(cursor_row - amount, 0);
    }

    /** The commands that move the cursor to a place. */
    method MoveToward(command: char, amount: nat)
      requires Valid() && command in "G`Hfdu"
      modifies `cursor_row, `cursor_column
      ensures Valid() && State() == CursorMoved(old(State()), command, amount)
    {
      hide MovedTo, Parameter, Ok;
      match command
      case 'G' => MoveTo(cursor_row, ParameterAt(0, 1) - 1);
      case '`' => MoveTo(cursor_row, ParameterAt(0, 1) - 1);
      case 'H' => MoveTo(ParameterAt(0, 1) - 1, ParameterAt(1, 1) - 1);
      case 'f' => MoveTo(ParameterAt(0, 1) - 1, ParameterAt(1, 1) - 1);
      case 'd' => MoveTo(ParameterAt(0, 1) - 1, cursor_column);
      case _ => MoveTo(saved_row, saved_column);
    }

    method ChangeCells(command: char, amount: nat)
      requires Valid() && ChangesCells(command)
      modifies cells, dirty_rows
      ensures Valid() && State() == CellsChanged(old(State()), command, amount)
      ensures MarkedSince(old(State().cells), old(dirty_rows[..]))
    {
      hide Ok, DisplayErased, LineErased, LinesInserted, LinesDeleted, CharactersInserted, CharactersDeleted,
        CharactersErased, ScrolledUp, ScrolledDown;
      match command
      case 'J' => EraseDisplay(ParameterAt(0, 0));
      case 'K' => EraseLine(ParameterAt(0, 0));
      case 'L' => InsertLines(amount);
      case 'M' => DeleteLines(amount);
      case '@' => InsertCharacters(amount);
      case 'P' => DeleteCharacters(amount);
      case 'X' => EraseCharacters(amount);
      case 'S' => ScrollUp(amount);
      case _ => ScrollDown(amount);
    }

    method ExecuteCsi(command: char)
      requires Valid()
      modifies this, cells, saved_cells, dirty_rows
      ensures Valid() && State() == Executed(old(State()), command)
      ensures MarkedSince(old(State().cells), old(dirty_rows[..]))
    {
      hide CursorMoved, CellsChanged, Styled, ModeSet;
      var amount := ParameterAt(0, 1);
      if amount < 1 { amount := 1; }
      if MovesCursor(command) {
        MoveCursor(command, amount);
      } else if ChangesCells(command) {
        ChangeCells(command, amount);
      } else if command == 'm' {
        SetGraphics();
      } else if (command == 'h' || command == 'l') && private_sequence {
        SetMode(command == 'h');
      }
      wrap_pending := false;
    }

    // ----- bytes -----

    /** A wrap that is due takes place. */
    method Wrap()
      requires Valid()
      modifies `cursor_row, `cursor_column, `wrap_pending, cells, dirty_rows
      ensures Valid() && State() == Wrapped(old(State())) && MarkedSince(old(State().cells), old(dirty_rows[..]))
    {
      hide LineFed, GridOk;
      if wrap_pending {
        if autowrap {
          cursor_column := 0;
          Linefeed();
        }
        wrap_pending := false;
      }
    }

    method PutCharacter(character: Byte)
      requires Valid()
      modifies `cursor_row, `cursor_column, `wrap_pending, cells, dirty_rows
      ensures Valid() && State() == Printed(old(State()), character)
      ensures MarkedSince(old(State().cells), old(dirty_rows[..]))
    {
      hide Wrapped, Inked;
      Wrap();
      SetCell(cells, cursor_row, cursor_column, Inked(pen, character));
      dirty_rows[cursor_row] := true;
      if cursor_column == COLUMNS - 1 { wrap_pending := autowrap; } else { cursor_column := cursor_column + 1; }
    }

    method BeginCsi()
      requires Valid()
      modifies `parser_state, `parameter_count, `private_sequence
      ensures Valid() && State() == old(State()).(parser := Csi, parameters := [], private_sequence := false)
    {
      parser_state, parameter_count, private_sequence := Csi, 0, false;
      assert parameters[..parameter_count] == [];
    }

    /** A byte after ESC. */
    method FeedEscape(b: Byte)
      requires Valid()
      modifies this, cells, dirty_rows
      ensures Valid() && State() == Escaped(old(State()), b) && MarkedSince(old(State().cells), old(dirty_rows[..]))
    {
      hide MovedByLine, Reset, MovedTo, GridOk;
      parser_state := Ground;
      match b as char
      case '[' => BeginCsi();
      case ']' => parser_state := Osc;
      case '(' => parser_state := Charset;
      case ')' => parser_state := Charset;
      case '7' => SaveCursor();
      case '8' => MoveTo(saved_row, saved_column);
      case 'c' => Init();
      case _ => MoveByLine(b as char);
    }

    /** The commands after ESC that move the cursor by a line. */
    method MoveByLine(command: char)
      requires Valid()
      modifies `cursor_row, `cursor_column, `wrap_pending, cells, dirty_rows
      ensures Valid() && State() == MovedByLine(old(State()), command)
      ensures MarkedSince(old(State().cells), old(dirty_rows[..]))
    {
      hide LineFed, ScrolledDown, GridOk;
      if command == 'D' {
        Linefeed();
      } else if command == 'E' {
        cursor_column := 0;
        Linefeed();
      } else if command == 'M' {
        if cursor_row == 0 { ScrollDown(1); } else { cursor_row := cursor_row - 1; }
      }
    }

    method FeedSemicolon()
      requires Valid()
      modifies `parameter_count, parameters
      ensures Valid() && State() == old(State()).(parameters := Numbered(old(State().parameters), 59))
    {
      if parameter_count == 0 { parameter_count := 1; parameters[0] := -1; }
      if parameter_count < MAX_PARAMETERS { parameters[parameter_count] := -1; parameter_count := parameter_count + 1; }
      assert parameters[..parameter_count] == Numbered(old(parameters[..parameter_count]), 59);
    }

    method FeedDigit(b: Byte)
      requires Valid() && '0' <= b as char <= '9'
      modifies `parameter_count, parameters
      ensures Valid() && State() == old(State()).(parameters := Numbered(old(State().parameters), b))
    {
      if parameter_count == 0 { parameter_count := 1; parameters[0] := 0; }
      if parameters[parameter_count - 1] < 0 { parameters[parameter_count - 1] := 0; }
      parameters[parameter_count - 1] := parameters[parameter_count - 1] * 10 + b - 48;
      assert parameters[..parameter_count] == Numbered(old(parameters[..parameter_count]), b);
    }

    /** A byte of a control sequence. */
    method FeedCsi(b: Byte)
      requires Valid()
      modifies this, cells, saved_cells, parameters, dirty_rows
      ensures Valid() && State() == Sequenced(old(State()), b) && MarkedSince(old(State().cells), old(dirty_rows[..]))
    {
      hide Executed, Numbered;
      if b as char == '?' && parameter_count == 0 {
        private_sequence := true;
      } else if '0' <= b as char <= '9' {
        FeedDigit(b);
      } else if b as char == ';' {
        FeedSemicolon();
      } else if '@' <= b as char <= '~' {
        ExecuteCsi(b as char);
        parser_state := Ground;
      }
    }

    /** A byte outside of any sequence. */
    method FeedGround(b: Byte)
      requires Valid()
      modifies `parser_state, `cursor_row, `cursor_column, `wrap_pending, cells, dirty_rows
      ensures Valid() && State() == Plainly(old(State()), b) && MarkedSince(old(State().cells), old(dirty_rows[..]))
    {
      hide LineFed, Printed;
      if b == ESC {
        parser_state := Escape;
      } else if b == 13 {
        cursor_column, wrap_pending := 0, false;
      } else if b == 10 || b == 11 || b == 12 {
        cursor_column := 0;
        Linefeed();
      } else if b == 8 {
        wrap_pending := false;
        if cursor_column > 0 { cursor_column := cursor_column - 1; }
      } else if b == 9 {
        wrap_pending := false;
        cursor_column := Clamp((cursor_column + 8) / 8 * 8, 0, COLUMNS - 1);
      } else if b >= 32 && b != 127 {
        PutCharacter(b);
      }
    }

    method Feed(b: Byte)
      requires Valid()
      modifies this, cells, saved_cells, parameters, dirty_rows
      ensures Valid() && State() == Fed(old(State()), b) && MarkedSince(old(State().cells), old(dirty_rows[..]))
    {
      hide Escaped, Sequenced, Plainly;
      match parser_state
      case Osc => if b == 7 { parser_state := Ground; } else if b == ESC { parser_state := OscEscape; }
      case OscEscape => parser_state := if b as char == '\\' then Ground else Osc;
      case Charset => parser_state := Ground;
      case Escape => FeedEscape(b);
      case Csi => FeedCsi(b);
      case Ground => FeedGround(b);
    }

    /** kvt_write: a row that is not marked afterwards has not changed. */
    method Write(bytes: seq<Byte>)
      requires Valid()
      modifies this, cells, saved_cells, parameters, dirty_rows
      ensures Valid() && State() == Written(old(State()), bytes) && MarkedSince(old(State().cells), old(dirty_rows[..]))
    {
      hide Fed, Ok;
      var index := 0;
      while index < |bytes|
        invariant index <= |bytes| && Valid() && Written(State(), bytes[index..]) == Written(old(State()), bytes)
        invariant MarkedSince(old(State().cells), old(dirty_rows[..]))
      {
        WrittenStep(State(), bytes, index);
        Feed(bytes[index]);
        index := index + 1;
      }
      WrittenNone(State());
    }
  }

  lemma WrittenStep(t: Term, bytes: seq<Byte>, index: nat)
    requires Ok(t) && index < |bytes|
    ensures Written(t, bytes[index..]) == Written(Fed(t, bytes[index]), bytes[index + 1..])
  {
    hide Fed, Ok;
    assert bytes[index..][1..] == bytes[index + 1..];
  }

  // ----- what the loops have done so far -----

  lemma ErasedNone(g: Grid, from: nat, blank: Cell)
    requires from <= |g|
    ensures ErasedRows(g, from, from, blank) == g
  {
  }

  lemma ErasedMore(g: Grid, from: nat, row: nat, blank: Cell)
    requires GridOk(g) && from <= row < ROWS
    ensures ErasedRows(g, from, row, blank)[row := Erased(ErasedRows(g, from, row, blank)[row], 0, COLUMNS,
        blank)] == ErasedRows(g, from, row + 1, blank)
  {
    assert Erased(g[row], 0, COLUMNS, blank) == Blanks(COLUMNS, blank);
    assert BlankRows(row + 1 - from, blank) == BlankRows(row - from, blank) + [Blanks(COLUMNS, blank)];
  }

  lemma ErasedAll(g: Grid, blank: Cell)
    requires GridOk(g)
    ensures ErasedRows(g, 0, ROWS, blank) == BlankRows(ROWS, blank)
  {
  }

  lemma ErasedElsewhere(g: Grid, from: nat, to: nat, blank: Cell)
    requires GridOk(g) && from <= to <= ROWS
    ensures GridOk(ErasedRows(g, from, to, blank))
    ensures forall r :: 0 <= r < ROWS && !(from <= r < to) ==> ErasedRows(g, from, to, blank)[r] == g[r]
  {
  }

  lemma LinesDeletedIs(t: Term, amount: int, n: nat)
    requires Ok(t) && n == Clamp(amount, 1, ROWS - t.row)
    ensures t.row + n <= ROWS
    ensures LinesDeleted(t, amount) == t.(cells := ErasedRows(MovedUp(t.cells, t.row, n, ROWS - n), ROWS - n, ROWS,
        Blank(t.pen)))
    ensures forall r :: 0 <= r < t.row ==> LinesDeleted(t, amount).cells[r] == t.cells[r]
  {
    RowsUpIs(t.cells, t.row, n, Blank(t.pen));
  }

  lemma RowsUpIs(g: Grid, from: nat, n: nat, blank: Cell)
    requires GridOk(g) && from + n <= ROWS
    ensures ErasedRows(MovedUp(g, from, n, ROWS - n), ROWS - n, ROWS, blank) == RowsUp(g, from, n, blank)
    ensures GridOk(RowsUp(g, from, n, blank)) && forall r :: 0 <= r < from ==> RowsUp(g, from, n, blank)[r] == g[r]
  {
  }

  lemma LinesInsertedIs(t: Term, amount: int, n: nat)
    requires Ok(t) && n == Clamp(amount, 1, ROWS - t.row)
    ensures t.row + n <= ROWS
    ensures LinesInserted(t, amount) == t.(cells := ErasedRows(MovedDown(t.cells, n, t.row + n), t.row, t.row + n,
        Blank(t.pen)))
    ensures forall r :: 0 <= r < t.row ==> LinesInserted(t, amount).cells[r] == t.cells[r]
  {
    RowsDownIs(t.cells, t.row, n, Blank(t.pen));
  }

  lemma RowsDownIs(g: Grid, from: nat, n: nat, blank: Cell)
    requires GridOk(g) && from + n <= ROWS
    ensures ErasedRows(MovedDown(g, n, from + n), from, from + n, blank) == RowsDown(g, from, n, blank)
    ensures GridOk(RowsDown(g, from, n, blank)) && forall r :: 0 <= r < from ==> RowsDown(g, from, n, blank)[r] == g[r]
  {
  }

  lemma CellsLeftIs(row: Row, from: nat, n: nat, blank: Cell)
    requires |row| == COLUMNS && from + n <= COLUMNS
    ensures Erased(MovedUp(row, from, n, COLUMNS - n), COLUMNS - n, COLUMNS, blank) == CellsLeft(row, from, n, blank)
  {
  }

  lemma CellsRightIs(row: Row, from: nat, n: nat, blank: Cell)
    requires |row| == COLUMNS && from + n <= COLUMNS
    ensures Erased(MovedDown(row, n, from + n), from, from + n, blank) == CellsRight(row, from, n, blank)
  {
  }

  lemma ScrollNone(g: Grid, blank: Cell)
    ensures RowsUp(g, 0, 0, blank) == g == RowsDown(g, 0, 0, blank)
  {
  }

  lemma ScrollUpMore(g: Grid, done: nat, blank: Cell)
    requires GridOk(g)
    ensures ErasedRows(MovedUp(RowsUp(g, 0, Least(done, ROWS), blank), 0, 1, ROWS - 1), ROWS - 1, ROWS,
        blank) == RowsUp(g, 0, Least(done + 1, ROWS), blank)
  {
  }

  lemma ScrollDownMore(g: Grid, done: nat, blank: Cell)
    requires GridOk(g)
    ensures ErasedRows(MovedDown(RowsDown(g, 0, Least(done, ROWS), blank), 1, 1), 0, 1, blank) == RowsDown(g, 0,
        Least(done + 1, ROWS), blank)
  {
  }
}
