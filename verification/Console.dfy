// The consoles on the screen (output/vga.c): each console is a terminal; what the screen shows is kept up
// cell by cell and row by row, and is always what drawing the whole of the active console would show.
module Console {
  import opened Vt100
  import opened Terminals

  const CONSOLES: nat := 4

  /** The bar of a cursor over the place of a cell. */
  datatype Bar = NoBar | Bar(color: nat)

  /** What is painted on the place of one cell; colours by their number in the palette. */
  datatype Tile = Tile(character: Byte, foreground: nat, background: nat, underline: bool, bar: Bar)

  /** A place after the framebuffer is cleared to black, which is colour 0. */
  const CLEARED: Tile := Tile(32, 0, 0, false, NoBar)

  /** draw_cell paints over the whole place of a cell. */
  function Drawn(cell: Cell): Tile {
    Tile(if cell.attributes.conceal then 32 else cell.character, cell.foreground % 16, cell.background % 16,
        cell.attributes.underline, NoBar)
  }

  /** What drawing the whole of a console shows at a place: the cell, and over the cursor's cell a bar in its foreground
      colour. */
  function Full(t: Term, row: nat, column: nat): Tile
    requires Ok(t) && row < ROWS && column < COLUMNS
  {
    var cell := t.cells[row][column];
    if t.cursor_visible && row == t.row && column == t.column then Drawn(cell).(bar := Bar(cell.foreground % 16)) else Drawn(cell)
  }

  class Screen {
    const terminals: seq<Terminal>
    const tiles: array2<Tile>
    var active: nat
    var ready: bool

    /** Four consoles that share nothing. */
    ghost predicate Apart() {
      && |terminals| == CONSOLES && tiles.Length0 == ROWS && tiles.Length1 == COLUMNS
      && (forall i, j :: 0 <= i < CONSOLES && 0 <= j < CONSOLES && i != j ==> terminals[i].Repr() !! terminals[j].Repr())
      && (forall i :: 0 <= i < CONSOLES ==> this !in terminals[i].Repr() && tiles !in terminals[i].Repr())
    }

    ghost function Repr(): set<object> {
      {this, tiles} + set i, o | 0 <= i < |terminals| && o in terminals[i].Repr() :: o
    }

    ghost predicate TerminalsValid()
      requires Apart()
      reads set i, o | 0 <= i < |terminals| && o in terminals[i].Repr() :: o
    {
      forall i :: 0 <= i < CONSOLES ==> terminals[i].Valid()
    }

    /** The screen shows the cells of the grid, without a cursor. */
    ghost predicate Shows(g: Grid)
      requires Apart() && GridOk(g)
      reads tiles
    {
      forall r, c :: 0 <= r < ROWS && 0 <= c < COLUMNS ==> tiles[r, c] == Drawn(g[r][c])
    }

    ghost predicate ShowsFull(t: Term)
      requires Apart() && Ok(t)
      reads tiles
    {
      forall r, c :: 0 <= r < ROWS && 0 <= c < COLUMNS ==> tiles[r, c] == Full(t, r, c)
    }

    /** Once the framebuffer is ready, the screen shows the active console, and none of its rows is marked. */
    ghost predicate Valid()
      reads Repr()
    {
      && Apart() && TerminalsValid() && active < CONSOLES
      && (ready ==> ShowsFull(terminals[active].State()) && forall r :: 0 <= r < ROWS ==> !terminals[active].dirty_rows[r])
    }

    method DrawCell(console: nat, column: nat, row: nat)
      requires Apart() && console < CONSOLES && terminals[console].Valid() && row < ROWS && column < COLUMNS
      modifies tiles
      ensures forall r, c :: 0 <= r < ROWS && 0 <= c < COLUMNS ==>
        tiles[r, c] == if console == active && ready && r == row && c == column then Drawn(terminals[console].State().cells[r][c]) else old(tiles[r, c])
    {
      if console != active || !ready { return; }
      tiles[row, column] := Drawn(terminals[console].cells[row, column]);
    }

    method DrawCursor(console: nat, visible: bool)
      requires Apart() && console < CONSOLES && terminals[console].Valid()
      modifies tiles
      ensures console != active || !ready ==>
        forall r, c :: 0 <= r < ROWS && 0 <= c < COLUMNS ==> tiles[r, c] == old(tiles[r, c])
      ensures console == active && ready && !visible && old(ShowsFull(terminals[console].State())) ==>
        Shows(terminals[console].State().cells)
      ensures console == active && ready && visible && old(Shows(terminals[console].State().cells)) ==>
        ShowsFull(terminals[console].State())
    {
      var column, row := terminals[console].cursor_column, terminals[console].cursor_row;
      if console != active || !ready { return; }
      if !visible || !terminals[console].cursor_visible {
        DrawCell(console, column, row);
        return;
      }
      tiles[row, column] := tiles[row, column].(bar := Bar(terminals[console].cells[row, column].foreground % 16));
    }

    method DrawRow(console: nat, row: nat)
      requires Apart() && console < CONSOLES && terminals[console].Valid() && row < ROWS && console == active && ready
      modifies tiles
      ensures forall r, c :: 0 <= r < ROWS && 0 <= c < COLUMNS ==>
        tiles[r, c] == if r == row then Drawn(terminals[console].State().cells[r][c]) else old(tiles[r, c])
    {
      var column := 0;
      while column < COLUMNS
        invariant column <= COLUMNS
        invariant forall r, c :: 0 <= r < ROWS && 0 <= c < COLUMNS ==>
          tiles[r, c] == if r == row && c < column then Drawn(terminals[console].State().cells[r][c]) else old(tiles[r,
              c])
      {
        DrawCell(console, column, row);
        column := column + 1;
      }
    }

    /** Draws the rows that are marked, or all of them, and takes the marks away. */
    method Redraw(console: nat, all: bool)
      requires Apart() && console < CONSOLES && terminals[console].Valid()
      modifies tiles, terminals[console].dirty_rows
      ensures terminals[console].Valid()
      ensures console != active || !ready ==>
        forall r :: 0 <= r < ROWS ==> terminals[console].dirty_rows[r] == old(terminals[console].dirty_rows[r])
      ensures console != active || !ready ==>
        forall r, c :: 0 <= r < ROWS && 0 <= c < COLUMNS ==> tiles[r, c] == old(tiles[r, c])
      ensures console == active && ready ==> forall r :: 0 <= r < ROWS ==> !terminals[console].dirty_rows[r]
      ensures console == active && ready ==> forall r, c :: 0 <= r < ROWS && 0 <= c < COLUMNS ==>
        tiles[r, c] == if all || old(terminals[console].dirty_rows[r]) then Drawn(terminals[console].State().cells[r][c]) else old(tiles[r, c])
    {
      if console != active || !ready { return; }
      var terminal := terminals[console];
      ghost var marks := terminal.dirty_rows[..];
      var row := 0;
      while row < ROWS
        invariant row <= ROWS && terminal.Valid()
        invariant forall r :: 0 <= r < ROWS ==> terminal.dirty_rows[r] == (r >= row && marks[r])
        invariant forall r, c :: 0 <= r < ROWS && 0 <= c < COLUMNS ==>
          tiles[r, c] == if r < row && (all || marks[r]) then Drawn(terminal.State().cells[r][c]) else old(tiles[r, c])
      {
        if all || terminal.dirty_rows[row] {
          DrawRow(console, row);
          terminal.dirty_rows[row] := false;
        }
        row := row + 1;
      }
    }

    /** framebuffer_clear(0). */
    method ClearTiles()
      requires Apart()
      modifies tiles
      ensures forall r, c :: 0 <= r < ROWS && 0 <= c < COLUMNS ==> tiles[r, c] == CLEARED
    {
      var row := 0;
      while row < ROWS
        invariant row <= ROWS && forall r, c :: 0 <= r < row && 0 <= c < COLUMNS ==> tiles[r, c] == CLEARED
      {
        var column := 0;
        while column < COLUMNS
          invariant column <= COLUMNS && forall r, c :: 0 <= r < row && 0 <= c < COLUMNS ==> tiles[r, c] == CLEARED
          invariant forall c :: 0 <= c < column ==> tiles[row, c] == CLEARED
        {
          tiles[row, column] := CLEARED;
          column := column + 1;
        }
        row := row + 1;
      }
    }

    /** The whole of the active console is drawn. */
    method DrawAll()
      requires Apart() && TerminalsValid() && active < CONSOLES
      modifies tiles, terminals[active].dirty_rows
      ensures Valid() && terminals[active].State() == old(terminals[active].State())
    {
      Redraw(active, true);
      DrawCursor(active, true);
    }

    /** The whole of the active console is drawn on a black screen. */
    method DrawAfresh()
      requires Apart() && TerminalsValid() && active < CONSOLES
      modifies tiles, terminals[active].dirty_rows
      ensures Valid()
    {
      hide Full, Drawn, GridOf, GridOk, Ok;
      if ready { ClearTiles(); }
      DrawAll();
    }

    /** vga_console_write: a console that does not exist is left alone. */
    method ConsoleWrite(console: int, bytes: seq<Byte>)
      requires Valid()
      modifies Repr()
      ensures Valid() && active == old(active) && ready == old(ready)
      ensures forall i :: 0 <= i < CONSOLES ==>
        terminals[i].State() == if i == console then Written(old(terminals[i].State()),
            bytes) else old(terminals[i].State())
    {
      hide Full, Drawn, Written, Cleared, GridOf, GridOk, Ok;
      if !(0 <= console < CONSOLES) { return; }
      WriteUndrawn(console, bytes);
      CatchUp(console);
    }

    /** Once the framebuffer is ready, the rows without a mark show the active console's cells. */
    ghost predicate Behind()
      reads Repr()
    {
      && Apart() && TerminalsValid() && active < CONSOLES
      && (ready ==> forall r, c :: 0 <= r < ROWS && 0 <= c < COLUMNS && !terminals[active].dirty_rows[r] ==>
           tiles[r, c] == Drawn(terminals[active].State().cells[r][c]))
    }

    /** The cursor is taken off and the console is written to; it is still to be drawn. */
    method WriteUndrawn(console: nat, bytes: seq<Byte>)
      requires Valid() && console < CONSOLES
      modifies tiles, terminals[console].Repr()
      ensures Apart() && TerminalsValid()
      ensures if console == active && ready then Behind() else Valid()
      ensures forall i :: 0 <= i < CONSOLES ==>
        terminals[i].State() == if i == console then Written(old(terminals[i].State()),
            bytes) else old(terminals[i].State())
    {
      hide Full, Drawn, Written, GridOf, GridOk, Ok;
      DrawCursor(console, false);
      terminals[console].Write(bytes);
    }

    /** What was written is drawn. */
    method CatchUp(console: nat)
      requires Apart() && TerminalsValid() && console < CONSOLES
      requires (if console == active && ready then Behind() else Valid())
      modifies tiles, terminals[console].dirty_rows
      ensures Valid()
    {
      hide Full, Drawn, GridOf, GridOk, Ok;
      Redraw(console, false);
      DrawCursor(console, true);
    }

    /** vga_switch_console. */
    method SwitchConsole(console: int) returns (ok: bool)
      requires Valid()
      modifies Repr()
      ensures Valid() && ok == (0 <= console < CONSOLES) && active == (if ok then console else old(active))
      ensures ready == old(ready)
      ensures forall i :: 0 <= i < CONSOLES ==> terminals[i].State() == old(terminals[i].State())
    {
      hide Full, Drawn, GridOf, GridOk, Ok;
      if !(0 <= console < CONSOLES) { return false; }
      if console == active { return true; }
      Activate(console);
      return true;
    }

    /** Another console comes to the screen. */
    method Activate(console: nat)
      requires Valid() && console < CONSOLES && console != active
      modifies `active, tiles, terminals[console].dirty_rows
      ensures Valid() && active == console
    {
      hide Full, Drawn, GridOf, GridOk, Ok, Shows, ShowsFull;
      DrawCursor(active, false);
      active := console;
      DrawAfresh();
    }

    /** vga_clear. */
    method ClearActive()
      requires Valid()
      modifies Repr()
      ensures Valid() && active == old(active) && ready == old(ready)
      ensures forall i :: 0 <= i < CONSOLES ==>
        terminals[i].State() == if i == active then Cleared(old(terminals[i].State())) else old(terminals[i].State())
    {
      hide Full, Drawn, Cleared, GridOf, GridOk, Ok;
      terminals[active].Clear();
      DrawAfresh();
    }

    /** The framebuffer is set up: vga_framebuffer_ready. */
    method FramebufferReady()
      requires Valid()
      modifies Repr()
      ensures Valid() && ready && active == old(active)
      ensures forall i :: 0 <= i < CONSOLES ==> terminals[i].State() == old(terminals[i].State())
    {
      hide Full, Drawn, Written, Cleared, GridOf, GridOk, Ok;
      ready := true;
      ClearTiles();
      DrawAll();
    }

    /** vga_init. */
    constructor ()
      ensures Valid() && fresh(Repr()) && active == 0 && !ready
    {
      hide Ok, GridOf, GridOk, Full, Drawn, Terminal.Valid, ShowsFull;
      var made := MakeTerminals();
      terminals := made;
      tiles := new Tile[ROWS, COLUMNS]((_, _) => CLEARED);
      active, ready := 0, false;
    }
  }

  method MakeTerminals() returns (made: seq<Terminal>)
    ensures |made| == CONSOLES
    ensures forall i :: 0 <= i < CONSOLES ==> made[i].Valid() && fresh(made[i].Repr())
    ensures forall i, j :: 0 <= i < CONSOLES && 0 <= j < CONSOLES && i != j ==> made[i].Repr() !! made[j].Repr()
  {
    hide Ok, GridOf, GridOk, BlankRows;
    made := [];
    while |made| < CONSOLES
      invariant |made| <= CONSOLES
      invariant forall i :: 0 <= i < |made| ==> made[i].Valid() && fresh(made[i].Repr())
      invariant forall i, j :: 0 <= i < |made| && 0 <= j < |made| && i != j ==> made[i].Repr() !! made[j].Repr()
    {
      var terminal := new Terminal();
      made := made + [terminal];
    }
  }
}
