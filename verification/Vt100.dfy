// The terminal interpreter (output/vt100.c): what each byte does to the cells, the cursor and the modes,
// as functions on a value, and what entering and leaving the alternate screen gives back.
module Vt100 {
  const ROWS: nat := 45
  const COLUMNS: nat := 160
  const MAX_PARAMETERS: nat := 16
  const DEFAULT_FOREGROUND: nat := 10
  const DEFAULT_BACKGROUND: nat := 0
  const ESC: Byte := 27

  type Byte = b: nat | b < 256

  datatype Attributes = Attributes(bold: bool, underline: bool, conceal: bool)
  datatype Cell = Cell(character: Byte, foreground: nat, background: nat, attributes: Attributes)
  datatype Pen = Pen(foreground: nat, background: nat, attributes: Attributes, inverse: bool)
  datatype Parser = Ground | Escape | Csi | Osc | OscEscape | Charset

  type Row = seq<Cell>
  type Grid = seq<Row>

  const PLAIN: Pen := Pen(DEFAULT_FOREGROUND, DEFAULT_BACKGROUND, Attributes(false, false, false), false)

  /** What is set aside while the alternate screen is shown, besides the cells. */
  datatype Primary = Primary(row: int, column: int, saved_row: int, saved_column: int, pen: Pen, cursor_visible: bool,
      autowrap: bool)

  /** struct kvt_terminal without the marks on changed rows; of the parameters, the ones in use. */
  datatype Term = Term(
    cells: Grid, saved: Grid, row: int, column: int, saved_row: int, saved_column: int, pen: Pen,
    cursor_visible: bool, autowrap: bool, wrap_pending: bool,
    parser: Parser, private_sequence: bool, parameters: seq<int>,
    alternate_active: bool, primary: Primary)

  predicate GridOk(g: Grid) { |g| == ROWS && forall r :: 0 <= r < ROWS ==> |g[r]| == COLUMNS }

  predicate OnScreen(row: int, column: int) { 0 <= row < ROWS && 0 <= column < COLUMNS }

  predicate Ok(t: Term) {
    && GridOk(t.cells) && GridOk(t.saved) && OnScreen(t.row, t.column) && |t.parameters| <= MAX_PARAMETERS
    && (t.alternate_active ==> OnScreen(t.primary.row, t.primary.column))
  }

  function Clamp(value: int, minimum: int, maximum: int): (r: int)
    ensures minimum <= maximum ==> minimum <= r <= maximum
  {
    if value < minimum then minimum else if value > maximum then maximum else value
  }

  // ----- rows and grids -----

  /** A character as the pen writes it: bold brightens the eight dark colours, inverse exchanges the two. */
  function Inked(pen: Pen, character: Byte): Cell {
    var foreground := if pen.attributes.bold && pen.foreground < 8 then pen.foreground + 8 else pen.foreground;
    if pen.inverse then Cell(character, pen.background, foreground, pen.attributes)
    else Cell(character, foreground, pen.background, pen.attributes)
  }

  function Blank(pen: Pen): Cell { Inked(pen, 32) }

  function Blanks(n: nat, blank: Cell): (r: Row)
    ensures |r| == n && forall k :: 0 <= k < n ==> r[k] == blank
  {
    seq(n, _ => blank)
  }

  function BlankRows(n: nat, blank: Cell): (r: Grid)
    ensures |r| == n && forall k :: 0 <= k < n ==> r[k] == Blanks(COLUMNS, blank)
  {
    seq(n, _ => Blanks(COLUMNS, blank))
  }

  /** The columns from `from` up to `to` blank. */
  function Erased(row: Row, from: nat, to: nat, blank: Cell): (r: Row)
    requires from <= to <= |row|
    ensures |r| == |row|
  {
    row[..from] + Blanks(to - from, blank) + row[to..]
  }

  /** The rows from `from` up to `to` blank. */
  function ErasedRows(g: Grid, from: nat, to: nat, blank: Cell): (r: Grid)
    requires from <= to <= |g|
    ensures |r| == |g|
  {
    g[..from] + BlankRows(to - from, blank) + g[to..]
  }

  /** The rows from `from` on, moved up by n, blank rows coming in at the end. */
  function RowsUp(g: Grid, from: nat, n: nat, blank: Cell): (r: Grid)
    requires from + n <= |g|
    ensures |r| == |g|
  {
    g[..from] + g[from + n..] + BlankRows(n, blank)
  }

  /** The rows from `from` on, moved down by n, blank rows coming in at `from`. */
  function RowsDown(g: Grid, from: nat, n: nat, blank: Cell): (r: Grid)
    requires from + n <= |g|
    ensures |r| == |g|
  {
    g[..from] + BlankRows(n, blank) + g[from..|g| - n]
  }

  function CellsLeft(row: Row, from: nat, n: nat, blank: Cell): (r: Row)
    requires from + n <= |row|
    ensures |r| == |row|
  {
    row[..from] + row[from + n..] + Blanks(n, blank)
  }

  function CellsRight(row: Row, from: nat, n: nat, blank: Cell): (r: Row)
    requires from + n <= |row|
    ensures |r| == |row|
  {
    row[..from] + Blanks(n, blank) + row[from..|row| - n]
  }

  // ----- the operations -----

  function Least(a: nat, b: nat): nat { if a < b then a else b }

  function ScrolledUp(t: Term, n: nat): (r: Term)
    requires Ok(t)
    ensures Ok(r)
  {
    t.(cells := RowsUp(t.cells, 0, Least(n, ROWS), Blank(t.pen)))
  }

  function ScrolledDown(t: Term, n: nat): (r: Term)
    requires Ok(t)
    ensures Ok(r)
  {
    t.(cells := RowsDown(t.cells, 0, Least(n, ROWS), Blank(t.pen)))
  }

  function LineFed(t: Term): (r: Term)
    requires Ok(t)
    ensures Ok(r)
  {
    var t := t.(wrap_pending := false);
    if t.row == ROWS - 1 then ScrolledUp(t, 1) else t.(row := t.row + 1)
  }

  function Cleared(t: Term): (r: Term)
    requires Ok(t)
    ensures Ok(r)
  {
    t.(row := 0, column := 0, wrap_pending := false, cells := BlankRows(ROWS, Blank(t.pen)))
  }

  /** The modes as kvt_init sets them; what is set aside is kept as it is. */
  function Initial(t: Term): (r: Term)
    requires Ok(t)
    ensures Ok(r)
  {
    t.(pen := PLAIN, cursor_visible := true, autowrap := true, parser := Ground, parameters := [],
        private_sequence := false,
       alternate_active := false, saved_row := 0, saved_column := 0)
  }

  /** kvt_init. */
  function Reset(t: Term): (r: Term)
    requires Ok(t)
    ensures Ok(r)
  {
    Cleared(Initial(t))
  }

  function Parameter(t: Term, index: nat, fallback: int): int {
    if index >= |t.parameters| || t.parameters[index] < 0 then fallback else t.parameters[index]
  }

  function LineErased(t: Term, mode: int): (r: Term)
    requires Ok(t)
    ensures Ok(r)
  {
    var first := if mode == 0 then t.column else 0;
    var last := if mode == 1 then t.column else COLUMNS - 1;
    t.(cells := t.cells[t.row := Erased(t.cells[t.row], first, last + 1, Blank(t.pen))])
  }

  function DisplayErased(t: Term, mode: int): (r: Term)
    requires Ok(t)
    ensures Ok(r)
  {
    if mode == 2 || mode == 3 then t.(cells := BlankRows(ROWS, Blank(t.pen)))
    else if mode == 0 then
      var t := LineErased(t, 0);
      t.(cells := ErasedRows(t.cells, t.row + 1, ROWS, Blank(t.pen)))
    else if mode == 1 then LineErased(t.(cells := ErasedRows(t.cells, 0, t.row, Blank(t.pen))), 1)
    else t
  }

  /** One parameter of the graphics command. */
  function Restyled(pen: Pen, value: int): Pen {
    if value == 0 then PLAIN
    else if value == 1 then pen.(attributes := pen.attributes.(bold := true))
    else if value == 22 then pen.(attributes := pen.attributes.(bold := false))
    else if value == 4 then pen.(attributes := pen.attributes.(underline := true))
    else if value == 24 then pen.(attributes := pen.attributes.(underline := false))
    else if value == 7 then pen.(inverse := true)
    else if value == 27 then pen.(inverse := false)
    else if value == 8 then pen.(attributes := pen.attributes.(conceal := true))
    else if value == 28 then pen.(attributes := pen.attributes.(conceal := false))
    else if 30 <= value <= 37 then pen.(foreground := value - 30)
    else if value == 39 then pen.(foreground := DEFAULT_FOREGROUND)
    else if 40 <= value <= 47 then pen.(background := value - 40)
    else if value == 49 then pen.(background := DEFAULT_BACKGROUND)
    else if 90 <= value <= 97 then pen.(foreground := value - 90 + 8)
    else if 100 <= value <= 107 then pen.(background := value - 100 + 8)
    else pen
  }

  /** The first n parameters of the graphics command. */
  function RestyledBy(t: Term, n: nat): Pen {
    if n == 0 then t.pen else Restyled(RestyledBy(t, n - 1), Parameter(t, n - 1, 0))
  }

  function Styled(t: Term): (r: Term)
    requires Ok(t)
    ensures Ok(r)
  {
    t.(pen := RestyledBy(t, if |t.parameters| == 0 then 1 else |t.parameters|))
  }

  function LinesInserted(t: Term, amount: int): (r: Term)
    requires Ok(t)
    ensures Ok(r)
  {
    t.(cells := RowsDown(t.cells, t.row, Clamp(amount, 1, ROWS - t.row), Blank(t.pen)))
  }

  function LinesDeleted(t: Term, amount: int): (r: Term)
    requires Ok(t)
    ensures Ok(r)
  {
    t.(cells := RowsUp(t.cells, t.row, Clamp(amount, 1, ROWS - t.row), Blank(t.pen)))
  }

  function CharactersInserted(t: Term, amount: int): (r: Term)
    requires Ok(t)
    ensures Ok(r)
  {
    t.(cells := t.cells[t.row := CellsRight(t.cells[t.row], t.column, Clamp(amount, 1, COLUMNS - t.column),
        Blank(t.pen))])
  }

  function CharactersDeleted(t: Term, amount: int): (r: Term)
    requires Ok(t)
    ensures Ok(r)
  {
    t.(cells := t.cells[t.row := CellsLeft(t.cells[t.row], t.column, Clamp(amount, 1, COLUMNS - t.column),
        Blank(t.pen))])
  }

  function CharactersErased(t: Term, amount: nat): (r: Term)
    requires Ok(t)
    ensures Ok(r)
  {
    t.(cells := t.cells[t.row := Erased(t.cells[t.row], t.column, Least(t.column + amount, COLUMNS), Blank(t.pen))])
  }

  /** alternate_screen: only a change of the screen does anything. */
  function Switched(t: Term, enabled: bool): (r: Term)
    requires Ok(t)
    ensures Ok(r)
  {
    if enabled && !t.alternate_active then
      Cleared(t.(saved := t.cells, primary := Primary(t.row, t.column, t.saved_row, t.saved_column, t.pen,
          t.cursor_visible, t.autowrap),
                 alternate_active := true, pen := PLAIN, cursor_visible := true, autowrap := true))
    else if !enabled && t.alternate_active then
      t.(cells := t.saved, row := t.primary.row, column := t.primary.column, saved_row := t.primary.saved_row,
         saved_column := t.primary.saved_column, pen := t.primary.pen, cursor_visible := t.primary.cursor_visible,
         autowrap := t.primary.autowrap, wrap_pending := false, alternate_active := false)
    else t
  }

  function MovedTo(t: Term, row: int, column: int): (r: Term)
    requires Ok(t)
    ensures Ok(r)
  {
    t.(row := Clamp(row, 0, ROWS - 1), column := Clamp(column, 0, COLUMNS - 1))
  }

  function ModeSet(t: Term, enabled: bool): (r: Term)
    requires Ok(t)
    ensures Ok(r)
  {
    var mode := Parameter(t, 0, 0);
    if mode == 25 then t.(cursor_visible := enabled)
    else if mode == 7 then t.(autowrap := enabled)
    else if mode == 1049 then Switched(t, enabled)
    else t
  }

  /** The commands that only move the cursor. */
  function CursorMoved(t: Term, command: char, amount: nat): (r: Term)
    requires Ok(t)
    ensures Ok(r)
  {
    match command
    case 'A' => MovedTo(t, t.row - amount, t.column)
    case 'B' => MovedTo(t, t.row + amount, t.column)
    case 'e' => MovedTo(t, t.row + amount, t.column)
    case 'C' => MovedTo(t, t.row, t.column + amount)
    case 'a' => MovedTo(t, t.row, t.column + amount)
    case 'D' => MovedTo(t, t.row, t.column - amount)
    case 'E' => MovedTo(t, t.row + amount, 0)
    case 'F' => MovedTo(t, t.row - amount, 0)
    case 'G' => MovedTo(t, t.row, Parameter(t, 0, 1) - 1)
    case '`' => MovedTo(t, t.row, Parameter(t, 0, 1) - 1)
    case 'H' => MovedTo(t, Parameter(t, 0, 1) - 1, Parameter(t, 1, 1) - 1)
    case 'f' => MovedTo(t, Parameter(t, 0, 1) - 1, Parameter(t, 1, 1) - 1)
    case 'd' => MovedTo(t, Parameter(t, 0, 1) - 1, t.column)
    case 's' => t.(saved_row := t.row, saved_column := t.column)
    case 'u' => MovedTo(t, t.saved_row, t.saved_column)
    case _ => t
  }

  /** The commands that change cells. */
  function CellsChanged(t: Term, command: char, amount: nat): (r: Term)
    requires Ok(t)
    ensures Ok(r)
  {
    match command
    case 'J' => DisplayErased(t, Parameter(t, 0, 0))
    case 'K' => LineErased(t, Parameter(t, 0, 0))
    case 'L' => LinesInserted(t, amount)
    case 'M' => LinesDeleted(t, amount)
    case '@' => CharactersInserted(t, amount)
    case 'P' => CharactersDeleted(t, amount)
    case 'X' => CharactersErased(t, amount)
    case 'S' => ScrolledUp(t, amount)
    case 'T' => ScrolledDown(t, amount)
    case _ => t
  }

  predicate MovesCursor(command: char) { command in "ABeCaDEFG`Hfdsu" }

  predicate ChangesCells(command: char) { command in "JKLM@PXST" }

  function Amount(t: Term): nat { if Parameter(t, 0, 1) < 1 then 1 else Parameter(t, 0, 1) }

  function Obeyed(t: Term, command: char): (r: Term)
    requires Ok(t)
    ensures Ok(r)
  {
    if MovesCursor(command) then CursorMoved(t, command, Amount(t))
    else if ChangesCells(command) then CellsChanged(t, command, Amount(t))
    else if command == 'm' then Styled(t)
    else if (command == 'h' || command == 'l') && t.private_sequence then ModeSet(t, command == 'h')
    else t
  }

  /** execute_csi. */
  function Executed(t: Term, command: char): (r: Term)
    requires Ok(t)
    ensures Ok(r)
  {
    Obeyed(t, command).(wrap_pending := false)
  }

  /** A wrap that is due takes place. */
  function Wrapped(t: Term): (r: Term)
    requires Ok(t)
    ensures Ok(r) && !r.wrap_pending
  {
    (if t.wrap_pending && t.autowrap then LineFed(t.(column := 0)) else t).(wrap_pending := false)
  }

  /** put_character. */
  function Printed(t: Term, character: Byte): (r: Term)
    requires Ok(t)
    ensures Ok(r)
  {
    var t := Wrapped(t);
    var t := t.(cells := t.cells[t.row := t.cells[t.row][t.column := Inked(t.pen, character)]]);
    if t.column == COLUMNS - 1 then t.(wrap_pending := t.autowrap) else t.(column := t.column + 1)
  }

  /** The commands after ESC that move the cursor by a line: D down, E to the next line, M up. */
  function MovedByLine(t: Term, command: char): (r: Term)
    requires Ok(t)
    ensures Ok(r)
  {
    if command == 'D' then LineFed(t)
    else if command == 'E' then LineFed(t.(column := 0))
    else if command == 'M' then if t.row == 0 then ScrolledDown(t, 1) else t.(row := t.row - 1)
    else t
  }

  /** A byte after ESC. */
  function Escaped(t: Term, b: Byte): (r: Term)
    requires Ok(t)
    ensures Ok(r)
  {
    Command(t.(parser := Ground), b)
  }

  function Command(t: Term, b: Byte): (r: Term)
    requires Ok(t)
    ensures Ok(r)
  {
    match b as char
    case '[' => t.(parser := Csi, parameters := [], private_sequence := false)
    case ']' => t.(parser := Osc)
    case '(' => t.(parser := Charset)
    case ')' => t.(parser := Charset)
    case '7' => t.(saved_row := t.row, saved_column := t.column)
    case '8' => MovedTo(t, t.saved_row, t.saved_column)
    case 'c' => Reset(t)
    case _ => MovedByLine(t, b as char)
  }

  /** A digit or a semicolon of a control sequence. */
  function Numbered(parameters: seq<int>, b: Byte): (r: seq<int>)
    requires |parameters| <= MAX_PARAMETERS
    ensures |r| <= MAX_PARAMETERS
  {
    if b as char == ';' then
      var given := if |parameters| == 0 then [-1] else parameters;
      if |given| < MAX_PARAMETERS then given + [-1] else given
    else
      var given := if |parameters| == 0 then [0] else parameters;
      var last := given[|given| - 1];
      given[|given| - 1 := (if last < 0 then 0 else last) * 10 + b - 48]
  }

  /** A byte of a control sequence. */
  function Sequenced(t: Term, b: Byte): (r: Term)
    requires Ok(t)
    ensures Ok(r)
  {
    if b as char == '?' && |t.parameters| == 0 then t.(private_sequence := true)
    else if '0' <= b as char <= '9' || b as char == ';' then t.(parameters := Numbered(t.parameters, b))
    else if '@' <= b as char <= '~' then Executed(t, b as char).(parser := Ground)
    else t
  }

  /** A byte outside of any sequence. */
  function Plainly(t: Term, b: Byte): (r: Term)
    requires Ok(t)
    ensures Ok(r)
  {
    if b == ESC then t.(parser := Escape)
    else if b == 13 then t.(column := 0, wrap_pending := false)
    else if 10 <= b <= 12 then LineFed(t.(column := 0))
    else if b == 8 then t.(wrap_pending := false, column := if t.column > 0 then t.column - 1 else 0)
    else if b == 9 then t.(wrap_pending := false, column := Clamp((t.column + 8) / 8 * 8, 0, COLUMNS - 1))
    else if b >= 32 && b != 127 then Printed(t, b)
    else t
  }

  /** feed. */
  function Fed(t: Term, b: Byte): (r: Term)
    requires Ok(t)
    ensures Ok(r)
  {
    match t.parser
    case Osc => if b == 7 then t.(parser := Ground) else if b == ESC then t.(parser := OscEscape) else t
    case OscEscape => t.(parser := if b as char == '\\' then Ground else Osc)
    case Charset => t.(parser := Ground)
    case Escape => Escaped(t, b)
    case Csi => Sequenced(t, b)
    case Ground => Plainly(t, b)
  }

  /** kvt_write. */
  function Written(t: Term, bytes: seq<Byte>): (r: Term)
    requires Ok(t)
    ensures Ok(r)
    decreases |bytes|
  {
    if bytes == [] then t else Written(Fed(t, bytes[0]), bytes[1..])
  }

  /** How a text is cut into writes makes no difference. */
  lemma {:induction false} WrittenInParts(t: Term, a: seq<Byte>, b: seq<Byte>)
    requires Ok(t)
    ensures Written(t, a + b) == Written(Written(t, a), b)
    decreases |a|
  {
    if a == [] {
      assert a + b == b;
    } else {
      assert (a + b)[0] == a[0] && (a + b)[1..] == a[1..] + b;
      WrittenInParts(Fed(t, a[0]), a[1..], b);
    }
  }

  // ----- the alternate screen -----

  const PARAMETER_1049: seq<Byte> := [ESC, 91, 63, 49, 48, 52, 57]

  /** ESC [ ? 1049 h and ESC [ ? 1049 l. */
  const ENTER: seq<Byte> := PARAMETER_1049 + [104]
  const LEAVE: seq<Byte> := PARAMETER_1049 + [108]

  /** The terminal after ESC [ ? 1049. */
  function Asked(t: Term): (r: Term)
    requires Ok(t)
    ensures Ok(r)
  {
    t.(parser := Csi, parameters := [1049], private_sequence := true)
  }

  lemma WrittenLast(t: Term, bytes: seq<Byte>, b: Byte, after: Term)
    requires Ok(t) && Ok(after) && Written(t, bytes) == after
    ensures Written(t, bytes + [b]) == Fed(after, b)
  {
    WrittenInParts(t, bytes, [b]);
    WrittenOne(after, b);
  }

  lemma WrittenOne(t: Term, b: Byte)
    requires Ok(t)
    ensures Written(t, [b]) == Fed(t, b)
  {
    hide Fed, Ok;
    assert [b][1..] == [];
    assert Written(Fed(t, b), []) == Fed(t, b);
  }

  /** A digit after a control sequence's digits. */
  lemma AskedDigit(t: Term, value: nat, b: Byte)
    requires Ok(t) && t.parser.Csi? && t.parameters == [value] && '0' <= b as char <= '9'
    ensures Fed(t, b) == t.(parameters := [value * 10 + b - 48])
  {
  }

  /** ESC [ ? and the first digit. */
  lemma AskedBegins(t: Term)
    requires Ok(t) && t.parser.Ground?
    ensures Fed(Fed(Fed(Fed(t, ESC), 91), 63), 49) == Asked(t).(parameters := [1])
  {
    assert Fed(Fed(t, ESC), 91) == t.(parser := Csi, parameters := [], private_sequence := false);
    assert Numbered([], 49) == [1];
  }

  lemma AskedIs(t: Term)
    requires Ok(t) && t.parser.Ground?
    ensures Written(t, PARAMETER_1049) == Asked(t)
  {
    WrittenNone(t);
    AskedBegins(t);
    AskedDigit(Asked(t).(parameters := [1]), 1, 48);
    AskedDigit(Asked(t).(parameters := [10]), 10, 52);
    AskedDigit(Asked(t).(parameters := [104]), 104, 57);
    hide *;
    var t1 := Fed(t, ESC);
    var t2 := Fed(t1, 91);
    var t3 := Fed(t2, 63);
    WrittenLast(t, [], ESC, t);
    WrittenLast(t, [] + [ESC], 91, t1);
    WrittenLast(t, [] + [ESC] + [91], 63, t2);
    WrittenLast(t, [] + [ESC] + [91] + [63], 49, t3);
    WrittenLast(t, [] + [ESC] + [91] + [63] + [49], 48, Asked(t).(parameters := [1]));
    WrittenLast(t, [] + [ESC] + [91] + [63] + [49] + [48], 52, Asked(t).(parameters := [10]));
    WrittenLast(t, [] + [ESC] + [91] + [63] + [49] + [48] + [52], 57, Asked(t).(parameters := [104]));
    assert [] + [ESC] + [91] + [63] + [49] + [48] + [52] + [57] == PARAMETER_1049;
    assert Asked(t).(parameters := [1049]) == Asked(t);
  }

  lemma WrittenNone(t: Term)
    requires Ok(t)
    ensures Written(t, []) == t
  {
  }

  // ----- reading a text -----

  /** What decides how the next byte is understood. */
  datatype Reading = Reading(parser: Parser, private_sequence: bool, parameters: seq<int>)

  function ReadingOf(t: Term): Reading { Reading(t.parser, t.private_sequence, t.parameters) }

  /** The byte's effect on that, whatever is on the screen. */
  function ReadOn(r: Reading, b: Byte): (r': Reading)
    requires |r.parameters| <= MAX_PARAMETERS
    ensures |r'.parameters| <= MAX_PARAMETERS
  {
    match r.parser
    case Osc => r.(parser := if b == 7 then Ground else if b == ESC then OscEscape else Osc)
    case OscEscape => r.(parser := if b as char == '\\' then Ground else Osc)
    case Charset => r.(parser := Ground)
    case Escape =>
      if b as char == '[' then Reading(Csi, false, [])
      else if b as char == ']' then r.(parser := Osc)
      else if b as char == '(' || b as char == ')' then r.(parser := Charset)
      else if b as char == 'c' then Reading(Ground, false, [])
      else r.(parser := Ground)
    case Csi =>
      if b as char == '?' && |r.parameters| == 0 then r.(private_sequence := true)
      else if '0' <= b as char <= '9' || b as char == ';' then r.(parameters := Numbered(r.parameters, b))
      else if '@' <= b as char <= '~' then r.(parser := Ground)
      else r
    case Ground => if b == ESC then r.(parser := Escape) else r
  }

  function ReadText(r: Reading, bytes: seq<Byte>): (r': Reading)
    requires |r.parameters| <= MAX_PARAMETERS
    ensures |r'.parameters| <= MAX_PARAMETERS
    decreases |bytes|
  {
    if bytes == [] then r else ReadText(ReadOn(r, bytes[0]), bytes[1..])
  }

  /** The byte is the end of ESC [ ? 1049 h, or of ESC [ ? 1049 l. */
  predicate Switches(r: Reading, command: char, b: Byte) {
    r.parser.Csi? && b as char == command && r.private_sequence && |r.parameters| > 0 && r.parameters[0] == 1049
  }

  predicate Resets(r: Reading, b: Byte) { r.parser.Escape? && b as char == 'c' }

  /** No byte of the text makes the terminal leave the alternate screen. */
  predicate NeverLeaves(r: Reading, bytes: seq<Byte>)
    requires |r.parameters| <= MAX_PARAMETERS
    decreases |bytes|
  {
    bytes == [] || (!Switches(r, 'l', bytes[0]) && NeverLeaves(ReadOn(r, bytes[0]), bytes[1..]))
  }

  /** No byte of the text makes it start anew. */
  predicate NeverResets(r: Reading, bytes: seq<Byte>)
    requires |r.parameters| <= MAX_PARAMETERS
    decreases |bytes|
  {
    bytes == [] || (!Resets(r, bytes[0]) && NeverResets(ReadOn(r, bytes[0]), bytes[1..]))
  }

  lemma FedReads(t: Term, b: Byte)
    requires Ok(t)
    ensures ReadingOf(Fed(t, b)) == ReadOn(ReadingOf(t), b)
  {
    hide Ok, Escaped, Sequenced, Plainly, Numbered;
    if t.parser.Escape? { EscapedReads(t, b); }
    if t.parser.Csi? { SequencedReads(t, b); }
    if t.parser.Ground? { PlainlyReads(t, b); }
  }

  lemma MovedToReads(t: Term, row: int, column: int)
    requires Ok(t)
    ensures ReadingOf(MovedTo(t, row, column)) == ReadingOf(t)
  {
    hide Ok, Clamp;
  }

  lemma CommandReads(t: Term, b: Byte)
    requires Ok(t) && t.parser.Ground?
    ensures ReadingOf(Command(t, b)) == ReadOn(ReadingOf(t).(parser := Escape), b)
  {
    hide MovedByLine, MovedTo, Cleared, GridOk, Numbered;
    MovedByLineReads(t, b as char);
    MovedToReads(t, t.saved_row, t.saved_column);
    ClearedReads(Initial(t));
  }

  lemma ClearedReads(t: Term)
    requires Ok(t)
    ensures ReadingOf(Cleared(t)) == ReadingOf(t)
  {
    hide Ok, BlankRows, Inked;
  }

  lemma EscapedReads(t: Term, b: Byte)
    requires Ok(t) && t.parser.Escape?
    ensures ReadingOf(Escaped(t, b)) == ReadOn(ReadingOf(t), b)
  {
    hide Command, ReadOn, GridOk;
    CommandReads(t.(parser := Ground), b);
    assert ReadingOf(t.(parser := Ground)).(parser := Escape) == ReadingOf(t);
  }

  lemma SequencedReads(t: Term, b: Byte)
    requires Ok(t) && t.parser.Csi?
    ensures ReadingOf(Sequenced(t, b)) == ReadOn(ReadingOf(t), b)
  {
    hide Ok, Executed, Numbered;
    ExecutedReads(t, b as char);
  }

  lemma LineFedReads(t: Term)
    requires Ok(t)
    ensures ReadingOf(LineFed(t)) == ReadingOf(t)
  {
    hide Ok, RowsUp, Inked;
  }

  lemma PrintedReads(t: Term, character: Byte)
    requires Ok(t)
    ensures ReadingOf(Printed(t, character)) == ReadingOf(t)
  {
    hide LineFed, Inked, GridOk;
    LineFedReads(t.(column := 0));
  }

  lemma PlainlyReads(t: Term, b: Byte)
    requires Ok(t) && t.parser.Ground?
    ensures ReadingOf(Plainly(t, b)) == ReadOn(ReadingOf(t), b)
  {
    hide LineFed, Printed, GridOk, Numbered;
    LineFedReads(t.(column := 0));
    PrintedReads(t, b);
  }

  lemma MovedByLineReads(t: Term, command: char)
    requires Ok(t)
    ensures ReadingOf(MovedByLine(t, command)) == ReadingOf(t)
  {
    hide Ok, RowsUp, RowsDown, Inked;
  }

  lemma ExecutedReads(t: Term, command: char)
    requires Ok(t)
    ensures ReadingOf(Executed(t, command)) == ReadingOf(t)
  {
    hide Ok, CursorMoved, CellsChanged, RestyledBy, Amount, MovesCursor, ChangesCells;
    MovedReads(t, command, Amount(t));
    ChangedReads(t, command, Amount(t));
  }

  lemma MovedReads(t: Term, command: char, amount: nat)
    requires Ok(t)
    ensures ReadingOf(CursorMoved(t, command, amount)) == ReadingOf(t)
  {
    hide Ok, Clamp, Parameter;
  }

  lemma ErasedReads(t: Term, mode: int)
    requires Ok(t)
    ensures ReadingOf(LineErased(t, mode)) == ReadingOf(DisplayErased(t, mode)) == ReadingOf(t)
  {
    hide Ok, Inked, Erased, ErasedRows, BlankRows;
  }

  lemma ChangedReads(t: Term, command: char, amount: nat)
    requires Ok(t)
    ensures ReadingOf(CellsChanged(t, command, amount)) == ReadingOf(t)
  {
    hide Ok, LineErased, DisplayErased, RowsUp, RowsDown, Inked, Erased, CellsLeft, CellsRight, Clamp, Parameter;
    ErasedReads(t, Parameter(t, 0, 0));
  }

  lemma {:induction false} WrittenReads(t: Term, bytes: seq<Byte>)
    requires Ok(t)
    ensures ReadingOf(Written(t, bytes)) == ReadText(ReadingOf(t), bytes)
    decreases |bytes|
  {
    hide Fed, Ok, ReadOn;
    if bytes != [] {
      FedReads(t, bytes[0]);
      WrittenReads(Fed(t, bytes[0]), bytes[1..]);
    }
  }

  // ----- what is set aside -----

  /** The terminal with other things set aside. */
  function With(t: Term, saved: Grid, primary: Primary): Term { t.(saved := saved, primary := primary) }

  lemma LineFedAside(t: Term, saved: Grid, primary: Primary)
    requires Ok(t) && Ok(With(t, saved, primary))
    ensures LineFed(With(t, saved, primary)) == With(LineFed(t), saved, primary)
    ensures LineFed(t).alternate_active == t.alternate_active
  {
    hide Ok, RowsUp, Inked;
  }

  lemma MovedToAside(t: Term, saved: Grid, primary: Primary, row: int, column: int)
    requires Ok(t) && Ok(With(t, saved, primary))
    ensures MovedTo(With(t, saved, primary), row, column) == With(MovedTo(t, row, column), saved, primary)
    ensures MovedTo(t, row, column).alternate_active == t.alternate_active
  {
    hide Ok, Clamp;
  }

  lemma WrappedAside(t: Term, saved: Grid, primary: Primary)
    requires Ok(t) && Ok(With(t, saved, primary))
    ensures Wrapped(With(t, saved, primary)) == With(Wrapped(t), saved, primary)
    ensures Wrapped(t).alternate_active == t.alternate_active
  {
    hide Inked, LineFed;
    LineFedAside(t.(column := 0), saved, primary);
  }

  lemma PrintedAside(t: Term, saved: Grid, primary: Primary, character: Byte)
    requires Ok(t) && Ok(With(t, saved, primary))
    ensures Printed(With(t, saved, primary), character) == With(Printed(t, character), saved, primary)
    ensures Printed(t, character).alternate_active == t.alternate_active
  {
    hide Inked, Wrapped;
    WrappedAside(t, saved, primary);
  }

  lemma PlainlyAside(t: Term, saved: Grid, primary: Primary, b: Byte)
    requires Ok(t) && Ok(With(t, saved, primary))
    ensures Plainly(With(t, saved, primary), b) == With(Plainly(t, b), saved, primary)
    ensures Plainly(t, b).alternate_active == t.alternate_active
  {
    hide RowsUp, Inked, LineFed, Printed;
    LineFedAside(t.(column := 0), saved, primary);
    PrintedAside(t, saved, primary, b);
  }

  lemma LineAside(t: Term, saved: Grid, primary: Primary, command: char)
    requires Ok(t) && Ok(With(t, saved, primary))
    ensures MovedByLine(With(t, saved, primary), command) == With(MovedByLine(t, command), saved, primary)
    ensures MovedByLine(t, command).alternate_active == t.alternate_active
  {
    hide LineFed, ScrolledDown;
    LineFedAside(t, saved, primary);
    LineFedAside(t.(column := 0), saved, primary);
    ScrolledDownAside(t, saved, primary, 1);
  }

  lemma CommandAside(t: Term, saved: Grid, primary: Primary, b: Byte)
    requires Ok(t) && Ok(With(t, saved, primary)) && b as char != 'c'
    ensures Command(With(t, saved, primary), b) == With(Command(t, b), saved, primary)
    ensures Command(t, b).alternate_active == t.alternate_active
  {
    hide Ok, MovedByLine, MovedTo, Reset;
    if b as char == '8' {
      MovedToAside(t, saved, primary, t.saved_row, t.saved_column);
    } else if b as char !in "[]()7" {
      LineAside(t, saved, primary, b as char);
    }
  }

  lemma EscapedAside(t: Term, saved: Grid, primary: Primary, b: Byte)
    requires Ok(t) && Ok(With(t, saved, primary)) && b as char != 'c'
    ensures Escaped(With(t, saved, primary), b) == With(Escaped(t, b), saved, primary)
    ensures Escaped(t, b).alternate_active == t.alternate_active
  {
    hide Command;
    assert With(t, saved, primary).(parser := Ground) == With(t.(parser := Ground), saved, primary);
    CommandAside(t.(parser := Ground), saved, primary, b);
  }

  lemma MovedAside(t: Term, saved: Grid, primary: Primary, command: char, amount: nat)
    requires Ok(t) && Ok(With(t, saved, primary))
    ensures CursorMoved(With(t, saved, primary), command, amount) == With(CursorMoved(t, command, amount), saved,
        primary)
    ensures CursorMoved(t, command, amount).alternate_active == t.alternate_active
  {
    hide Ok, MovedTo, Parameter;
    ParameterAside(t, saved, primary, 0, 1);
    ParameterAside(t, saved, primary, 1, 1);
    forall row, column ensures MovedTo(With(t, saved, primary), row, column) == With(MovedTo(t, row, column), saved,
        primary) {
      MovedToAside(t, saved, primary, row, column);
    }
    forall row, column ensures MovedTo(t, row, column).alternate_active == t.alternate_active { MovedToAside(t, saved,
        primary, row, column); }
  }

  lemma LineErasedAside(t: Term, saved: Grid, primary: Primary, mode: int)
    requires Ok(t) && Ok(With(t, saved, primary))
    ensures LineErased(With(t, saved, primary), mode) == With(LineErased(t, mode), saved, primary)
    ensures LineErased(t, mode).alternate_active == t.alternate_active
  {
    hide Ok, RowsUp, RowsDown, Inked, Erased, ErasedRows, CellsLeft, CellsRight, BlankRows, Clamp;
  }

  lemma DisplayErasedAside(t: Term, saved: Grid, primary: Primary, mode: int)
    requires Ok(t) && Ok(With(t, saved, primary))
    ensures DisplayErased(With(t, saved, primary), mode) == With(DisplayErased(t, mode), saved, primary)
    ensures DisplayErased(t, mode).alternate_active == t.alternate_active
  {
    hide Inked, LineErased;
    LineErasedAside(t, saved, primary, 0);
    LineErasedAside(t.(cells := ErasedRows(t.cells, 0, t.row, Blank(t.pen))), saved, primary, 1);
  }

  lemma LinesInsertedAside(t: Term, saved: Grid, primary: Primary, amount: int)
    requires Ok(t) && Ok(With(t, saved, primary))
    ensures LinesInserted(With(t, saved, primary), amount) == With(LinesInserted(t, amount), saved, primary)
    ensures LinesInserted(t, amount).alternate_active == t.alternate_active
  {
    hide Ok, RowsUp, RowsDown, Inked, Erased, ErasedRows, CellsLeft, CellsRight, BlankRows, Clamp;
  }

  lemma LinesDeletedAside(t: Term, saved: Grid, primary: Primary, amount: int)
    requires Ok(t) && Ok(With(t, saved, primary))
    ensures LinesDeleted(With(t, saved, primary), amount) == With(LinesDeleted(t, amount), saved, primary)
    ensures LinesDeleted(t, amount).alternate_active == t.alternate_active
  {
    hide Ok, RowsUp, RowsDown, Inked, Erased, ErasedRows, CellsLeft, CellsRight, BlankRows, Clamp;
  }

  lemma CharactersInsertedAside(t: Term, saved: Grid, primary: Primary, amount: int)
    requires Ok(t) && Ok(With(t, saved, primary))
    ensures CharactersInserted(With(t, saved, primary), amount) == With(CharactersInserted(t, amount), saved, primary)
    ensures CharactersInserted(t, amount).alternate_active == t.alternate_active
  {
    hide Ok, RowsUp, RowsDown, Inked, Erased, ErasedRows, CellsLeft, CellsRight, BlankRows, Clamp;
  }

  lemma CharactersDeletedAside(t: Term, saved: Grid, primary: Primary, amount: int)
    requires Ok(t) && Ok(With(t, saved, primary))
    ensures CharactersDeleted(With(t, saved, primary), amount) == With(CharactersDeleted(t, amount), saved, primary)
    ensures CharactersDeleted(t, amount).alternate_active == t.alternate_active
  {
    hide Ok, RowsUp, RowsDown, Inked, Erased, ErasedRows, CellsLeft, CellsRight, BlankRows, Clamp;
  }

  lemma CharactersErasedAside(t: Term, saved: Grid, primary: Primary, amount: nat)
    requires Ok(t) && Ok(With(t, saved, primary))
    ensures CharactersErased(With(t, saved, primary), amount) == With(CharactersErased(t, amount), saved, primary)
    ensures CharactersErased(t, amount).alternate_active == t.alternate_active
  {
    hide Ok, RowsUp, RowsDown, Inked, Erased, ErasedRows, CellsLeft, CellsRight, BlankRows, Clamp;
  }

  lemma ScrolledUpAside(t: Term, saved: Grid, primary: Primary, amount: nat)
    requires Ok(t) && Ok(With(t, saved, primary))
    ensures ScrolledUp(With(t, saved, primary), amount) == With(ScrolledUp(t, amount), saved, primary)
    ensures ScrolledUp(t, amount).alternate_active == t.alternate_active
  {
    hide Ok, RowsUp, RowsDown, Inked, Erased, ErasedRows, CellsLeft, CellsRight, BlankRows, Clamp;
  }

  lemma ScrolledDownAside(t: Term, saved: Grid, primary: Primary, amount: nat)
    requires Ok(t) && Ok(With(t, saved, primary))
    ensures ScrolledDown(With(t, saved, primary), amount) == With(ScrolledDown(t, amount), saved, primary)
    ensures ScrolledDown(t, amount).alternate_active == t.alternate_active
  {
    hide Ok, RowsUp, RowsDown, Inked, Erased, ErasedRows, CellsLeft, CellsRight, BlankRows, Clamp;
  }

  lemma ChangedAside(t: Term, saved: Grid, primary: Primary, command: char, amount: nat)
    requires Ok(t) && Ok(With(t, saved, primary))
    ensures CellsChanged(With(t, saved, primary), command, amount) == With(CellsChanged(t, command, amount), saved,
        primary)
    ensures CellsChanged(t, command, amount).alternate_active == t.alternate_active
  {
    hide Ok, LineErased, DisplayErased, LinesInserted, LinesDeleted, CharactersInserted, CharactersDeleted,
      CharactersErased, ScrolledUp, ScrolledDown;
    if command == 'J' { DisplayErasedAside(t, saved, primary, Parameter(t, 0, 0)); }
    if command == 'K' { LineErasedAside(t, saved, primary, Parameter(t, 0, 0)); }
    if command == 'L' { LinesInsertedAside(t, saved, primary, amount); }
    if command == 'M' { LinesDeletedAside(t, saved, primary, amount); }
    if command == '@' { CharactersInsertedAside(t, saved, primary, amount); }
    if command == 'P' { CharactersDeletedAside(t, saved, primary, amount); }
    if command == 'X' { CharactersErasedAside(t, saved, primary, amount); }
    if command == 'S' { ScrolledUpAside(t, saved, primary, amount); }
    if command == 'T' { ScrolledDownAside(t, saved, primary, amount); }
  }

  lemma StyleAside(t: Term, saved: Grid, primary: Primary, n: nat)
    ensures RestyledBy(With(t, saved, primary), n) == RestyledBy(t, n)
  {
    hide Restyled;
    if n > 0 { StyleAside(t, saved, primary, n - 1); }
  }

  lemma ModeAside(t: Term, saved: Grid, primary: Primary, enabled: bool)
    requires Ok(t) && Ok(With(t, saved, primary)) && (Parameter(t, 0, 0) == 1049 ==> enabled == t.alternate_active)
    ensures ModeSet(With(t, saved, primary), enabled) == With(ModeSet(t, enabled), saved, primary)
    ensures ModeSet(t, enabled).alternate_active == t.alternate_active
  {
    hide Ok, Inked, BlankRows;
  }

  lemma ParameterAside(t: Term, saved: Grid, primary: Primary, index: nat, fallback: int)
    ensures Parameter(With(t, saved, primary), index, fallback) == Parameter(t, index, fallback)
  {
  }

  lemma StyledAside(t: Term, saved: Grid, primary: Primary)
    requires Ok(t) && Ok(With(t, saved, primary))
    ensures Styled(With(t, saved, primary)) == With(Styled(t), saved, primary)
    ensures Styled(t).alternate_active == t.alternate_active
  {
    hide Ok, RestyledBy;
    StyleAside(t, saved, primary, if |t.parameters| == 0 then 1 else |t.parameters|);
  }

  lemma ObeyedAside(t: Term, saved: Grid, primary: Primary, command: char)
    requires Ok(t) && Ok(With(t, saved, primary)) && ((command == 'h' || command == 'l') && t.private_sequence && Parameter(t, 0, 0) == 1049 ==> (command == 'h') == t.alternate_active)
    ensures Obeyed(With(t, saved, primary), command) == With(Obeyed(t, command), saved, primary)
    ensures Obeyed(t, command).alternate_active == t.alternate_active
  {
    hide Ok, CursorMoved, CellsChanged, ModeSet, Styled, MovesCursor, ChangesCells, Parameter;
    ParameterAside(t, saved, primary, 0, 1);
    MovedAside(t, saved, primary, command, Amount(t));
    ChangedAside(t, saved, primary, command, Amount(t));
    StyledAside(t, saved, primary);
    if (command == 'h' || command == 'l') && t.private_sequence { ModeAside(t, saved, primary, command == 'h'); }
  }

  lemma ExecutedAside(t: Term, saved: Grid, primary: Primary, command: char)
    requires Ok(t) && Ok(With(t, saved, primary)) && ((command == 'h' || command == 'l') && t.private_sequence && Parameter(t, 0, 0) == 1049 ==> (command == 'h') == t.alternate_active)
    ensures Executed(With(t, saved, primary), command) == With(Executed(t, command), saved, primary)
    ensures Executed(t, command).alternate_active == t.alternate_active
  {
    hide Ok, Obeyed, Parameter;
    ObeyedAside(t, saved, primary, command);
  }

  lemma SequencedAside(t: Term, saved: Grid, primary: Primary, b: Byte)
    requires Ok(t) && Ok(With(t, saved, primary)) && ((b as char == 'h' || b as char == 'l') && t.private_sequence && Parameter(t, 0, 0) == 1049 ==> (b as char == 'h') == t.alternate_active)
    ensures Sequenced(With(t, saved, primary), b) == With(Sequenced(t, b), saved, primary)
    ensures Sequenced(t, b).alternate_active == t.alternate_active
  {
    hide Executed, Numbered, Ok;
    if '@' <= b as char <= '~' { ExecutedAside(t, saved, primary, b as char); }
  }

  lemma ParameterIs(t: Term)
    ensures Parameter(t, 0, 0) == 1049 <==> |t.parameters| > 0 && t.parameters[0] == 1049
  {
  }

  /** The byte changes screens. */
  predicate Changes(t: Term, b: Byte) {
    (Switches(ReadingOf(t), 'h', b) && !t.alternate_active) || (Switches(ReadingOf(t), 'l', b) && t.alternate_active)
  }

  /** A byte that does not change screens does the same whatever is set aside, and leaves it there. */
  lemma FedAside(t: Term, saved: Grid, primary: Primary, b: Byte)
    requires Ok(t) && Ok(With(t, saved, primary)) && !Changes(t, b)
    ensures Fed(With(t, saved, primary), b) == With(Fed(t, b), saved, primary)
    ensures Fed(t, b).alternate_active == (t.alternate_active && !Resets(ReadingOf(t), b))
  {
    hide Ok, Escaped, Sequenced, Plainly, Parameter;
    if t.parser.Csi? {
      ParameterIs(t);
      SequencedAside(t, saved, primary, b);
    } else if t.parser.Ground? {
      PlainlyAside(t, saved, primary, b);
    } else if t.parser.Escape? {
      if b as char == 'c' { ResetAside(t, saved, primary, b); } else { EscapedAside(t, saved, primary, b); }
    }
  }

  lemma ResetAside(t: Term, saved: Grid, primary: Primary, b: Byte)
    requires Ok(t) && Ok(With(t, saved, primary)) && b as char == 'c'
    ensures Escaped(With(t, saved, primary), b) == With(Escaped(t, b), saved, primary)
    ensures !Escaped(t, b).alternate_active
  {
    hide Ok, BlankRows, Inked;
  }

  /** The alternate screen is shown, and t0 is what is set aside. */
  predicate Aside(t: Term, t0: Term) {
    && t.alternate_active && t.saved == t0.cells
    && t.primary == Primary(t0.row, t0.column, t0.saved_row, t0.saved_column, t0.pen, t0.cursor_visible, t0.autowrap)
  }

  lemma FedKeepsAside(t: Term, t0: Term, b: Byte)
    requires Ok(t) && Aside(t, t0) && !Switches(ReadingOf(t), 'l', b) && !Resets(ReadingOf(t), b)
    ensures Aside(Fed(t, b), t0)
  {
    hide Fed, Ok;
    assert With(t, t.saved, t.primary) == t;
    FedAside(t, t.saved, t.primary, b);
  }

  lemma {:induction false} WrittenKeepsAside(t: Term, t0: Term, bytes: seq<Byte>)
    requires Ok(t) && Aside(t, t0) && NeverLeaves(ReadingOf(t), bytes) && NeverResets(ReadingOf(t), bytes)
    ensures Aside(Written(t, bytes), t0)
    decreases |bytes|
  {
    hide Fed, Ok, Aside, Switches, Resets, ReadOn;
    if bytes != [] {
      FedReads(t, bytes[0]);
      FedKeepsAside(t, t0, bytes[0]);
      WrittenKeepsAside(Fed(t, bytes[0]), t0, bytes[1..]);
    }
  }

  /** The two terminals differ at most in what is set aside; in that only while the primary screen is shown, if `same`.
      */
  predicate Alike(t: Term, u: Term, same: bool) {
    u == With(t, u.saved, u.primary) && (same && t.alternate_active ==> u == t)
  }

  lemma FedAlike(t: Term, u: Term, same: bool, b: Byte)
    requires Ok(t) && Ok(u) && Alike(t, u, same) && !Switches(ReadingOf(t), 'l', b)
    ensures Alike(Fed(t, b), Fed(u, b), same || Resets(ReadingOf(t), b))
  {
    if Changes(t, b) {
      EnterForgets(t, u, b);
    } else {
      hide Fed, Ok;
      FedAside(t, u.saved, u.primary, b);
    }
  }

  /** Entering the alternate screen replaces what is set aside. */
  lemma EnterForgets(t: Term, u: Term, b: Byte)
    requires Ok(t) && Ok(u) && u == With(t, u.saved, u.primary) && Switches(ReadingOf(t), 'h', b) && !t.alternate_active
    ensures Fed(t, b) == Fed(u, b)
  {
    hide Ok, CursorMoved, CellsChanged;
  }

  lemma {:induction false} WrittenAlike(t: Term, u: Term, same: bool, bytes: seq<Byte>)
    requires Ok(t) && Ok(u) && Alike(t, u, same) && NeverLeaves(ReadingOf(t), bytes)
    ensures Alike(Written(t, bytes), Written(u, bytes), same || !NeverResets(ReadingOf(t), bytes))
    decreases |bytes|
  {
    hide Fed, Ok, Alike, Switches, Resets, ReadOn;
    if bytes != [] {
      FedReads(t, bytes[0]);
      FedAlike(t, u, same, bytes[0]);
      WrittenAlike(Fed(t, bytes[0]), Fed(u, bytes[0]), same || Resets(ReadingOf(t), bytes[0]), bytes[1..]);
    }
  }

  // ----- entering and leaving -----

  lemma AskedSwitches(t: Term, enabled: bool)
    requires Ok(t)
    ensures Fed(Asked(t), if enabled then 104 else 108) == Switched(Asked(t), enabled).(parser := Ground,
        wrap_pending := false)
  {
    hide Switched, Ok, CursorMoved, CellsChanged;
  }

  lemma EnterIs(t: Term)
    requires Ok(t) && t.parser.Ground?
    ensures Written(t, ENTER) == Switched(Asked(t), true).(parser := Ground, wrap_pending := false)
  {
    AskedIs(t);
    AskedSwitches(t, true);
    hide Fed, Written, Ok, Switched;
    WrittenLast(t, PARAMETER_1049, 104, Asked(t));
  }

  lemma LeaveIs(t: Term)
    requires Ok(t) && t.parser.Ground?
    ensures Written(t, LEAVE) == Switched(Asked(t), false).(parser := Ground, wrap_pending := false)
  {
    AskedIs(t);
    AskedSwitches(t, false);
    hide Fed, Written, Ok, Switched;
    WrittenLast(t, PARAMETER_1049, 108, Asked(t));
  }

  /** What can be seen of t, and what later output depends on, besides a wrap that is due. */
  predicate SameScreen(t: Term, t': Term) {
    && t.cells == t'.cells && t.row == t'.row && t.column == t'.column && t.saved_row == t'.saved_row
    && t.saved_column == t'.saved_column
    && t.pen == t'.pen && t.cursor_visible == t'.cursor_visible && t.autowrap == t'.autowrap
    && t.parser == t'.parser && t.alternate_active == t'.alternate_active
  }

  /** How a text written right after ENTER is read. */
  const INSIDE: Reading := Reading(Ground, true, [1049])

  /** Entering the alternate screen, writing a text that neither leaves it nor resets the terminal, and leaving gives
      back the screen. */
  lemma AlternateRoundTrip(t: Term, bytes: seq<Byte>)
    requires Ok(t) && t.parser.Ground? && !t.alternate_active
    requires NeverLeaves(INSIDE, bytes) && NeverResets(INSIDE, bytes) && ReadText(INSIDE, bytes).parser.Ground?
    ensures SameScreen(t, Written(t, ENTER + bytes + LEAVE)) && !Written(t, ENTER + bytes + LEAVE).wrap_pending
  {
    EnterIs(t);
    var inside := Written(t, ENTER);
    EnteredAside(t);
    hide Written, Fed, Ok, Switched, Aside, SameScreen, NeverLeaves, NeverResets, ReadText;
    WrittenInParts(t, ENTER, bytes);
    WrittenInParts(t, ENTER + bytes, LEAVE);
    WrittenReads(inside, bytes);
    WrittenKeepsAside(inside, t, bytes);
    LeaveIs(Written(inside, bytes));
    LeftIs(Written(inside, bytes), t);
  }

  lemma EnteredAside(t: Term)
    requires Ok(t) && !t.alternate_active
    ensures Aside(Switched(Asked(t), true).(parser := Ground, wrap_pending := false), t)
  {
  }

  lemma LeftIs(t: Term, t0: Term)
    requires Ok(t) && Aside(t, t0) && t0.parser.Ground? && !t0.alternate_active
    ensures SameScreen(t0, Switched(Asked(t), false).(parser := Ground, wrap_pending := false))
  {
  }

  /** Writing the text inside the alternate screen gives every screen back. */
  ghost predicate GivesBack(bytes: seq<Byte>) {
    forall t :: Ok(t) && t.parser.Ground? && !t.alternate_active ==> SameScreen(t, Written(t, ENTER + bytes + LEAVE))
  }

  /** A text that does not leave the alternate screen itself gives every screen back if and only if it does not
      reset the terminal. */
  lemma GivesBackExactly(bytes: seq<Byte>)
    requires NeverLeaves(INSIDE, bytes) && ReadText(INSIDE, bytes).parser.Ground?
    ensures GivesBack(bytes) <==> NeverResets(INSIDE, bytes)
  {
    hide Written, Ok, SameScreen, NeverLeaves, NeverResets, ReadText;
    if NeverResets(INSIDE, bytes) {
      forall t | Ok(t) && t.parser.Ground? && !t.alternate_active ensures SameScreen(t,
          Written(t, ENTER + bytes + LEAVE)) {
        AlternateRoundTrip(t, bytes);
      }
    } else {
      var t, u := Filled(32), Filled(65);
      FilledDiffer();
      ResetForgets(t, u, bytes);
      SameCells(t, Written(t, ENTER + bytes + LEAVE));
      SameCells(u, Written(u, ENTER + bytes + LEAVE));
    }
  }

  lemma SameCells(t: Term, t': Term)
    ensures SameScreen(t, t') ==> t.cells == t'.cells
  {
  }

  /** After a text with a reset in it, nothing is left of the cells that were on the screen before. */
  lemma ResetForgets(t: Term, u: Term, bytes: seq<Byte>)
    requires Ok(t) && Ok(u) && t.parser.Ground? && u.parser.Ground? && !t.alternate_active && !u.alternate_active
    requires t.saved_row == u.saved_row && t.saved_column == u.saved_column
    requires NeverLeaves(INSIDE, bytes) && !NeverResets(INSIDE, bytes) && ReadText(INSIDE, bytes).parser.Ground?
    ensures Written(t, ENTER + bytes + LEAVE).cells == Written(u, ENTER + bytes + LEAVE).cells
  {
    EnterIs(t);
    EnterIs(u);
    EnteredAlike(t, u);
    hide Written, Fed, Ok, Switched, Alike, NeverLeaves, NeverResets, ReadText;
    WrittenInParts(t, ENTER, bytes);
    WrittenInParts(u, ENTER, bytes);
    WrittenInParts(t, ENTER + bytes, LEAVE);
    WrittenInParts(u, ENTER + bytes, LEAVE);
    var t1, u1 := Written(t, ENTER), Written(u, ENTER);
    WrittenAlike(t1, u1, false, bytes);
    var t2, u2 := Written(t1, bytes), Written(u1, bytes);
    WrittenReads(t1, bytes);
    WrittenReads(u1, bytes);
    LeaveIs(t2);
    LeaveIs(u2);
    LeftAlike(t2, u2);
  }

  lemma EnteredAlike(t: Term, u: Term)
    requires Ok(t) && Ok(u) && !t.alternate_active && !u.alternate_active && t.saved_row == u.saved_row
    requires t.saved_column == u.saved_column
    ensures var t1, u1 := Switched(Asked(t), true).(parser := Ground, wrap_pending := false), Switched(Asked(u),
        true).(parser := Ground, wrap_pending := false);
      Alike(t1, u1, false)
  {
  }

  lemma LeftAlike(t: Term, u: Term)
    requires Ok(t) && Ok(u) && Alike(t, u, true)
    ensures Switched(Asked(t), false).cells == Switched(Asked(u), false).cells
  {
  }

  /** A screen full of one character. */
  function Filled(character: Byte): (t: Term)
    ensures Ok(t)
  {
    var g := BlankRows(ROWS, Inked(PLAIN, character));
    Term(g, g, 0, 0, 0, 0, PLAIN, true, true, false, Ground, false, [], false, Primary(0, 0, 0, 0, PLAIN, true, true))
  }

  lemma FilledDiffer()
    ensures Filled(32).cells != Filled(65).cells
    ensures forall c: Byte :: Filled(c).parser.Ground? && !Filled(c).alternate_active && Filled(c).saved_row == Filled(c).saved_column == 0
  {
    assert Filled(32).cells[0][0] != Filled(65).cells[0][0];
  }
}
