/**
 * The night-mode state machine and the text-cell writer of the LED panel
 * (display_manager.py).
 *
 * The panel shows two lines of `LINE_LENGTH` character cells. Each cell has
 * a two-entry palette whose entry 1 is the character's colour, and a tile
 * grid whose entry 0 is the glyph index looked up in a 256-entry character
 * map. The hardware objects are abstracted: the palettes and grids become
 * integer arrays, the screen becomes three values (brightness, whether the
 * main group is hidden, which group is the root), and the clock and button
 * readings become parameters.
 */
module DisplayManager {
  import opened Wire
  import opened TrainService

  const CHAR_WIDTH: nat := 6
  const MATRIX_WIDTH: nat := 128

  /** Cells per line: the characters that fit the matrix, plus two. */
  const LINE_LENGTH: nat := MATRIX_WIDTH / CHAR_WIDTH + 2

  /** Glyphs the character map covers: code points 0 to 255. */
  const CHARMAP_SIZE: nat := 256

  /** The glyph every fresh tile grid shows (a space). */
  const DEFAULT_TILE: int := 32

  /** Quiet hours run from 20:00 to 03:30 (config.py). */
  const QUIET_START_HOUR: int := 20
  const QUIET_START_MIN: int := 0
  const QUIET_END_HOUR: int := 3
  const QUIET_END_MIN: int := 30

  /** The values `check_button` returns. */
  const NO_PRESS: int := 0
  const NIGHT_ON: int := 1
  const NIGHT_OFF: int := 2

  // ---------------------------------------------------------------------------
  // Quiet hours
  // ---------------------------------------------------------------------------

  /**
   * `is_quiet_hours` with the clock reading passed in: at or after the start
   * time, or before the end time, comparing hour first and then minute. On a
   * valid clock reading this is the minute of the day lying outside
   * [03:30, 20:00).
   */
  predicate IsQuietHours(hour: int, minute: int): (quiet: bool)
    ensures 0 <= hour < 24 && 0 <= minute < 60 ==>
              (quiet <==> hour * 60 + minute >= QUIET_START_HOUR * 60 + QUIET_START_MIN ||
                          hour * 60 + minute < QUIET_END_HOUR * 60 + QUIET_END_MIN)
  {
    if hour > QUIET_START_HOUR || (hour == QUIET_START_HOUR && minute >= QUIET_START_MIN) then true
    else if hour < QUIET_END_HOUR || (hour == QUIET_END_HOUR && minute < QUIET_END_MIN) then true
    else false
  }

  // ---------------------------------------------------------------------------
  // The mode flags and the screen
  // ---------------------------------------------------------------------------

  /** `display.brightness`: 1 or 0.1. */
  datatype Brightness = Full | Dim

  /** What `display.root_group` shows. */
  datatype RootGroup = MainGroup | NightGroup

  /** The part of the display's state that the mode logic reads and writes. */
  datatype Mode = Mode(nightMode: bool, manualNightMode: bool, lastButtonState: bool,
                       brightness: Brightness, mainGroupHidden: bool, root: RootGroup)

  /** The mode of a freshly built display: normal mode, and a button reading of `True` remembered. */
  const INITIAL_MODE: Mode := Mode(false, false, true, Full, false, MainGroup)

  /** The screen agrees with `night_mode`: dim, main group hidden, night group shown exactly in night mode. */
  predicate Consistent(m: Mode) {
    (m.brightness == Dim <==> m.nightMode) &&
    (m.mainGroupHidden <==> m.nightMode) &&
    (m.root == NightGroup <==> m.nightMode)
  }

  /** `show_night_mode`: switches to the dim night screen unless already in night mode. */
  function ShowNight(m: Mode): Mode {
    if !m.nightMode then m.(brightness := Dim, mainGroupHidden := true, root := NightGroup, nightMode := true)
    else m
  }

  /** `show_normal_mode`: switches to the full screen when either night flag is set; the manual flag is left alone. */
  function ShowNormal(m: Mode): Mode {
    if m.nightMode || m.manualNightMode then
      m.(brightness := Full, mainGroupHidden := false, root := MainGroup, nightMode := false)
    else m
  }

  /**
   * `check_button` given the reading `pressed`: the button counts as newly
   * pressed when the remembered reading was true and this one is false; that
   * toggles the manual flag and switches the screen to match.
   */
  function CheckButtonStep(m: Mode, pressed: bool): (Mode, int) {
    var newlyPressed := m.lastButtonState && !pressed;
    var m1 := m.(lastButtonState := pressed);
    if newlyPressed then
      var m2 := m1.(manualNightMode := !m1.manualNightMode);
      if m2.manualNightMode then (ShowNight(m2), NIGHT_ON) else (ShowNormal(m2), NIGHT_OFF)
    else (m1, NO_PRESS)
  }

  /** The mode `update_display` leaves: after the button check, night when manual or quiet, normal otherwise. */
  function UpdateMode(m: Mode, pressed: bool, hour: int, minute: int): Mode {
    var m1 := CheckButtonStep(m, pressed).0;
    if m1.manualNightMode then ShowNight(m1)
    else if IsQuietHours(hour, minute) then ShowNight(m1)
    else ShowNormal(m1)
  }

  /** Whether `update_display` goes on to write the two lines of text. */
  predicate UpdateWrites(m: Mode, pressed: bool, hour: int, minute: int) {
    var m1 := CheckButtonStep(m, pressed).0;
    !m1.manualNightMode && !IsQuietHours(hour, minute)
  }

  /** The mode after `check_button` has read each of `readings` in turn. */
  function CheckButtonRun(m: Mode, readings: seq<bool>): Mode
    decreases |readings|
  {
    if |readings| == 0 then m
    else CheckButtonRun(CheckButtonStep(m, readings[0]).0, readings[1..])
  }

  /** How many of `readings` are a false reading right after a true one, `last` being the reading before them. */
  function Releases(last: bool, readings: seq<bool>): nat
    decreases |readings|
  {
    if |readings| == 0 then 0
    else (if last && !readings[0] then 1 else 0) + Releases(readings[0], readings[1..])
  }

  // ---------------------------------------------------------------------------
  // Properties of the mode logic
  // ---------------------------------------------------------------------------

  /** `show_night_mode` ends in night mode, keeps the button flags, is idempotent and keeps the screen consistent. */
  lemma ShowNightProperties(m: Mode)
    ensures var m' := ShowNight(m);
            m'.nightMode && m'.manualNightMode == m.manualNightMode && m'.lastButtonState == m.lastButtonState &&
            ShowNight(m') == m' &&
            (Consistent(m) ==> Consistent(m'))
  {
  }

  /** `show_normal_mode` never touches the manual flag, ends out of night mode, and keeps the screen consistent. */
  lemma ShowNormalProperties(m: Mode)
    ensures var m' := ShowNormal(m);
            !m'.nightMode && m'.manualNightMode == m.manualNightMode && m'.lastButtonState == m.lastButtonState &&
            (Consistent(m) ==> Consistent(m'))
  {
  }

  /**
   * `check_button` always remembers the reading; it toggles the manual flag
   * exactly on a true-then-false pair of readings and otherwise returns 0 and
   * changes no mode flag; after a toggle it returns 1 in night mode or 2 out
   * of it.
   */
  lemma CheckButtonCharacterised(m: Mode, pressed: bool)
    ensures var (m', code) := CheckButtonStep(m, pressed);
            m'.lastButtonState == pressed &&
            (m'.manualNightMode != m.manualNightMode <==> m.lastButtonState && !pressed) &&
            (code == NO_PRESS <==> !(m.lastButtonState && !pressed)) &&
            (code == NO_PRESS ==> m' == m.(lastButtonState := pressed)) &&
            (code == NIGHT_ON <==> m.lastButtonState && !pressed && m'.manualNightMode) &&
            (code == NIGHT_ON ==> m'.nightMode) &&
            (code == NIGHT_OFF <==> m.lastButtonState && !pressed && !m'.manualNightMode) &&
            (code == NIGHT_OFF ==> !m'.nightMode)
  {
  }

  /** Every mode operation keeps the screen consistent with `night_mode`, starting from a fresh display. */
  lemma ConsistentInvariant(m: Mode, pressed: bool, hour: int, minute: int)
    requires Consistent(m)
    ensures Consistent(INITIAL_MODE)
    ensures Consistent(ShowNight(m)) && Consistent(ShowNormal(m))
    ensures Consistent(CheckButtonStep(m, pressed).0)
    ensures Consistent(UpdateMode(m, pressed, hour, minute))
  {
  }

  /**
   * When the manual flag is set after the button check, `update_display`
   * ends in night mode and writes no text; whenever it writes text it ends
   * out of night mode.
   */
  lemma UpdateManualStaysDark(m: Mode, pressed: bool, hour: int, minute: int)
    ensures CheckButtonStep(m, pressed).0.manualNightMode ==>
              UpdateMode(m, pressed, hour, minute).nightMode && !UpdateWrites(m, pressed, hour, minute)
    ensures UpdateWrites(m, pressed, hour, minute) <==> !UpdateMode(m, pressed, hour, minute).nightMode
    ensures UpdateMode(m, pressed, hour, minute).manualNightMode == CheckButtonStep(m, pressed).0.manualNightMode
  {
    var m1 := CheckButtonStep(m, pressed).0;
    ShowNightProperties(m1);
    ShowNormalProperties(m1);
  }

  /**
   * Over a run of readings, the manual flag flips once per true-then-false
   * pair, and the remembered reading is the last one.
   */
  lemma {:induction false} CheckButtonRunParity(m: Mode, readings: seq<bool>)
    ensures var m' := CheckButtonRun(m, readings);
            (m'.manualNightMode <==> (m.manualNightMode <==> Releases(m.lastButtonState, readings) % 2 == 0)) &&
            m'.lastButtonState == (if |readings| == 0 then m.lastButtonState else readings[|readings| - 1])
    decreases |readings|
  {
    if |readings| > 0 {
      var m1 := CheckButtonStep(m, readings[0]).0;
      CheckButtonCharacterised(m, readings[0]);
      CheckButtonRunParity(m1, readings[1..]);
    }
  }

  /**
   * A fresh display remembers a reading of `True`, so the first check with
   * the button up counts as a press and turns manual night mode on.
   */
  lemma FreshDisplayFirstCheck()
    ensures CheckButtonStep(INITIAL_MODE, false).1 == NIGHT_ON
    ensures CheckButtonStep(INITIAL_MODE, false).0.manualNightMode
    ensures CheckButtonStep(INITIAL_MODE, true) == (INITIAL_MODE, NO_PRESS)
  {
  }

  // ---------------------------------------------------------------------------
  // Writing one line of text
  // ---------------------------------------------------------------------------

  /** The character padded text has at cell `i`: the text's own, or a space past its end. */
  function CellChar(text: string, i: nat): char {
    if i < |text| then text[i] else ' '
  }

  /** Text shorter than a line is padded with spaces; longer text is kept whole. */
  function Padded(text: string): (p: string)
    ensures |p| == if |text| < LINE_LENGTH then LINE_LENGTH else |text|
    ensures forall i | 0 <= i < |p| :: p[i] == CellChar(text, i)
  {
    if |text| < LINE_LENGTH then text + seq(LINE_LENGTH - |text|, _ => ' ') else text
  }

  /** A character the 256-entry character map can look up. */
  predicate Narrow(c: char) {
    c as int < CHARMAP_SIZE
  }

  /** The first cell at or after `i` whose character the map cannot look up, or `LINE_LENGTH`. */
  function FirstWide(text: string, i: nat): (f: nat)
    requires i <= LINE_LENGTH
    ensures i <= f <= LINE_LENGTH
    ensures forall c | i <= c < f :: Narrow(CellChar(text, c))
    ensures f < LINE_LENGTH ==> !Narrow(CellChar(text, f))
    decreases LINE_LENGTH - i
  {
    if i == LINE_LENGTH || !Narrow(CellChar(text, i)) then i else FirstWide(text, i + 1)
  }

  /**
   * The cell at which `set_text_with_colors` raises, or `LINE_LENGTH` when it
   * does not: an empty colour list fails at cell 0 (`colors[-1]`), a
   * character past the character map fails at its own cell.
   */
  function FailCell(text: string, colors: seq<Color>): nat {
    if |colors| == 0 then 0 else FirstWide(text, 0)
  }

  /** `colors[min(i, len(colors) - 1)]`. */
  function CellColor(colors: seq<Color>, i: nat): Color
    requires |colors| > 0
  {
    if i < |colors| then colors[i] else colors[|colors| - 1]
  }

  /**
   * One line after `set_text_with_colors`: each cell before the failing one
   * has its colour and glyph written; at the failing cell, the colour was
   * written before the glyph lookup raised; every other cell is as it was.
   */
  ghost predicate LineWritten(palette: seq<int>, grid: seq<int>, oldPalette: seq<int>, oldGrid: seq<int>,
                              text: string, colors: seq<Color>, charmap: seq<int>)
    requires |palette| == |grid| == |oldPalette| == |oldGrid| == LINE_LENGTH && |charmap| == CHARMAP_SIZE
  {
    var f := FailCell(text, colors);
    forall i | 0 <= i < LINE_LENGTH ::
      palette[i] == (if |colors| > 0 && i <= f then CellColor(colors, i) else oldPalette[i]) &&
      grid[i] == (if i < f then charmap[CellChar(text, i) as int] else oldGrid[i])
  }

  /** The write goes through exactly when there is a colour and every shown character has a glyph. */
  lemma FailCellCharacterised(text: string, colors: seq<Color>)
    ensures FailCell(text, colors) <= LINE_LENGTH
    ensures FailCell(text, colors) == LINE_LENGTH <==>
              |colors| > 0 && forall i | 0 <= i < |text| && i < LINE_LENGTH :: text[i] as int < CHARMAP_SIZE
  {
    if |colors| > 0 {
      var f := FirstWide(text, 0);
      if f < LINE_LENGTH {
        assert f < |text| && text[f] == CellChar(text, f);
      } else {
        forall i | 0 <= i < |text| && i < LINE_LENGTH ensures text[i] as int < CHARMAP_SIZE {
          assert Narrow(CellChar(text, i));
        }
      }
    }
  }

  /**
   * After a write that goes through, every cell has the colour of its
   * character (the last colour repeating past the end of the list) and the
   * glyph of its character, cells past the text show the space glyph, and
   * characters past the line are not shown.
   */
  lemma LineShowsText(palette: seq<int>, grid: seq<int>, oldPalette: seq<int>, oldGrid: seq<int>,
                      text: string, colors: seq<Color>, charmap: seq<int>)
    requires |palette| == |grid| == |oldPalette| == |oldGrid| == LINE_LENGTH && |charmap| == CHARMAP_SIZE
    requires LineWritten(palette, grid, oldPalette, oldGrid, text, colors, charmap)
    requires |colors| > 0 && forall i | 0 <= i < |text| && i < LINE_LENGTH :: text[i] as int < CHARMAP_SIZE
    ensures forall i | 0 <= i < LINE_LENGTH :: palette[i] == colors[Min(i, |colors| - 1)]
    ensures forall i | 0 <= i < LINE_LENGTH && i < |text| :: grid[i] == charmap[text[i] as int]
    ensures forall i | |text| <= i < LINE_LENGTH :: grid[i] == charmap[' ' as int]
  {
    FailCellCharacterised(text, colors);
  }

  /**
   * The line `format_train_display` builds can be written in full exactly
   * when the shown part of the direction label has glyphs: everything after
   * the label is ASCII and the colour list is never empty.
   */
  lemma TrainDisplayWritable(arrivals: seq<Arrival>, direction: string)
    ensures FailCell(DisplayText(arrivals, direction), DisplayColors(arrivals, direction)) == LINE_LENGTH <==>
              forall i | 0 <= i < |direction| && i < LINE_LENGTH :: direction[i] as int < CHARMAP_SIZE
  {
    var text, colors := DisplayText(arrivals, direction), DisplayColors(arrivals, direction);
    DisplayAligned(arrivals, direction);
    DisplayTextAscii(arrivals, direction);
    FailCellCharacterised(text, colors);
  }

  // ---------------------------------------------------------------------------
  // The display object
  // ---------------------------------------------------------------------------

  class Display {
    var nightMode: bool
    var manualNightMode: bool
    var lastButtonState: bool
    var brightness: Brightness
    var mainGroupHidden: bool
    var root: RootGroup

    /** Glyph index of each of the 256 code points. */
    const charmap: seq<int>

    /** Colour (palette entry 1) and glyph (grid entry 0) of each cell of lines 1 and 2. */
    const palettes1: array<int>
    const palettes2: array<int>
    const grids1: array<int>
    const grids2: array<int>

    ghost predicate Valid()
      reads this
    {
      palettes1.Length == palettes2.Length == grids1.Length == grids2.Length == LINE_LENGTH &&
      |charmap| == CHARMAP_SIZE &&
      palettes1 != palettes2 && palettes1 != grids1 && palettes1 != grids2 &&
      palettes2 != grids1 && palettes2 != grids2 && grids1 != grids2
    }

    function State(): Mode
      reads this
    {
      Mode(nightMode, manualNightMode, lastButtonState, brightness, mainGroupHidden, root)
    }

    /** A display in normal mode with blank cells: colour 0 and the default tile. */
    constructor (charmap: seq<int>)
      requires |charmap| == CHARMAP_SIZE
      ensures Valid() && State() == INITIAL_MODE && this.charmap == charmap
      ensures fresh(palettes1) && fresh(palettes2) && fresh(grids1) && fresh(grids2)
      ensures forall i | 0 <= i < LINE_LENGTH ::
                palettes1[i] == 0 && palettes2[i] == 0 && grids1[i] == DEFAULT_TILE && grids2[i] == DEFAULT_TILE
    {
      nightMode := false;
      manualNightMode := false;
      lastButtonState := true;
      brightness := Full;
      mainGroupHidden := false;
      root := MainGroup;
      this.charmap := charmap;
      palettes1 := new int[LINE_LENGTH](_ => 0);
      palettes2 := new int[LINE_LENGTH](_ => 0);
      grids1 := new int[LINE_LENGTH](_ => DEFAULT_TILE);
      grids2 := new int[LINE_LENGTH](_ => DEFAULT_TILE);
    }

    method ShowNightMode()
      requires Valid()
      modifies this
      ensures Valid() && State() == ShowNight(old(State()))
    {
      if !nightMode {
        brightness := Dim;
        mainGroupHidden := true;
        root := NightGroup;
        nightMode := true;
      }
    }

    method ShowNormalMode()
      requires Valid()
      modifies this
      ensures Valid() && State() == ShowNormal(old(State()))
    {
      if nightMode || manualNightMode {
        brightness := Full;
        mainGroupHidden := false;
        root := MainGroup;
        nightMode := false;
      }
    }

    /** `check_button` with the button reading passed in. */
    method CheckButton(pressed: bool) returns (code: int)
      requires Valid()
      modifies this
      ensures Valid() && (State(), code) == CheckButtonStep(old(State()), pressed)
    {
      var newlyPressed := lastButtonState && !pressed;
      lastButtonState := pressed;
      if newlyPressed {
        manualNightMode := !manualNightMode;
        if manualNightMode {
          ShowNightMode();
          return NIGHT_ON;
        } else {
          ShowNormalMode();
          return NIGHT_OFF;
        }
      }
      return NO_PRESS;
    }

    /**
     * `set_text_with_colors`: writes line 1 when `lineNum` is 0 and line 2
     * otherwise; `ok` is false when the source raises an `IndexError`.
     */
    method SetTextWithColors(text: string, colors: seq<Color>, lineNum: int) returns (ok: bool)
      requires Valid()
      modifies palettes1, grids1, palettes2, grids2
      ensures Valid()
      ensures ok <==> FailCell(text, colors) == LINE_LENGTH
      ensures lineNum == 0 ==>
                LineWritten(palettes1[..], grids1[..], old(palettes1[..]), old(grids1[..]), text, colors, charmap) &&
                palettes2[..] == old(palettes2[..]) && grids2[..] == old(grids2[..])
      ensures lineNum != 0 ==>
                LineWritten(palettes2[..], grids2[..], old(palettes2[..]), old(grids2[..]), text, colors, charmap) &&
                palettes1[..] == old(palettes1[..]) && grids1[..] == old(grids1[..])
    {
      var grids := if lineNum == 0 then grids1 else grids2;
      var palettes := if lineNum == 0 then palettes1 else palettes2;
      ghost var failCell;
      ok, failCell := WriteLine(palettes, grids, text, colors, charmap);
    }

    /**
     * `update_display` on the static path: the button is checked first; in
     * manual night mode or quiet hours the display goes dark and nothing is
     * written; otherwise it returns to normal mode and writes line 1, then
     * line 2. `ok` is false when a write raises, and a failing line 1 leaves
     * line 2 as it was.
     */
    method UpdateDisplay(text1: string, colors1: seq<Color>, text2: string, colors2: seq<Color>,
                         pressed: bool, hour: int, minute: int) returns (ok: bool)
      requires Valid()
      modifies this, palettes1, grids1, palettes2, grids2
      ensures Valid() && State() == UpdateMode(old(State()), pressed, hour, minute)
      ensures !UpdateWrites(old(State()), pressed, hour, minute) ==>
                ok && palettes1[..] == old(palettes1[..]) && grids1[..] == old(grids1[..]) &&
                palettes2[..] == old(palettes2[..]) && grids2[..] == old(grids2[..])
      ensures UpdateWrites(old(State()), pressed, hour, minute) ==>
                LineWritten(palettes1[..], grids1[..], old(palettes1[..]), old(grids1[..]), text1, colors1, charmap) &&
                (ok <==> FailCell(text1, colors1) == LINE_LENGTH && FailCell(text2, colors2) == LINE_LENGTH) &&
                (if FailCell(text1, colors1) == LINE_LENGTH
                 then LineWritten(palettes2[..], grids2[..], old(palettes2[..]), old(grids2[..]), text2, colors2, charmap)
                 else palettes2[..] == old(palettes2[..]) && grids2[..] == old(grids2[..]))
    {
      var _ := CheckButton(pressed);
      if manualNightMode {
        ShowNightMode();
        return true;
      }
      if IsQuietHours(hour, minute) {
        ShowNightMode();
        return true;
      }
      ShowNormalMode();
      ok := SetTextWithColors(text1, colors1, 0);
      if ok {
        ok := SetTextWithColors(text2, colors2, 1);
      }
    }
  }

  /** The loop of `set_text_with_colors` over the cells of one line. */
  method WriteLine(palettes: array<int>, grids: array<int>, text: string, colors: seq<Color>, charmap: seq<int>)
    returns (ok: bool, ghost failCell: nat)
    requires palettes != grids && palettes.Length == grids.Length == LINE_LENGTH && |charmap| == CHARMAP_SIZE
    modifies palettes, grids
    ensures failCell == FailCell(text, colors) && (ok <==> failCell == LINE_LENGTH)
    ensures forall c | 0 <= c < LINE_LENGTH ::
              palettes[c] == if |colors| > 0 && c <= failCell then CellColor(colors, c) else old(palettes[c])
    ensures forall c | 0 <= c < LINE_LENGTH ::
              grids[c] == if c < failCell then charmap[CellChar(text, c) as int] else old(grids[c])
  {
    var padded := Padded(text);
    for i := 0 to Min(|padded|, LINE_LENGTH)
      invariant i > 0 ==> |colors| > 0
      invariant forall c | 0 <= c < i :: Narrow(CellChar(text, c))
      invariant forall c | 0 <= c < LINE_LENGTH :: palettes[c] == if c < i then CellColor(colors, c) else old(palettes[c])
      invariant forall c | 0 <= c < LINE_LENGTH :: grids[c] == if c < i then charmap[CellChar(text, c) as int] else old(grids[c])
    {
      var colorIndex := Min(i, |colors| - 1);
      if colorIndex < 0 {
        return false, 0;
      }
      palettes[i] := colors[colorIndex];
      var glyphCode := padded[i] as int;
      if glyphCode >= |charmap| {
        FailCellAt(text, colors, i);
        return false, i;
      }
      grids[i] := charmap[glyphCode];
    }
    FailCellAt(text, colors, LINE_LENGTH);
    return true, LINE_LENGTH;
  }

  /** Cells before `i` all have glyphs: the write fails at `i` if cell `i` has none, and gets past the line if `i` is its end. */
  lemma FailCellAt(text: string, colors: seq<Color>, i: nat)
    requires |colors| > 0 && i <= LINE_LENGTH
    requires forall c | 0 <= c < i :: Narrow(CellChar(text, c))
    ensures i == LINE_LENGTH ==> FailCell(text, colors) == LINE_LENGTH
    ensures i < LINE_LENGTH && !Narrow(CellChar(text, i)) ==> FailCell(text, colors) == i
  {
    var f := FirstWide(text, 0);
    if f < i {
      assert false;
    }
  }
}
