/** src/math.rs with the constants of src/constants/game.rs it uses: the
    level range check, the points for clearing lines, and the choice of
    sound effect. All quantities are unsigned in the source; the largest
    score, 1200 * 29, is far below the 32-bit limit, so no wrap-around
    arises. */
module Scoring {
  import opened Geometry

  const START_TETRIS_LEVEL: nat := 1
  const MAX_TETRIS_LEVEL: nat := 29
  const SINGLE_LINE_MULTIPLIER: nat := 40
  const DOUBLE_LINE_MULTIPLIER: nat := 100
  const TRIPLE_LINE_MULTIPLIER: nat := 300
  const TETRIS_MULTIPLIER: nat := 1200
  const MAX_LINES: nat := 4

  const LEVEL_TOO_LOW := "Level must be at least 1"
  const LEVEL_TOO_HIGH := "Level must be at most 29"
  const INVALID_LINES := "Invalid number of lines cleared"

  /** `level_invariant`: levels 1 to 29 are valid; the lower bound is
      checked first. */
  function LevelInvariant(level: nat): (r: Result<()>)
    ensures r.Ok? <==> START_TETRIS_LEVEL <= level <= MAX_TETRIS_LEVEL
    ensures level < START_TETRIS_LEVEL ==> r == Err(LEVEL_TOO_LOW)
    ensures level > MAX_TETRIS_LEVEL ==> r == Err(LEVEL_TOO_HIGH)
  {
    if level < START_TETRIS_LEVEL then Err(LEVEL_TOO_LOW)
    else if level > MAX_TETRIS_LEVEL then Err(LEVEL_TOO_HIGH)
    else Ok(())
  }

  /** `calculate_score`: an invalid level fails before the line count is
      looked at; no lines score nothing; one to four lines score their
      multiplier times the level; more than four lines is an error. */
  function CalculateScore(lines: nat, level: nat): (r: Result<nat>)
    ensures LevelInvariant(level).Err? ==> r == Err(LevelInvariant(level).error)
    ensures r.Ok? <==> LevelInvariant(level).Ok? && lines <= MAX_LINES
    ensures LevelInvariant(level).Ok? && lines > MAX_LINES ==> r == Err(INVALID_LINES)
    ensures r.Ok? ==> r.value <= TETRIS_MULTIPLIER * MAX_TETRIS_LEVEL
    ensures r.Ok? ==> (r.value == 0 <==> lines == 0)
  {
    match LevelInvariant(level)
    case Err(e) => Err(e)
    case Ok(_) =>
      if lines == 0 then Ok(0)
      else if lines == 1 then Ok(SINGLE_LINE_MULTIPLIER * level)
      else if lines == 2 then Ok(DOUBLE_LINE_MULTIPLIER * level)
      else if lines == 3 then Ok(TRIPLE_LINE_MULTIPLIER * level)
      else if lines == 4 then Ok(TETRIS_MULTIPLIER * level)
      else Err(INVALID_LINES)
  }

  /** The scoring table: [40, 100, 300, 1200][k - 1] times the level. */
  lemma ScoreTable(level: nat)
    requires START_TETRIS_LEVEL <= level <= MAX_TETRIS_LEVEL
    ensures CalculateScore(0, level) == Ok(0)
    ensures CalculateScore(1, level) == Ok(40 * level)
    ensures CalculateScore(2, level) == Ok(100 * level)
    ensures CalculateScore(3, level) == Ok(300 * level)
    ensures CalculateScore(4, level) == Ok(1200 * level)
  {
  }

  /** At a fixed valid level, clearing more lines at once never scores less,
      and at a fixed line count a higher level never scores less. */
  lemma ScoreMonotone(lines: nat, lines': nat, level: nat, level': nat)
    requires lines <= lines' <= MAX_LINES
    requires START_TETRIS_LEVEL <= level <= level' <= MAX_TETRIS_LEVEL
    ensures CalculateScore(lines, level).Ok? && CalculateScore(lines', level').Ok?
    ensures CalculateScore(lines, level).value <= CalculateScore(lines', level).value
    ensures CalculateScore(lines, level).value <= CalculateScore(lines, level').value
  {
  }

  /** `determine_sfx`: "line" for one to three lines, "tetris" for four,
      nothing for none or more than four. */
  function DetermineSfx(lines: nat): (r: Option<string>)
    ensures r == Some("line") <==> 0 < lines < MAX_LINES
    ensures r == Some("tetris") <==> lines == MAX_LINES
    ensures r == None <==> lines == 0 || lines > MAX_LINES
  {
    if lines > 0 && lines < MAX_LINES then Some("line")
    else if lines == MAX_LINES then Some("tetris")
    else None
  }

  /** A sound plays exactly when the line count scores points. */
  lemma SfxIffScore(lines: nat, level: nat)
    requires START_TETRIS_LEVEL <= level <= MAX_TETRIS_LEVEL
    ensures DetermineSfx(lines).Some? <==> (CalculateScore(lines, level).Ok? && CalculateScore(lines, level).value > 0)
  {
  }
}
