/** Terminal styling and string coalescing: `cstr`, `isXcode` and `ustr`
    (osstatus.py:24-59). The process environment is not read here: the value of
    `TERM` is a parameter, and whether colours are suppressed is a flag. */
module Terminal {
  import opened Wrappers

  const Esc: char := '\U{1B}'

  /** The escape code for each colour name cstr knows. */
  const Palette: map<string, string> := map[
    "cyan" := [Esc] + "[36m",
    "grey" := [Esc] + "[2m",
    "blink" := [Esc] + "[5m",
    "redd" := [Esc] + "[41m",
    "greend" := [Esc] + "[42m",
    "yellowd" := [Esc] + "[43m",
    "pinkd" := [Esc] + "[45m",
    "cyand" := [Esc] + "[46m",
    "greyd" := [Esc] + "[100m",
    "blued" := [Esc] + "[44m",
    "whiteb" := [Esc] + "[7m",
    "pink" := [Esc] + "[95m",
    "blue" := [Esc] + "[94m",
    "green" := [Esc] + "[92m",
    "yellow" := [Esc] + "[33m",
    "red" := [Esc] + "[91m",
    "bold" := [Esc] + "[1m",
    "underline" := [Esc] + "[4m"
  ]

  /** Resets every attribute. */
  const Reset: string := [Esc] + "[0m"

  /** Resets the foreground colour only; cstr selects it for a code equal to
      the text "yellow". */
  const ForegroundReset: string := [Esc] + "[39m"

  /** The colour cstr uses when its caller names none. */
  const DefaultColor: string := "black"

  /** The lookup that fails in `cstr`: a colour name missing from the table. */
  datatype StyleError = UnknownColor(color: string)

  /** Every escape code in the table begins with ESC. */
  lemma PaletteCodesStartWithEsc(color: string)
    requires color in Palette
    ensures |Palette[color]| >= 1 && Palette[color][0] == Esc
  {
  }

  /** `cstr(msg, color)`: the message unchanged when colours are suppressed,
      otherwise wrapped in the colour's escape code and a reset. */
  function Cstr(msg: string, color: string, xcode: bool): (r: Result<string, StyleError>)
    ensures xcode ==> r == Ok(msg)
    ensures !xcode && color !in Palette ==> r == Err(UnknownColor(color))
    ensures !xcode && color in Palette ==> r == Ok(Palette[color] + msg + Reset)
  {
    if xcode then Ok(msg)
    else if color !in Palette then Err(UnknownColor(color))
    else
      var clr := Palette[color];
      PaletteCodesStartWithEsc(color);
      Ok(clr + msg + (if clr == "yellow" then ForegroundReset else Reset))
  }

  /** The styled text carries the message intact: dropping the escape code in
      front and the reset behind gives it back. */
  lemma CstrUnwraps(msg: string, color: string, xcode: bool)
    requires Cstr(msg, color, xcode).Ok?
    ensures var t := Cstr(msg, color, xcode).value;
            var pre := if xcode then 0 else |Palette[color]|;
            var post := if xcode then 0 else |Reset|;
            |t| == pre + |msg| + post && t[pre..|t| - post] == msg
  {
  }

  /** The default colour is not in the table: cstr without a colour fails
      whenever colours are on, and returns the message when they are off. */
  lemma DefaultColorFails(msg: string)
    ensures Cstr(msg, DefaultColor, false) == Err(UnknownColor(DefaultColor))
    ensures Cstr(msg, DefaultColor, true) == Ok(msg)
  {
  }

  /** `isXcode()`: `TERM` is unset, or set to "unknown". */
  function IsXcode(term: Option<string>): (r: bool)
    ensures r <==> term == None || term == Some("unknown")
  {
    "unknown" == match term case None => "unknown" case Some(t) => t
  }

  /** `ustr(s)`: a null string becomes the empty string. */
  function Ustr(s: Option<string>): (r: string)
    ensures s.Some? ==> r == s.value
    ensures r == [] <==> s == None || s == Some([])
  {
    match s
    case None => ""
    case Some(t) => t
  }
}
