/** The levels of log messages and their names. */
module LogLevels {

  datatype Level = Global | Trace | Debug | Fatal | Error | Warning | Verbose | Info | Unknown

  function Upper(l: Level): (s: string)
    ensures s != ""
  {
    match l
    case Global => "GLOBAL"
    case Debug => "DEBUG"
    case Info => "INFO"
    case Warning => "WARNING"
    case Error => "ERROR"
    case Fatal => "FATAL"
    case Verbose => "VERBOSE"
    case Trace => "TRACE"
    case Unknown => "UNKNOWN"
  }

  function Lower(l: Level): (s: string)
    ensures |s| == |Upper(l)|
  {
    match l
    case Global => "global"
    case Debug => "debug"
    case Info => "info"
    case Warning => "warning"
    case Error => "error"
    case Fatal => "fatal"
    case Verbose => "verbose"
    case Trace => "trace"
    case Unknown => "unknown"
  }

  // The text starts with the name of the level, in upper or in lower case.
  predicate Names(s: string, l: Level) {
    Upper(l) <= s || Lower(l) <= s
  }

  // The levels in the order of the tests.
  const TESTED: seq<Level> := [Global, Debug, Info, Warning, Error, Fatal, Verbose, Trace]

  // The first level of the list whose name the text starts with.
  function FirstNamed(s: string, levels: seq<Level>): (l: Level)
    ensures l != Unknown ==> Names(s, l)
  {
    if levels == [] then Unknown
    else if Names(s, levels[0]) then levels[0]
    else FirstNamed(s, levels[1..])
  }

  /** convertFromStringPrefix */
  function FromPrefix(s: string): (l: Level)
    ensures l != Unknown ==> |Upper(l)| <= |s|
  {
    FirstNamed(s, TESTED)
  }

  lemma {:induction false} SameNamed(s: string, t: string, levels: seq<Level>)
    requires forall l :: Names(s, l) == Names(t, l)
    ensures FirstNamed(s, levels) == FirstNamed(t, levels)
  {
    if levels != [] {
      SameNamed(s, t, levels[1..]);
    }
  }

  lemma {:induction false} SomeNamed(s: string, levels: seq<Level>, l: Level)
    requires Names(s, l) && l in levels && Unknown !in levels
    ensures FirstNamed(s, levels) != Unknown
  {
    if !Names(s, levels[0]) {
      SomeNamed(s, levels[1..], l);
    }
  }

  // Names in one case start with different letters.
  function Initial(l: Level): char {
    match l
    case Global => 'G'
    case Debug => 'D'
    case Info => 'I'
    case Warning => 'W'
    case Error => 'E'
    case Fatal => 'F'
    case Verbose => 'V'
    case Trace => 'T'
    case Unknown => 'U'
  }

  function LowerOf(c: char): char
    requires 'A' <= c <= 'Z'
  {
    (c as int + 32) as char
  }

  lemma InitialIs(l: Level)
    ensures 'A' <= Initial(l) <= 'Z' && Upper(l)[0] == Initial(l) && Lower(l)[0] == LowerOf(Initial(l))
  {
  }

  lemma NamesFirst(s: string, l: Level)
    requires Names(s, l)
    ensures 'A' <= Initial(l) <= 'Z' && s != "" && (s[0] == Initial(l) || s[0] == LowerOf(Initial(l)))
  {
    InitialIs(l);
  }

  /** A text that starts with the name of a level is read as that level and no other. */
  lemma FromPrefixIs(s: string, l: Level)
    requires Names(s, l) && l != Unknown
    ensures FromPrefix(s) == l
  {
    SomeNamed(s, TESTED, l);
    NamesFirst(s, l);
    NamesFirst(s, FromPrefix(s));
  }

  /** The names of the levels, written out. */
  lemma NamesAre(s: string)
    ensures "GLOBAL" <= s || "global" <= s <==> FromPrefix(s) == Global
    ensures "TRACE" <= s || "trace" <= s <==> FromPrefix(s) == Trace
    ensures "DEBUG" <= s || "debug" <= s <==> FromPrefix(s) == Debug
    ensures "FATAL" <= s || "fatal" <= s <==> FromPrefix(s) == Fatal
    ensures "ERROR" <= s || "error" <= s <==> FromPrefix(s) == Error
    ensures "WARNING" <= s || "warning" <= s <==> FromPrefix(s) == Warning
    ensures "VERBOSE" <= s || "verbose" <= s <==> FromPrefix(s) == Verbose
    ensures "INFO" <= s || "info" <= s <==> FromPrefix(s) == Info
  {
    if Names(s, Global) { FromPrefixIs(s, Global); }
    if Names(s, Trace) { FromPrefixIs(s, Trace); }
    if Names(s, Debug) { FromPrefixIs(s, Debug); }
    if Names(s, Fatal) { FromPrefixIs(s, Fatal); }
    if Names(s, Error) { FromPrefixIs(s, Error); }
    if Names(s, Warning) { FromPrefixIs(s, Warning); }
    if Names(s, Verbose) { FromPrefixIs(s, Verbose); }
    if Names(s, Info) { FromPrefixIs(s, Info); }
  }
}
