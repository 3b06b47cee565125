/** Log categories: their levels, set from a text and consulted for every message. */
module LogCategories {
  import opened Seqs
  import opened Text
  import opened LogLevels
  import opened Wildcard

  // ----- the text

  type Pair = (string, Level)

  datatype Scan = Scan(inLevel: bool, name: string, level: Level, pairs: seq<Pair>)

  // A pair is complete.
  function Insert(s: Scan): Scan {
    if s.name != "" && s.level != Unknown then
      s.(name := "", level := Unknown, pairs := s.pairs + [(s.name, s.level)])
    else s
  }

  /** A level read off the start of a text, and how far the reader moves. */
  datatype Word = Word(level: Level, length: nat)

  function WordAt(text: string): (w: Word)
    ensures text != "" ==> 1 <= w.length <= |text|
  {
    var l := FromPrefix(text);
    Word(l, if l == Unknown then 1 else |Upper(l)|)
  }

  /** What setCategories makes of a text. */
  function Read(s: Scan, text: string): seq<Pair>
    decreases |text|
  {
    if text == "" then Insert(s).pairs
    else if text[0] == ':' then Read(s.(inLevel := true), text[1..])
    else if text[0] == ',' then Read(Insert(s.(inLevel := false)), text[1..])
    else if !s.inLevel then Read(s.(name := s.name + [text[0]]), text[1..])
    else Read(s.(level := WordAt(text).level), text[WordAt(text).length..])
  }

  function Begin(pairs: seq<Pair>): Scan {
    Scan(false, "", Unknown, pairs)
  }

  // ----- the text that gives a list of pairs

  datatype Entry = Entry(name: string, level: Level, lower: bool)

  predicate ValidEntry(e: Entry) {
    e.name != "" && e.level != Unknown && forall k | 0 <= k < |e.name| :: e.name[k] != ':' && e.name[k] != ','
  }

  // The names of the levels in capitals and in small letters.
  function LevelText(e: Entry): string {
    match e.level
    case Global => if e.lower then "global" else "GLOBAL"
    case Trace => if e.lower then "trace" else "TRACE"
    case Debug => if e.lower then "debug" else "DEBUG"
    case Fatal => if e.lower then "fatal" else "FATAL"
    case Error => if e.lower then "error" else "ERROR"
    case Warning => if e.lower then "warning" else "WARNING"
    case Verbose => if e.lower then "verbose" else "VERBOSE"
    case Info => if e.lower then "info" else "INFO"
    case Unknown => if e.lower then "unknown" else "UNKNOWN"
  }

  lemma LevelTextIs(e: Entry)
    ensures LevelText(e) == if e.lower then Lower(e.level) else Upper(e.level)
  {
  }

  /** name:LEVEL,name:LEVEL,... */
  function Print(es: seq<Entry>): string {
    if es == [] then ""
    else if |es| == 1 then es[0].name + (":" + LevelText(es[0]))
    else es[0].name + (":" + (LevelText(es[0]) + ("," + Print(es[1..]))))
  }

  function PairsOf(es: seq<Entry>): seq<Pair> {
    if es == [] then [] else [(es[0].name, es[0].level)] + PairsOf(es[1..])
  }

  lemma {:induction false} NameRead(s: Scan, name: string, rest: string)
    requires !s.inLevel && forall k | 0 <= k < |name| :: name[k] != ':' && name[k] != ','
    ensures Read(s, name + rest) == Read(s.(name := s.name + name), rest)
    decreases |name|
  {
    if name == "" {
      assert name + rest == rest && s.name + name == s.name;
    } else {
      assert (name + rest)[1..] == name[1..] + rest;
      NameRead(s.(name := s.name + [name[0]]), name[1..], rest);
      Assoc(s.name, [name[0]], name[1..]);
      assert [name[0]] + name[1..] == name;
    }
  }

  lemma LevelFirst(l: Level)
    ensures var u, v := Upper(l)[0], Lower(l)[0]; u != ':' && u != ',' && v != ':' && v != ','
  {
  }

  lemma LevelRead(s: Scan, e: Entry, rest: string)
    requires s.inLevel && e.level != Unknown
    ensures Read(s, LevelText(e) + rest) == Read(s.(level := e.level), rest)
  {
    var t := LevelText(e) + rest;
    LevelTextIs(e);
    assert LevelText(e) <= t;
    assert t[0] == LevelText(e)[0] && t[|Upper(e.level)|..] == rest;
    FromPrefixIs(t, e.level);
    LevelFirst(e.level);
  }

  // The rest of a text behind the level of an entry.
  lemma EntryRead(pairs: seq<Pair>, e: Entry, rest: string)
    requires ValidEntry(e)
    ensures Read(Begin(pairs), e.name + (":" + (LevelText(e) + rest))) ==
            Read(Scan(true, e.name, e.level, pairs), rest)
  {
    var t := LevelText(e) + rest;
    NameRead(Begin(pairs), e.name, ":" + t);
    assert (":" + t)[0] == ':' && (":" + t)[1..] == t && "" + e.name == e.name;
    LevelRead(Scan(true, e.name, Unknown, pairs), e, rest);
  }

  /** A printed list of entries is read back as its pairs, behind those already there. */
  lemma {:induction false} EntriesReadBack(pairs: seq<Pair>, es: seq<Entry>)
    requires forall k | 0 <= k < |es| :: ValidEntry(es[k])
    ensures Read(Begin(pairs), Print(es)) == pairs + PairsOf(es)
    decreases |es|
  {
    if es == [] {
      assert pairs + PairsOf(es) == pairs;
    } else {
      var e := es[0];
      assert ValidEntry(e);
      var more := pairs + [(e.name, e.level)];
      if |es| == 1 {
        assert LevelText(e) + "" == LevelText(e);
        EntryRead(pairs, e, "");
        assert es[1..] == [] && PairsOf(es) == [(e.name, e.level)];
      } else {
        var rest := "," + Print(es[1..]);
        EntryRead(pairs, e, rest);
        assert rest[0] == ',' && rest[1..] == Print(es[1..]);
        EntriesReadBack(more, es[1..]);
        Assoc(pairs, [(e.name, e.level)], PairsOf(es[1..]));
      }
    }
  }

  // ----- pieces between commas

  /** The name of a piece: what comes before its first colon. */
  function PieceName(p: string): (name: string)
    ensures |name| <= |p| && name == p[..|name|] && (|name| < |p| ==> p[|name|] == ':')
    ensures forall k | 0 <= k < |name| :: name[k] != ':'
  {
    if p == "" || p[0] == ':' then "" else [p[0]] + PieceName(p[1..])
  }

  // The level read last; what cannot be read counts as Unknown.
  function LastLevel(l: Level, t: string): Level
    decreases |t|
  {
    if t == "" then l
    else if t[0] == ':' then LastLevel(l, t[1..])
    else LastLevel(WordAt(t).level, t[WordAt(t).length..])
  }

  /** The level of a piece: what is read last behind its first colon. */
  function PieceLevel(p: string): Level {
    LastLevel(Unknown, p[|PieceName(p)|..])
  }

  predicate NoComma(p: string) {
    forall k | 0 <= k < |p| :: p[k] != ','
  }

  predicate Cut(rest: string) {
    rest == "" || rest[0] == ','
  }

  lemma NamesStop(t: string, rest: string, l: Level)
    requires Cut(rest)
    ensures Names(t + rest, l) <==> Names(t, l)
  {
    NoCommaInLevel(l);
    PrefixStops(t, rest, Upper(l));
    PrefixStops(t, rest, Lower(l));
  }

  lemma NoCommaInLevel(l: Level)
    ensures NoComma(Upper(l)) && NoComma(Lower(l))
  {
  }

  lemma PrefixStops(t: string, rest: string, name: string)
    requires Cut(rest) && NoComma(name)
    ensures name <= t + rest <==> name <= t
  {
    if |t| < |name| && rest != "" {
      assert (t + rest)[|t|] == ',' && name[|t|] != ',';
    }
  }

  lemma WordStops(t: string, rest: string)
    requires Cut(rest)
    ensures WordAt(t + rest) == WordAt(t)
  {
    forall l
      ensures Names(t + rest, l) == Names(t, l)
    {
      NamesStop(t, rest, l);
    }
    SameNamed(t + rest, t, TESTED);
  }

  lemma {:induction false} LevelsRead(s: Scan, t: string, rest: string)
    requires s.inLevel && NoComma(t) && Cut(rest)
    ensures Read(s, t + rest) == Read(s.(level := LastLevel(s.level, t)), rest)
    decreases |t|
  {
    if t == "" {
      assert t + rest == rest;
    } else if t[0] == ':' {
      assert (t + rest)[1..] == t[1..] + rest;
      LevelsRead(s, t[1..], rest);
    } else {
      WordStops(t, rest);
      var w := WordAt(t);
      assert (t + rest)[w.length..] == t[w.length..] + rest;
      LevelsRead(s.(level := w.level), t[w.length..], rest);
    }
  }

  lemma ColonRead(s: Scan, t: string, rest: string)
    requires !s.inLevel && s.level == Unknown && t != "" && t[0] == ':' && NoComma(t) && Cut(rest)
    ensures Read(s, t + rest) == Read(s.(inLevel := true, level := LastLevel(Unknown, t)), rest)
  {
    assert (t + rest)[0] == ':' && (t + rest)[1..] == t[1..] + rest;
    LevelsRead(s.(inLevel := true), t[1..], rest);
  }

  lemma PieceRead(pairs: seq<Pair>, p: string, rest: string)
    requires NoComma(p) && Cut(rest)
    ensures Read(Begin(pairs), p + rest) ==
            Read(Scan(PieceName(p) != p, PieceName(p), PieceLevel(p), pairs), rest)
  {
    var name := PieceName(p);
    var t := p[|name|..];
    assert p == name + t;
    Assoc(name, t, rest);
    NameRead(Begin(pairs), name, t + rest);
    assert "" + name == name;
    if t == "" {
      assert t + rest == rest && name == p;
    } else {
      ColonRead(Scan(false, name, Unknown, pairs), t, rest);
    }
  }

  /** A piece followed by a comma is read for itself alone, as if the rest had its own text. */
  ghost predicate StandsAlone(pairs: seq<Pair>, p: string) {
    forall rest ::
      Read(Begin(pairs), p + ("," + rest)) == Read(Begin(Read(Begin(pairs), p)), rest)
  }

  lemma CommaRead(pairs: seq<Pair>, p: string, rest: string)
    requires NoComma(p)
    ensures Read(Begin(pairs), p + ("," + rest)) ==
            Read(Insert(Scan(false, PieceName(p), PieceLevel(p), pairs)), rest)
    ensures Read(Begin(pairs), p) == Insert(Scan(false, PieceName(p), PieceLevel(p), pairs)).pairs
  {
    PieceRead(pairs, p, "," + rest);
    assert ("," + rest)[1..] == rest && p + "" == p;
    PieceRead(pairs, p, "");
  }

  // Text with which a name or a level that is kept shows.
  const NEXT: string := "b:INFO"

  lemma NextEntry(name: string, pairs: seq<Pair>, e: Entry)
    requires ValidEntry(e)
    ensures Read(Scan(false, name, Unknown, pairs), e.name + (":" + LevelText(e))) ==
            pairs + [(name + e.name, e.level)]
  {
    var s, t := Scan(false, name, Unknown, pairs), LevelText(e);
    NameRead(s, e.name, ":" + t);
    assert (":" + t)[1..] == t && t + "" == t;
    LevelRead(Scan(true, name + e.name, Unknown, pairs), e, "");
  }

  lemma NextRead(name: string, pairs: seq<Pair>)
    ensures Read(Scan(false, name, Unknown, pairs), NEXT) == pairs + [(name + "b", Info)]
  {
    var e := Entry("b", Info, false);
    assert NEXT == e.name + (":" + LevelText(e));
    NextEntry(name, pairs, e);
  }

  lemma LevelKept(l: Level, pairs: seq<Pair>)
    requires l != Unknown
    ensures Read(Scan(false, "", l, pairs), "b") == pairs + [("b", l)]
    ensures Read(Begin(pairs), "b") == pairs
  {
    assert "b" == "b" + "" && "" + "b" == "b";
    NameRead(Scan(false, "", l, pairs), "b", "");
    NameRead(Begin(pairs), "b", "");
  }

  lemma NameRunsOn(pairs: seq<Pair>, p: string)
    requires NoComma(p) && PieceLevel(p) == Unknown
    ensures Read(Begin(pairs), p + ("," + NEXT)) == pairs + [(PieceName(p) + "b", Info)]
    ensures Read(Begin(Read(Begin(pairs), p)), NEXT) == pairs + [("b", Info)]
  {
    CommaRead(pairs, p, NEXT);
    NextRead(PieceName(p), pairs);
    NextRead("", pairs);
    assert "" + "b" == "b";
  }

  lemma LevelRunsOn(pairs: seq<Pair>, p: string)
    requires NoComma(p) && PieceName(p) == "" && PieceLevel(p) != Unknown
    ensures Read(Begin(pairs), p + ("," + "b")) == pairs + [("b", PieceLevel(p))]
    ensures Read(Begin(Read(Begin(pairs), p)), "b") == pairs
  {
    CommaRead(pairs, p, "b");
    LevelKept(PieceLevel(p), pairs);
  }

  lemma LastDiffers(pairs: seq<Pair>, name: string, l: Level)
    requires name != ""
    ensures pairs + [(name + "b", l)] != pairs + [("b", l)]
  {
    assert (pairs + [(name + "b", l)])[|pairs|].0 == name + "b" && (pairs + [("b", l)])[|pairs|].0 == "b";
    assert |name + "b"| > |"b"|;
  }

  /** A piece stands alone exactly when it has both a name and a readable level, or neither: a name without a level
      runs on into the next name, and a level without a name is kept for the next. */
  lemma StandsAloneIff(pairs: seq<Pair>, p: string)
    requires NoComma(p)
    ensures StandsAlone(pairs, p) <==> (PieceName(p) != "" <==> PieceLevel(p) != Unknown)
  {
    if PieceName(p) != "" <==> PieceLevel(p) != Unknown {
      forall rest
        ensures Read(Begin(pairs), p + ("," + rest)) == Read(Begin(Read(Begin(pairs), p)), rest)
      {
        CommaRead(pairs, p, rest);
      }
    } else if PieceLevel(p) == Unknown {
      NameRunsOn(pairs, p);
      LastDiffers(pairs, PieceName(p), Info);
    } else {
      LevelRunsOn(pairs, p);
      assert |pairs + [("b", PieceLevel(p))]| > |pairs|;
    }
  }

  lemma NameRunsOnTo(text: string, p: string, both: string)
    requires text == p + ("," + NEXT) && NoComma(p) && PieceLevel(p) == Unknown && PieceName(p) + "b" == both
    ensures Read(Begin([]), text) == [(both, Info)]
  {
    NameRunsOn([], p);
  }

  /** A failing input: a name without a level. */
  lemma NameWithoutLevelRunsOn(text: string)
    requires text == "a,b:INFO"
    ensures Read(Begin([]), text) == [("ab", Info)]
  {
    UnreadLevel();
    NameRunsOnTo(text, "a", "ab");
  }

  /** A failing input: a level that cannot be read. */
  lemma UnreadableLevelRunsOn(text: string)
    requires text == "a:x,b:INFO"
    ensures Read(Begin([]), text) == [("ab", Info)]
  {
    UnreadLevel();
    NameRunsOnTo(text, "a:x", "ab");
  }

  /** A failing input: a level without a name. */
  lemma LevelWithoutNameRunsOn(text: string)
    requires text == ":INFO,b"
    ensures Read(Begin([]), text) == [("b", Info)]
  {
    InfoLevel();
    LevelRunsOn([], ":INFO");
    assert ":INFO" + ("," + "b") == text;
  }

  lemma UnreadLevel()
    ensures PieceName("a") == "a" && PieceLevel("a") == Unknown
    ensures PieceName("a:x") == "a" && PieceLevel("a:x") == Unknown
  {
    assert "a:x"[1..] == ":x" && ":x"[1..] == "x" && "x"[1..] == "";
    if FromPrefix("x") != Unknown { NamesFirst("x", FromPrefix("x")); }
    assert LastLevel(Unknown, "x") == LastLevel(WordAt("x").level, "");
  }

  lemma InfoLevel()
    ensures PieceName(":INFO") == "" && PieceLevel(":INFO") == Info
  {
    assert ":INFO"[0..] == ":INFO" && ":INFO"[1..] == "INFO" && "INFO"[4..] == "";
    FromPrefixIs("INFO", Info);
    assert LastLevel(Unknown, "INFO") == LastLevel(Info, "");
  }

  // ----- what is allowed

  function Priority(l: Level): nat {
    match l
    case Fatal => 0
    case Error => 1
    case Warning => 2
    case Info => 3
    case Debug => 4
    case Verbose => 5
    case Trace => 6
    case _ => 7
  }

  // From the gravest level on.
  const GRAVEST_FIRST: seq<Level> := [Fatal, Error, Warning, Info, Debug, Verbose, Trace]

  /** A category of level l lets a message through: every message when l is Global, and otherwise those of l and of the
      graver levels. */
  predicate Permits(l: Level, level: Level) {
    l !in GRAVEST_FIRST || exists j | 0 <= j < 7 :: GRAVEST_FIRST[j] == l && level in GRAVEST_FIRST[..j + 1]
  }

  function PlaceOf(l: Level): (j: nat)
    requires l != Global && l != Unknown
    ensures j < 7 && GRAVEST_FIRST[j] == l
  {
    match l
    case Fatal => 0
    case Error => 1
    case Warning => 2
    case Info => 3
    case Debug => 4
    case Verbose => 5
    case Trace => 6
  }

  lemma {:induction false} PlacesDiffer(i: nat, j: nat)
    requires i < 7 && j < 7 && GRAVEST_FIRST[i] == GRAVEST_FIRST[j]
    ensures i == j
  {
    assert PlaceOf(GRAVEST_FIRST[i]) == i && PlaceOf(GRAVEST_FIRST[j]) == j;
  }

  lemma GraverPermitted(l: Level, level: Level)
    requires l != Global && l != Unknown && level != Global && level != Unknown && PlaceOf(level) <= PlaceOf(l)
    ensures Permits(l, level)
  {
    assert GRAVEST_FIRST[..PlaceOf(l) + 1][PlaceOf(level)] == level;
  }

  lemma PermittedGraver(l: Level, level: Level)
    requires l != Global && l != Unknown && Permits(l, level)
    ensures level != Global && level != Unknown && PlaceOf(level) <= PlaceOf(l)
  {
    assert l == GRAVEST_FIRST[PlaceOf(l)];
    var j :| 0 <= j < 7 && GRAVEST_FIRST[j] == l && level in GRAVEST_FIRST[..j + 1];
    PlacesDiffer(j, PlaceOf(l));
    var i :| 0 <= i <= j && GRAVEST_FIRST[i] == level;
    PlacesDiffer(i, PlaceOf(level));
  }

  /** The priorities order the levels that way. */
  lemma PriorityIs(level: Level, l: Level)
    ensures Priority(level) <= Priority(l) <==> Permits(l, level)
  {
    if l != Global && l != Unknown {
      if Permits(l, level) {
        PermittedGraver(l, level);
      } else if level != Global && level != Unknown && PlaceOf(level) <= PlaceOf(l) {
        GraverPermitted(l, level);
      }
    }
  }

  /** The patterns that match a category. */
  ghost function PatternsOf(category: string): string -> bool {
    p => Matches(p, category)
  }

  // The k-th pair is the last whose name is a hit.
  ghost predicate Decider(pairs: seq<Pair>, k: nat, hit: string -> bool) {
    k < |pairs| && hit(pairs[k].0) && forall j | k < j < |pairs| :: !hit(pairs[j].0)
  }

  /** The last pair whose name is a hit decides; with PatternsOf, the last that matches the category. */
  ghost predicate Allows(pairs: seq<Pair>, level: Level, hit: string -> bool) {
    exists k: nat :: Decider(pairs, k, hit) && Permits(pairs[k].1, level)
  }

  ghost predicate AnyHit(pairs: seq<Pair>, hit: string -> bool) {
    exists k | 0 <= k < |pairs| :: hit(pairs[k].0)
  }

  lemma DeciderInMore(pairs: seq<Pair>, more: seq<Pair>, k: nat, hit: string -> bool)
    ensures Decider(pairs + more, |pairs| + k, hit) <==> Decider(more, k, hit)
  {
    var all, n := pairs + more, |pairs|;
    assert forall j | n <= j < |all| :: all[j] == more[j - n];
    assert forall j | 0 <= j < |more| :: more[j] == all[n + j];
  }

  lemma DeciderInPairs(pairs: seq<Pair>, more: seq<Pair>, k: nat, hit: string -> bool)
    requires k < |pairs|
    ensures Decider(pairs + more, k, hit) <==> Decider(pairs, k, hit) && !AnyHit(more, hit)
  {
    var all, n := pairs + more, |pairs|;
    assert forall j | n <= j < |all| :: all[j] == more[j - n];
    assert forall j | 0 <= j < |more| :: more[j] == all[n + j];
    assert forall j | 0 <= j < n :: all[j] == pairs[j];
  }

  lemma DecidedInPairs(pairs: seq<Pair>, more: seq<Pair>, k: nat, level: Level, hit: string -> bool)
    requires k < |pairs| && Decider(pairs + more, k, hit) && Permits((pairs + more)[k].1, level)
    ensures !AnyHit(more, hit) && Allows(pairs, level, hit)
  {
    DeciderInPairs(pairs, more, k, hit);
    assert (pairs + more)[k] == pairs[k];
  }

  lemma DecidedInMore(pairs: seq<Pair>, more: seq<Pair>, k: nat, level: Level, hit: string -> bool)
    requires k >= |pairs| && Decider(pairs + more, k, hit) && Permits((pairs + more)[k].1, level)
    ensures AnyHit(more, hit) && Allows(more, level, hit)
  {
    DeciderInMore(pairs, more, k - |pairs|, hit);
    assert (pairs + more)[k] == more[k - |pairs|];
  }

  lemma AllowedByAll(pairs: seq<Pair>, more: seq<Pair>, level: Level, hit: string -> bool)
    requires Allows(pairs + more, level, hit)
    ensures if AnyHit(more, hit) then Allows(more, level, hit) else Allows(pairs, level, hit)
  {
    var k: nat :| Decider(pairs + more, k, hit) && Permits((pairs + more)[k].1, level);
    if k < |pairs| {
      DecidedInPairs(pairs, more, k, level, hit);
    } else {
      DecidedInMore(pairs, more, k, level, hit);
    }
  }

  lemma AllowedByMore(pairs: seq<Pair>, more: seq<Pair>, level: Level, hit: string -> bool)
    requires Allows(more, level, hit)
    ensures Allows(pairs + more, level, hit)
  {
    var k: nat :| Decider(more, k, hit) && Permits(more[k].1, level);
    DeciderInMore(pairs, more, k, hit);
    assert (pairs + more)[|pairs| + k] == more[k];
  }

  lemma AllowedByPairs(pairs: seq<Pair>, more: seq<Pair>, level: Level, hit: string -> bool)
    requires Allows(pairs, level, hit) && !AnyHit(more, hit)
    ensures Allows(pairs + more, level, hit)
  {
    var k: nat :| Decider(pairs, k, hit) && Permits(pairs[k].1, level);
    DeciderInPairs(pairs, more, k, hit);
    assert (pairs + more)[k] == pairs[k];
  }

  /** Pairs set later come before pairs set earlier. */
  lemma LaterPairsDecide(pairs: seq<Pair>, more: seq<Pair>, level: Level, hit: string -> bool)
    ensures Allows(pairs + more, level, hit) <==>
            if AnyHit(more, hit) then Allows(more, level, hit) else Allows(pairs, level, hit)
  {
    if Allows(pairs + more, level, hit) {
      AllowedByAll(pairs, more, level, hit);
    }
    if Allows(more, level, hit) {
      AllowedByMore(pairs, more, level, hit);
    }
    if Allows(pairs, level, hit) && !AnyHit(more, hit) {
      AllowedByPairs(pairs, more, level, hit);
    }
  }

  // ----- the registry

  // A name for what is made of the text from i on, which keeps `Read` folded.
  ghost predicate Folds(left: (Scan, nat) -> seq<Pair>, text: string) {
    forall s: Scan, i: nat {:trigger Read(s, text[i..])} | i <= |text| :: left(s, i) == Read(s, text[i..])
  }

  lemma ColonAt(left: (Scan, nat) -> seq<Pair>, text: string, s: Scan, i: nat)
    requires Folds(left, text) && i < |text| && text[i] == ':'
    ensures left(s, i) == left(s.(inLevel := true), i + 1)
  {
    assert left(s, i) == Read(s, text[i..]);
    assert text[i..][1..] == text[i + 1..];
  }

  lemma CommaAt(left: (Scan, nat) -> seq<Pair>, text: string, s: Scan, i: nat)
    requires Folds(left, text) && i < |text| && text[i] == ','
    ensures left(s, i) == left(Insert(s.(inLevel := false)), i + 1)
  {
    assert left(s, i) == Read(s, text[i..]);
    assert text[i..][1..] == text[i + 1..];
  }

  lemma LetterAt(left: (Scan, nat) -> seq<Pair>, text: string, s: Scan, i: nat)
    requires Folds(left, text) && i < |text| && text[i] != ':' && text[i] != ',' && !s.inLevel
    ensures left(s, i) == left(s.(name := s.name + [text[i]]), i + 1)
  {
    assert left(s, i) == Read(s, text[i..]);
    assert text[i..][1..] == text[i + 1..];
  }

  lemma LevelAt(left: (Scan, nat) -> seq<Pair>, text: string, s: Scan, i: nat, w: Word)
    requires Folds(left, text) && i < |text| && text[i] != ':' && text[i] != ',' && s.inLevel && w == WordAt(text[i..])
    ensures i + w.length <= |text| && left(s, i) == left(s.(level := w.level), i + w.length)
  {
    assert left(s, i) == Read(s, text[i..]);
    assert text[i..][w.length..] == text[i + w.length..];
  }

  lemma TextOver(left: (Scan, nat) -> seq<Pair>, text: string, s: Scan)
    requires Folds(left, text)
    ensures left(s, |text|) == Insert(s).pairs
  {
    assert left(s, |text|) == Read(s, text[|text|..]);
  }

  class Categories {
    var pairs: seq<Pair>

    constructor ()
      ensures pairs == []
    {
      pairs := [];
    }

    /** setCategories */
    method SetCategories(categories: Option<string>, clear: bool)
      modifies this
      ensures var was := if clear then [] else old(pairs);
              pairs == match categories case None => was case Some(text) => Read(Begin(was), text)
    {
      if clear { pairs := []; }
      if categories == None { return; }
      var text := categories.value;
      ghost var left := (s: Scan, i: nat) => if i <= |text| then Read(s, text[i..]) else [];
      assert text[0..] == text;
      ScanText(left, text);
    }

    // A level at i, and where the text goes on.
    method ReadLevel(text: string, i: nat) returns (level: Level, next: nat)
      requires i < |text|
      ensures i < next <= |text| && WordAt(text[i..]) == Word(level, next - i)
    {
      level := FromPrefix(text[i..]);
      next := i + 1;
      if level != Unknown {
        next := i + |Upper(level)|;
      }
    }

    // The loop over the text, left(s, i) being what it makes of the text from i on.
    method ScanText(ghost left: (Scan, nat) -> seq<Pair>, text: string)
      requires Folds(left, text)
      modifies this
      ensures pairs == left(Begin(old(pairs)), 0)
    {
      var inLevel, name, level, i := false, "", Unknown, 0;
      while i < |text|
        invariant 0 <= i <= |text|
        invariant left(Begin(old(pairs)), 0) == left(Scan(inLevel, name, level, pairs), i)
      {
        ghost var s := Scan(inLevel, name, level, pairs);
        if text[i] == ':' {
          ColonAt(left, text, s, i);
          inLevel := true;
          i := i + 1;
        } else if text[i] == ',' {
          CommaAt(left, text, s, i);
          inLevel := false;
          if name != "" && level != Unknown {
            pairs := pairs + [(name, level)];
            name, level := "", Unknown;
          }
          i := i + 1;
        } else if !inLevel {
          LetterAt(left, text, s, i);
          name := name + [text[i]];
          i := i + 1;
        } else {
          ghost var at := i;
          level, i := ReadLevel(text, i);
          LevelAt(left, text, s, at, Word(level, i - at));
        }
      }
      TextOver(left, text, Scan(inLevel, name, level, pairs));
      if name != "" && level != Unknown {
        pairs := pairs + [(name, level)];
      }
    }

    /** allowed */
    method Allowed(level: Level, category: Option<string>) returns (ok: bool)
      ensures ok <==> category.Some? && Allows(pairs, level, PatternsOf(category.value))
    {
      if pairs == [] || category == None { return false; }
      var k := |pairs|;
      while k > 0
        invariant 0 <= k <= |pairs|
        invariant forall j | k <= j < |pairs| :: !Matches(pairs[j].0, category.value)
      {
        k := k - 1;
        var matched := WildCardMatch(category.value, pairs[k].0);
        if matched {
          assert Decider(pairs, k, PatternsOf(category.value));
          PriorityIs(level, pairs[k].1);
          return Priority(level) <= Priority(pairs[k].1);
        }
      }
      return false;
    }
  }
}
