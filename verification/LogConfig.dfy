/** The configuration of a logger: a list of values set by level, and the typed maps made from it. */
module LogConfig {
  import opened Text
  import opened LogLevels

  /** What can be configured level by level. */
  datatype Kind = Enabled | ToStandardOutput | Format | MaxLogFileSize | LogFlushThreshold

  datatype Entry = Entry(level: Level, kind: Kind, value: string)

  // ----- the list

  // The value of the first entry for the level and kind is replaced, or an entry is added at the end.
  function Put(list: seq<Entry>, level: Level, kind: Kind, value: string): seq<Entry> {
    if list == [] then [Entry(level, kind, value)]
    else if list[0].level == level && list[0].kind == kind then [list[0].(value := value)] + list[1..]
    else [list[0]] + Put(list[1..], level, kind, value)
  }

  // The levels are the powers of two from 2 to 128.
  function LevelOf(code: nat): Level {
    if code == 1 then Global
    else if code == 2 then Trace
    else if code == 4 then Debug
    else if code == 8 then Fatal
    else if code == 16 then Error
    else if code == 32 then Warning
    else if code == 64 then Verbose
    else if code == 128 then Info
    else Unknown
  }

  /** The levels that forEachLevel goes through. */
  function LevelsFrom(code: nat): seq<Level>
    requires code > 0
    decreases 256 - code
  {
    if code > 128 then [] else [LevelOf(code)] + LevelsFrom(2 * code)
  }

  const VALID: seq<Level> := LevelsFrom(2)

  lemma ValidIs()
    ensures VALID == [Trace, Debug, Fatal, Error, Warning, Verbose, Info]
  {
    assert LevelsFrom(128) == [Info];
    assert LevelsFrom(64) == [Verbose, Info];
    assert LevelsFrom(32) == [Warning, Verbose, Info];
    assert LevelsFrom(16) == [Error, Warning, Verbose, Info];
    assert LevelsFrom(8) == [Fatal, Error, Warning, Verbose, Info];
    assert LevelsFrom(4) == [Debug, Fatal, Error, Warning, Verbose, Info];
  }

  function PutEach(list: seq<Entry>, levels: seq<Level>, kind: Kind, value: string): seq<Entry>
    decreases |levels|
  {
    if levels == [] then list else PutEach(Put(list, levels[0], kind, value), levels[1..], kind, value)
  }

  function UnsafeSet(list: seq<Entry>, level: Level, kind: Kind, value: string): seq<Entry> {
    var put := Put(list, level, kind, value);
    if level == Global then PutEach(put, VALID, kind, value) else put
  }

  /** Configurations::set, which goes over the levels once more for Global. */
  function Set(list: seq<Entry>, level: Level, kind: Kind, value: string): seq<Entry> {
    var put := UnsafeSet(list, level, kind, value);
    if level == Global then PutEach(put, VALID, kind, value) else put
  }

  datatype Call = Call(level: Level, kind: Kind, value: string)

  /** Any run of calls. */
  function SetAll(list: seq<Entry>, calls: seq<Call>): seq<Entry>
    decreases |calls|
  {
    if calls == [] then list else SetAll(Set(list, calls[0].level, calls[0].kind, calls[0].value), calls[1..])
  }

  // ----- what a list says about one kind

  datatype Row = Row(level: Level, value: string)

  /** The entries of one kind, in order. */
  function Rows(list: seq<Entry>, kind: Kind): seq<Row> {
    if list == [] then []
    else if list[0].kind == kind then [Row(list[0].level, list[0].value)] + Rows(list[1..], kind)
    else Rows(list[1..], kind)
  }

  function PutRow(rows: seq<Row>, level: Level, value: string): (r: seq<Row>)
    ensures |r| > 0 && (rows != [] ==> r[0].level == rows[0].level) && (rows == [] ==> r[0].level == level)
  {
    if rows == [] then [Row(level, value)]
    else if rows[0].level == level then [Row(level, value)] + rows[1..]
    else [rows[0]] + PutRow(rows[1..], level, value)
  }

  function Find(rows: seq<Row>, level: Level): Option<string> {
    if rows == [] then None else if rows[0].level == level then Some(rows[0].value) else Find(rows[1..], level)
  }

  ghost predicate Distinct(rows: seq<Row>) {
    forall i, j | 0 <= i < j < |rows| :: rows[i].level != rows[j].level
  }

  lemma RowsOfCons(e: Entry, rest: seq<Entry>, k: Kind)
    ensures Rows([e] + rest, k) == if e.kind == k then [Row(e.level, e.value)] + Rows(rest, k) else Rows(rest, k)
  {
    assert ([e] + rest)[1..] == rest;
  }

  lemma PutRowOfCons(r: Row, rest: seq<Row>, level: Level, value: string)
    ensures PutRow([r] + rest, level, value) == if r.level == level then [Row(level, value)] + rest
            else [r] + PutRow(rest, level, value)
  {
    assert ([r] + rest)[1..] == rest;
  }

  lemma {:induction false} RowsOfPut(list: seq<Entry>, level: Level, kind: Kind, value: string, k: Kind)
    ensures Rows(Put(list, level, kind, value), k) == if k == kind then PutRow(Rows(list, k), level, value)
            else Rows(list, k)
    decreases |list|
  {
    if list == [] {
      RowsOfCons(Entry(level, kind, value), [], k);
    } else {
      var e, rest := list[0], list[1..];
      assert list == [e] + rest;
      RowsOfCons(e, rest, k);
      PutRowOfCons(Row(e.level, e.value), Rows(rest, k), level, value);
      if e.level == level && e.kind == kind {
        RowsOfCons(e.(value := value), rest, k);
      } else {
        RowsOfCons(e, Put(rest, level, kind, value), k);
        RowsOfPut(rest, level, kind, value, k);
      }
    }
  }

  lemma {:induction false} FindOfPut(rows: seq<Row>, level: Level, value: string, m: Level)
    ensures Find(PutRow(rows, level, value), m) == if m == level then Some(value) else Find(rows, m)
    decreases |rows|
  {
    if rows != [] {
      if rows[0].level == level {
        assert PutRow(rows, level, value)[1..] == rows[1..];
      } else {
        assert PutRow(rows, level, value)[1..] == PutRow(rows[1..], level, value);
        FindOfPut(rows[1..], level, value, m);
      }
    }
  }

  lemma {:induction false} PutLevels(rows: seq<Row>, level: Level, value: string, i: nat)
    requires i < |PutRow(rows, level, value)|
    ensures PutRow(rows, level, value)[i].level == if i < |rows| then rows[i].level else level
    ensures i >= |rows| ==> i == |rows| && forall j | 0 <= j < |rows| :: rows[j].level != level
    decreases |rows|
  {
    if rows != [] && rows[0].level != level && i > 0 {
      PutLevels(rows[1..], level, value, i - 1);
      assert i >= |rows| ==> forall j | 0 < j < |rows| :: rows[j] == rows[1..][j - 1];
    }
  }

  lemma PutDistinct(rows: seq<Row>, level: Level, value: string)
    requires Distinct(rows)
    ensures Distinct(PutRow(rows, level, value))
  {
    var put := PutRow(rows, level, value);
    forall i, j | 0 <= i < j < |put|
      ensures put[i].level != put[j].level
    {
      PutLevels(rows, level, value, i);
      PutLevels(rows, level, value, j);
    }
  }

  // ----- what a call changes

  /** Rows keep their first level and stay distinct, and the levels covered all get the value. */
  ghost predicate Updated(rows: seq<Row>, rows': seq<Row>, covers: Level -> bool, value: string) {
    && (Distinct(rows) ==> Distinct(rows'))
    && (rows != [] ==> rows' != [] && rows'[0].level == rows[0].level)
    && forall m :: Find(rows', m) == if covers(m) then Some(value) else Find(rows, m)
  }

  lemma PutUpdates(list: seq<Entry>, level: Level, kind: Kind, value: string)
    ensures Updated(Rows(list, kind), Rows(Put(list, level, kind, value), kind), m => m == level, value)
    ensures Rows(list, kind) == [] ==> Rows(Put(list, level, kind, value), kind) == [Row(level, value)]
  {
    var rows := Rows(list, kind);
    RowsOfPut(list, level, kind, value, kind);
    if Distinct(rows) { PutDistinct(rows, level, value); }
    forall m
      ensures Find(PutRow(rows, level, value), m) == if m == level then Some(value) else Find(rows, m)
    {
      FindOfPut(rows, level, value, m);
    }
  }

  lemma UpdatedTwice(a: seq<Row>, b: seq<Row>, c: seq<Row>, f: Level -> bool, g: Level -> bool, h: Level -> bool,
                     value: string)
    requires Updated(a, b, f, value) && Updated(b, c, g, value) && forall m :: h(m) == (f(m) || g(m))
    ensures Updated(a, c, h, value)
  {
  }

  lemma {:induction false} PutEachUpdates(list: seq<Entry>, levels: seq<Level>, kind: Kind, value: string)
    ensures Updated(Rows(list, kind), Rows(PutEach(list, levels, kind, value), kind), m => m in levels, value)
    decreases |levels|
  {
    if levels != [] {
      var put := Put(list, levels[0], kind, value);
      PutUpdates(list, levels[0], kind, value);
      PutEachUpdates(put, levels[1..], kind, value);
      UpdatedTwice(Rows(list, kind), Rows(put, kind), Rows(PutEach(list, levels, kind, value), kind),
                   m => m == levels[0], m => m in levels[1..], m => m in levels, value);
    }
  }

  /** A call reaches its own level, and from Global every level but Unknown. */
  predicate Covers(level: Level, m: Level) {
    level == m || (level == Global && m != Unknown)
  }

  lemma ValidLevels(m: Level)
    ensures m in VALID <==> m != Global && m != Unknown
  {
    ValidIs();
    match m
    case Global =>
    case Trace => assert VALID[0] == m;
    case Debug => assert VALID[1] == m;
    case Fatal => assert VALID[2] == m;
    case Error => assert VALID[3] == m;
    case Warning => assert VALID[4] == m;
    case Verbose => assert VALID[5] == m;
    case Info => assert VALID[6] == m;
    case Unknown =>
  }

  lemma AllValid()
    ensures forall m :: m in VALID <==> m != Global && m != Unknown
  {
    forall m
      ensures m in VALID <==> m != Global && m != Unknown
    {
      ValidLevels(m);
    }
  }

  // A value for Global and, twice over, for other levels.
  function PutTwice(list: seq<Entry>, levels: seq<Level>, kind: Kind, value: string): seq<Entry> {
    PutEach(PutEach(Put(list, Global, kind, value), levels, kind, value), levels, kind, value)
  }

  predicate StartsWith(rows: seq<Row>, level: Level) {
    rows != [] && rows[0].level == level
  }

  lemma PutTwiceUpdates(list: seq<Entry>, levels: seq<Level>, kind: Kind, value: string, covers: Level -> bool)
    requires forall m :: covers(m) == (m == Global || m in levels)
    ensures var rows, rows' := Rows(list, kind), Rows(PutTwice(list, levels, kind, value), kind);
            Updated(rows, rows', covers, value) && (rows == [] ==> StartsWith(rows', Global))
  {
    var put := Put(list, Global, kind, value);
    var once := PutEach(put, levels, kind, value);
    PutUpdates(list, Global, kind, value);
    PutEachUpdates(put, levels, kind, value);
    PutEachUpdates(once, levels, kind, value);
    var rows := Rows(list, kind);
    var twice := Rows(PutTwice(list, levels, kind, value), kind);
    UpdatedTwice(rows, Rows(put, kind), Rows(once, kind), m => m == Global, m => m in levels, covers, value);
    UpdatedTwice(rows, Rows(once, kind), twice, covers, m => m in levels, covers, value);
  }

  lemma SetIsPutTwice(list: seq<Entry>, levels: seq<Level>, kind: Kind, value: string)
    requires levels == VALID
    ensures Set(list, Global, kind, value) == PutTwice(list, levels, kind, value)
  {
  }

  /** One call of set, for entries of its kind. */
  lemma SetUpdates(list: seq<Entry>, level: Level, kind: Kind, value: string)
    ensures var rows, rows' := Rows(list, kind), Rows(Set(list, level, kind, value), kind);
            Updated(rows, rows', m => Covers(level, m), value) && (rows == [] ==> StartsWith(rows', level))
  {
    if level == Global {
      var levels, covers := VALID, m => Covers(Global, m);
      AllValid();
      SetIsPutTwice(list, levels, kind, value);
      PutTwiceUpdates(list, levels, kind, value, covers);
      SameCover(Rows(list, kind), Rows(Set(list, level, kind, value), kind), covers, m => Covers(level, m), value);
    } else {
      PutUpdates(list, level, kind, value);
      SameCover(Rows(list, kind), Rows(Put(list, level, kind, value), kind), m => m == level, m => Covers(level, m),
        value);
    }
  }

  lemma SameCover(rows: seq<Row>, rows': seq<Row>, f: Level -> bool, g: Level -> bool, value: string)
    requires Updated(rows, rows', f, value) && forall m :: f(m) == g(m)
    ensures Updated(rows, rows', g, value)
  {
  }

  lemma {:induction false} PutEachOthers(list: seq<Entry>, levels: seq<Level>, kind: Kind, value: string, k: Kind)
    requires k != kind
    ensures Rows(PutEach(list, levels, kind, value), k) == Rows(list, k)
    decreases |levels|
  {
    if levels != [] {
      RowsOfPut(list, levels[0], kind, value, k);
      PutEachOthers(Put(list, levels[0], kind, value), levels[1..], kind, value, k);
    }
  }

  /** Entries of other kinds are left alone. */
  lemma SetOthers(list: seq<Entry>, level: Level, kind: Kind, value: string, k: Kind)
    requires k != kind
    ensures Rows(Set(list, level, kind, value), k) == Rows(list, k)
  {
    var put, levels := Put(list, level, kind, value), VALID;
    RowsOfPut(list, level, kind, value, k);
    if level == Global {
      PutEachOthers(put, levels, kind, value, k);
      PutEachOthers(PutEach(put, levels, kind, value), levels, kind, value, k);
    }
  }

  // ----- runs of calls

  predicate Touches(c: Call, kind: Kind, m: Level) {
    c.kind == kind && Covers(c.level, m)
  }

  /** The value of the last call that reaches a level, or what was found before. */
  function LastSet(found: Option<string>, calls: seq<Call>, kind: Kind, m: Level): Option<string>
    decreases |calls|
  {
    if calls == [] then found
    else LastSet(if Touches(calls[0], kind, m) then Some(calls[0].value) else found, calls[1..], kind, m)
  }

  // The level of the first call for a kind, unless there is one already.
  function FirstLevel(first: Option<Level>, calls: seq<Call>, kind: Kind): Option<Level>
    decreases |calls|
  {
    if calls == [] || first != None then first
    else FirstLevel(if calls[0].kind == kind then Some(calls[0].level) else None, calls[1..], kind)
  }

  function HeadLevel(rows: seq<Row>): Option<Level> {
    if rows == [] then None else Some(rows[0].level)
  }

  /** Over any run of calls the entries of a kind stay distinct, the first keeps its place, and every level is
      found with the value of the last call that reaches it. */
  lemma {:induction false} RunOfCalls(list: seq<Entry>, calls: seq<Call>, kind: Kind)
    requires Distinct(Rows(list, kind))
    ensures var rows, rows' := Rows(list, kind), Rows(SetAll(list, calls), kind);
            && Distinct(rows') && HeadLevel(rows') == FirstLevel(HeadLevel(rows), calls, kind)
            && forall m :: Find(rows', m) == LastSet(Find(rows, m), calls, kind, m)
    decreases |calls|
  {
    if calls != [] {
      var c := calls[0];
      if c.kind == kind {
        SetUpdates(list, c.level, kind, c.value);
      } else {
        SetOthers(list, c.level, c.kind, c.value, kind);
      }
      RunOfCalls(Set(list, c.level, c.kind, c.value), calls[1..], kind);
      FirstStays(calls[1..], kind);
    }
  }

  lemma FirstStays(calls: seq<Call>, kind: Kind)
    ensures forall l :: FirstLevel(Some(l), calls, kind) == Some(l)
  {
  }

  // ----- the methods

  lemma PutSkips(list: seq<Entry>, i: nat, level: Level, kind: Kind, value: string)
    requires i < |list| && !(list[i].level == level && list[i].kind == kind)
    ensures list[..i] + Put(list[i..], level, kind, value) == list[..i + 1] + Put(list[i + 1..], level, kind, value)
  {
    assert list[i..][1..] == list[i + 1..];
    assert list[..i + 1] == list[..i] + [list[i]];
  }

  lemma PutReplaces(list: seq<Entry>, i: nat, level: Level, kind: Kind, value: string)
    requires i < |list| && list[i].level == level && list[i].kind == kind
    ensures list[..i] + Put(list[i..], level, kind, value) == list[i := list[i].(value := value)]
  {
    assert list[i..][1..] == list[i + 1..];
  }

  class Configurations {
    var list: seq<Entry>

    constructor ()
      ensures list == []
    {
      list := [];
    }

    // registerNew or setValue
    method PutValue(level: Level, kind: Kind, value: string)
      modifies this
      ensures list == Put(old(list), level, kind, value)
    {
      var i := 0;
      assert list[..0] + Put(list[0..], level, kind, value) == Put(list, level, kind, value) by {
        assert list[0..] == list;
      }
      while i < |list| && !(list[i].level == level && list[i].kind == kind)
        invariant 0 <= i <= |list| && list == old(list)
        invariant Put(old(list), level, kind, value) == list[..i] + Put(list[i..], level, kind, value)
      {
        PutSkips(list, i, level, kind, value);
        i := i + 1;
      }
      if i < |list| {
        PutReplaces(list, i, level, kind, value);
        list := list[i := list[i].(value := value)];
      } else {
        assert list[i..] == [] && list[..i] == list;
        list := list + [Entry(level, kind, value)];
      }
    }

    /** unsafeSet */
    method UnsafeSetValue(level: Level, kind: Kind, value: string)
      modifies this
      ensures list == UnsafeSet(old(list), level, kind, value)
      decreases if level == Global then 2 else 0
    {
      PutValue(level, kind, value);
      if level == Global {
        UnsafeSetGlobally(kind, value);
      }
    }

    /** unsafeSetGlobally without Global itself, by forEachLevel */
    method UnsafeSetGlobally(kind: Kind, value: string)
      modifies this
      ensures list == PutEach(old(list), VALID, kind, value)
      decreases 1
    {
      var lIndex := 2;
      while lIndex <= 128
        invariant lIndex >= 2
        invariant PutEach(old(list), VALID, kind, value) == PutEach(list, LevelsFrom(lIndex), kind, value)
        decreases 256 - lIndex
      {
        assert LevelsFrom(lIndex)[1..] == LevelsFrom(2 * lIndex);
        UnsafeSetValue(LevelOf(lIndex), kind, value);
        lIndex := 2 * lIndex;
      }
    }

    /** set */
    method SetValue(level: Level, kind: Kind, value: string)
      modifies this
      ensures list == Set(old(list), level, kind, value)
    {
      UnsafeSetValue(level, kind, value);
      if level == Global {
        UnsafeSetGlobally(kind, value);
      }
    }
  }
}
