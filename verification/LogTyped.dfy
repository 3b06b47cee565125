/** The typed maps of a logger, which leave out what Global already says. */
module LogTyped {
  import opened Text
  import opened LogLevels
  import opened LogConfig

  // ----- one map

  /** setValue */
  function SetValue<T(==)>(m: map<Level, T>, level: Level, value: T): map<Level, T> {
    if m == map[] then map[Global := value]
    else if Global in m && m[Global] == value then m
    else m[level := value]
  }

  /** The rows of a kind go into its map in order; typed turns the text of a level into a value. */
  function Build<T(==)>(m: map<Level, T>, rows: seq<Row>, typed: (Level, string) -> T): map<Level, T>
    decreases |rows|
  {
    if rows == [] then m else Build(SetValue(m, rows[0].level, typed(rows[0].level, rows[0].value)), rows[1..], typed)
  }

  /** unsafeGetConfigByVal */
  function Lookup<T>(m: map<Level, T>, level: Level, none: T): T {
    if level in m then m[level] else if Global in m then m[Global] else none
  }

  // ----- when the map says what the rows say

  ghost predicate Agrees<T>(m: map<Level, T>, rows: seq<Row>, typed: (Level, string) -> T, none: T) {
    forall i | 0 <= i < |rows| :: Lookup(m, rows[i].level, none) == typed(rows[i].level, rows[i].value)
  }

  lemma DistinctTail(rows: seq<Row>)
    requires rows != [] && Distinct(rows)
    ensures Distinct(rows[1..]) && forall i | 0 <= i < |rows| - 1 :: rows[1..][i].level != rows[0].level
  {
  }

  // As long as the value of Global stays, every row is found.
  lemma {:induction false} SteadyBuild<T>(m: map<Level, T>, rows: seq<Row>, typed: (Level, string) -> T, none: T)
    requires Global in m && Distinct(rows)
    requires forall i | 0 <= i < |rows| ::
               if rows[i].level == Global then typed(rows[i].level, rows[i].value) == m[Global] else rows[i].level !in m
    ensures var r := Build(m, rows, typed);
            && Agrees(r, rows, typed, none) && Global in r && r[Global] == m[Global]
            && forall l | (forall i | 0 <= i < |rows| :: rows[i].level != l) :: Lookup(r, l, none) == Lookup(m, l, none)
    decreases |rows|
  {
    if rows != [] {
      var l, v := rows[0].level, typed(rows[0].level, rows[0].value);
      var m' := SetValue(m, l, v);
      DistinctTail(rows);
      assert Lookup(m', l, none) == v;
      assert forall i | 0 <= i < |rows| - 1 :: rows[1..][i] == rows[i + 1];
      SteadyBuild(m', rows[1..], typed, none);
      var r := Build(m, rows, typed);
      assert Lookup(r, l, none) == v;
      forall i | 0 <= i < |rows|
        ensures Lookup(r, rows[i].level, none) == typed(rows[i].level, rows[i].value)
      {
        if i > 0 { assert rows[i] == rows[1..][i - 1]; }
      }
      forall k | forall i | 0 <= i < |rows| :: rows[i].level != k
        ensures Lookup(r, k, none) == Lookup(m, k, none)
      {
        assert rows[0].level != k;
        assert forall i | 0 <= i < |rows| - 1 :: rows[1..][i].level != k;
      }
    }
  }

  // A level without a row does not enter the map, and Global ends with the value of its row.
  lemma {:induction false} BuildKeepsOut<T>(m: map<Level, T>, rows: seq<Row>, typed: (Level, string) -> T, l: Level)
    requires Global in m && Distinct(rows) && l != Global
    requires l !in m && forall i | 0 <= i < |rows| :: rows[i].level != l
    ensures var r := Build(m, rows, typed); l !in r && Global in r
    ensures (forall i | 0 <= i < |rows| :: rows[i].level != Global) ==> Build(m, rows, typed)[Global] == m[Global]
    ensures forall i | 0 <= i < |rows| && rows[i].level == Global ::
            Build(m, rows, typed)[Global] == typed(Global, rows[i].value)
    decreases |rows|
  {
    if rows != [] {
      var m' := SetValue(m, rows[0].level, typed(rows[0].level, rows[0].value));
      DistinctTail(rows);
      assert forall i | 0 <= i < |rows| - 1 :: rows[1..][i] == rows[i + 1];
      BuildKeepsOut(m', rows[1..], typed, l);
      forall i | 0 <= i < |rows| && rows[i].level == Global
        ensures Build(m, rows, typed)[Global] == typed(Global, rows[i].value)
      {
        if i > 0 { assert rows[i] == rows[1..][i - 1]; }
      }
    }
  }

  /** Global has no row, or one with the value of the first row. */
  ghost predicate Steady<T>(rows: seq<Row>, typed: (Level, string) -> T) {
    forall i | 0 <= i < |rows| && rows[i].level == Global ::
      typed(Global, rows[i].value) == typed(rows[0].level, rows[0].value)
  }

  lemma FirstRow<T>(rows: seq<Row>, typed: (Level, string) -> T)
    requires rows != []
    ensures Build(map[], rows, typed) == Build(map[Global := typed(rows[0].level, rows[0].value)], rows[1..], typed)
  {
  }

  /** The map says what the rows say exactly when Global has no row, or one with the value of the first row: the
      first value goes to Global, and is lost when Global gets another. */
  lemma AgreesIff<T>(rows: seq<Row>, typed: (Level, string) -> T, none: T)
    requires Distinct(rows)
    ensures Agrees(Build(map[], rows, typed), rows, typed, none) <==> Steady(rows, typed)
  {
    if rows != [] {
      if Steady(rows, typed) {
        SteadyAgrees(rows, typed, none);
      } else {
        var i :| 0 <= i < |rows| && rows[i].level == Global &&
          typed(Global, rows[i].value) != typed(rows[0].level, rows[0].value);
        FirstLost(rows, typed, none, i);
      }
    }
  }

  lemma SteadyAgrees<T>(rows: seq<Row>, typed: (Level, string) -> T, none: T)
    requires rows != [] && Distinct(rows) && Steady(rows, typed)
    ensures Agrees(Build(map[], rows, typed), rows, typed, none)
  {
    var first := typed(rows[0].level, rows[0].value);
    var m := map[Global := first];
    FirstRow(rows, typed);
    DistinctTail(rows);
    assert forall i | 0 <= i < |rows| - 1 :: rows[1..][i] == rows[i + 1];
    SteadyBuild(m, rows[1..], typed, none);
    var r := Build(map[], rows, typed);
    forall i | 0 <= i < |rows|
      ensures Lookup(r, rows[i].level, none) == typed(rows[i].level, rows[i].value)
    {
      if i > 0 { assert rows[i] == rows[1..][i - 1]; }
    }
  }

  lemma FirstLost<T>(rows: seq<Row>, typed: (Level, string) -> T, none: T, i: nat)
    requires Distinct(rows) && i < |rows| && rows[i].level == Global
    requires typed(Global, rows[i].value) != typed(rows[0].level, rows[0].value)
    ensures !Agrees(Build(map[], rows, typed), rows, typed, none)
  {
    var m := map[Global := typed(rows[0].level, rows[0].value)];
    FirstRow(rows, typed);
    DistinctTail(rows);
    assert rows[i] == rows[1..][i - 1];
    BuildKeepsOut(m, rows[1..], typed, rows[0].level);
    assert Lookup(Build(map[], rows, typed), rows[0].level, none) == typed(Global, rows[i].value);
  }

  // ----- over any run of calls

  /** What the map made after a run of calls answers for a level. */
  function Answer<T(==)>(calls: seq<Call>, kind: Kind, typed: (Level, string) -> T, none: T, m: Level): T {
    Lookup(Build(map[], Rows(SetAll([], calls), kind), typed), m, none)
  }

  /** Every level that some call has reached is answered with the value of the last such call. */
  ghost predicate AnswersLast<T>(calls: seq<Call>, kind: Kind, typed: (Level, string) -> T, none: T) {
    forall m | LastSet(None, calls, kind, m).Some? ::
      Answer(calls, kind, typed, none, m) == typed(m, LastSet(None, calls, kind, m).value)
  }

  lemma {:induction false} FindIs(rows: seq<Row>, m: Level)
    requires Distinct(rows)
    ensures Find(rows, m).Some? ==> exists i | 0 <= i < |rows| :: rows[i] == Row(m, Find(rows, m).value)
    ensures forall i | 0 <= i < |rows| && rows[i].level == m :: Find(rows, m) == Some(rows[i].value)
    decreases |rows|
  {
    if rows != [] {
      DistinctTail(rows);
      FindIs(rows[1..], m);
      if rows[0].level != m && Find(rows, m).Some? {
        var i :| 0 <= i < |rows| - 1 && rows[1..][i] == Row(m, Find(rows, m).value);
        assert rows[i + 1] == rows[1..][i];
      }
      forall i | 0 <= i < |rows| && rows[i].level == m
        ensures Find(rows, m) == Some(rows[i].value)
      {
        if i > 0 { assert rows[i] == rows[1..][i - 1]; }
      }
    }
  }

  lemma AgreesByLevel<T>(map': map<Level, T>, rows: seq<Row>, typed: (Level, string) -> T, none: T)
    requires Distinct(rows)
    ensures Agrees(map', rows, typed, none) <==>
            forall m | Find(rows, m).Some? :: Lookup(map', m, none) == typed(m, Find(rows, m).value)
  {
    if Agrees(map', rows, typed, none) {
      forall m | Find(rows, m).Some?
        ensures Lookup(map', m, none) == typed(m, Find(rows, m).value)
      {
        FindIs(rows, m);
        var i :| 0 <= i < |rows| && rows[i] == Row(m, Find(rows, m).value);
      }
    }
    if forall m | Find(rows, m).Some? :: Lookup(map', m, none) == typed(m, Find(rows, m).value) {
      forall i | 0 <= i < |rows|
        ensures Lookup(map', rows[i].level, none) == typed(rows[i].level, rows[i].value)
      {
        FindIs(rows, rows[i].level);
      }
    }
  }

  lemma SteadyByLevel<T>(rows: seq<Row>, typed: (Level, string) -> T)
    requires rows != [] && Distinct(rows)
    ensures Find(rows, rows[0].level).Some?
    ensures Steady(rows, typed) <==>
            (Find(rows, Global).Some? ==>
               typed(Global, Find(rows, Global).value) == typed(rows[0].level, Find(rows, rows[0].level).value))
  {
    FindIs(rows, Global);
    FindIs(rows, rows[0].level);
  }

  /** Global was never set, or the level set first now has its value. */
  ghost predicate SteadyCalls<T>(calls: seq<Call>, kind: Kind, typed: (Level, string) -> T) {
    var first, global := FirstLevel(None, calls, kind), LastSet(None, calls, kind, Global);
    first.Some? && global.Some? ==>
      var mine := LastSet(None, calls, kind, first.value);
      mine.Some? && typed(Global, global.value) == typed(first.value, mine.value)
  }

  /** After a run of calls the map answers every level with the value of the last call that reached it exactly when
      Global was never set or the level of the first call ends with the value of Global. */
  lemma AnswersLastIff<T>(calls: seq<Call>, kind: Kind, typed: (Level, string) -> T, none: T)
    ensures AnswersLast(calls, kind, typed, none) <==> SteadyCalls(calls, kind, typed)
  {
    var rows := Rows(SetAll([], calls), kind);
    RunOfCalls([], calls, kind);
    AgreesByLevel(Build(map[], rows, typed), rows, typed, none);
    AgreesIff(rows, typed, none);
    if rows != [] { SteadyByLevel(rows, typed); }
  }

  lemma {:induction false} LastSetSome(found: Option<string>, calls: seq<Call>, kind: Kind, m: Level)
    requires found.Some?
    ensures LastSet(found, calls, kind, m).Some?
    decreases |calls|
  {
    if calls != [] {
      var c := calls[0];
      LastSetSome(if Touches(c, kind, m) then Some(c.value) else found, calls[1..], kind, m);
    }
  }

  lemma {:induction false} ReachedFromGlobal(calls: seq<Call>, kind: Kind, m: Level)
    requires FirstLevel(None, calls, kind) == Some(Global) && m != Unknown
    ensures LastSet(None, calls, kind, m).Some?
    decreases |calls|
  {
    if calls != [] {
      if calls[0].kind == kind {
        LastSetSome(Some(calls[0].value), calls[1..], kind, m);
      } else {
        ReachedFromGlobal(calls[1..], kind, m);
      }
    }
  }

  /** When the first call of a kind is for Global, every level but Unknown is answered with the value of the last
      call for that level or for Global. */
  lemma GlobalFirstAnswersLast<T>(calls: seq<Call>, kind: Kind, typed: (Level, string) -> T, none: T, m: Level)
    requires FirstLevel(None, calls, kind) == Some(Global) && m != Unknown
    ensures LastSet(None, calls, kind, m).Some?
    ensures Answer(calls, kind, typed, none, m) == typed(m, LastSet(None, calls, kind, m).value)
  {
    AnswersLastIff(calls, kind, typed, none);
    ReachedFromGlobal(calls, kind, Global);
    ReachedFromGlobal(calls, kind, m);
  }

  predicate Untouched(calls: seq<Call>, kind: Kind, m: Level) {
    forall j | 0 <= j < |calls| :: !Touches(calls[j], kind, m)
  }

  lemma {:induction false} NotSet(found: Option<string>, calls: seq<Call>, kind: Kind, m: Level)
    requires Untouched(calls, kind, m)
    ensures LastSet(found, calls, kind, m) == found
    decreases |calls|
  {
    if calls != [] {
      assert !Touches(calls[0], kind, m);
      NotSet(found, calls[1..], kind, m);
    }
  }

  /** A call that reaches a level, with none after it that does, gives the level its value. */
  lemma {:induction false} LastSetIs(found: Option<string>, calls: seq<Call>, kind: Kind, m: Level, i: nat)
    requires i < |calls| && Touches(calls[i], kind, m) && Untouched(calls[i + 1..], kind, m)
    ensures LastSet(found, calls, kind, m) == Some(calls[i].value)
    decreases i
  {
    if i == 0 {
      NotSet(Some(calls[0].value), calls[1..], kind, m);
    } else {
      assert calls[1..][i..] == calls[i + 1..];
      LastSetIs(if Touches(calls[0], kind, m) then Some(calls[0].value) else found, calls[1..], kind, m, i - 1);
    }
  }

  /** Without a first call for Global the first value can be lost: a, then b for Global, then a again. */
  lemma FirstValueLost<T>(kind: Kind, a: string, b: string, typed: (Level, string) -> T, none: T)
    requires typed(Global, b) != typed(Info, a)
    ensures var calls := [Call(Info, kind, a), Call(Global, kind, b), Call(Info, kind, a)];
            LastSet(None, calls, kind, Info) == Some(a) && !AnswersLast(calls, kind, typed, none)
  {
    var calls := [Call(Info, kind, a), Call(Global, kind, b), Call(Info, kind, a)];
    LastSetIs(None, calls, kind, Info, 2);
    LastSetIs(None, calls, kind, Global, 1);
    assert FirstLevel(None, calls, kind) == FirstLevel(Some(Info), calls[1..], kind);
    AnswersLastIff(calls, kind, typed, none);
  }

  /** A call for Global does not reach Unknown: a value set there stays. */
  lemma UnknownKeepsItsValue<T>(kind: Kind, x: string, a: string, b: string, typed: (Level, string) -> T, none: T)
    ensures var calls := [Call(Global, kind, x), Call(Unknown, kind, a), Call(Global, kind, b)];
            Answer(calls, kind, typed, none, Unknown) == typed(Unknown, a)
  {
    var calls := [Call(Global, kind, x), Call(Unknown, kind, a), Call(Global, kind, b)];
    LastSetIs(None, calls, kind, Unknown, 1);
    LastSetIs(None, calls, kind, Global, 2);
    assert FirstLevel(None, calls, kind) == FirstLevel(Some(Global), calls[1..], kind);
    AnswersLastIff(calls, kind, typed, none);
  }

  // ----- the loop

  /** build, for the map of one kind. */
  method BuildMap<T(==)>(list: seq<Entry>, kind: Kind, typed: (Level, string) -> T) returns (m: map<Level, T>)
    ensures m == Build(map[], Rows(list, kind), typed)
  {
    m := map[];
    var i := 0;
    assert list[0..] == list;
    while i < |list|
      invariant 0 <= i <= |list|
      invariant Build(m, Rows(list[i..], kind), typed) == Build(map[], Rows(list, kind), typed)
    {
      var e := list[i];
      assert list[i..] == [e] + list[i + 1..];
      RowsOfCons(e, list[i + 1..], kind);
      if e.kind == kind {
        ghost var rest := Rows(list[i + 1..], kind);
        assert ([Row(e.level, e.value)] + rest)[1..] == rest;
        m := SetValue(m, e.level, typed(e.level, e.value));
      }
      i := i + 1;
    }
    assert list[i..] == [];
  }
}
