/** Port mapping listings: the callbacks of portlistingparse.c and the round trip through the XML scanner. */
module PortListing {
  import opened Arith
  import opened Text
  import opened Seqs
  import opened MiniXml
  import opened XmlTree
  import XmlRoundTrip

  datatype Elt = EltNone | PortMappingEntry | NewRemoteHost | NewExternalPort | NewProtocol | NewInternalPort
               | NewInternalClient | NewEnabled | NewDescription | NewLeaseTime

  // The table of element names, in its order.
  function NameOf(e: Elt): string {
    match e
    case EltNone => ""
    case PortMappingEntry => "PortMappingEntry"
    case NewRemoteHost => "NewRemoteHost"
    case NewExternalPort => "NewExternalPort"
    case NewProtocol => "NewProtocol"
    case NewInternalPort => "NewInternalPort"
    case NewInternalClient => "NewInternalClient"
    case NewEnabled => "NewEnabled"
    case NewDescription => "NewDescription"
    case NewLeaseTime => "NewLeaseTime"
  }

  function Table(): seq<Elt> {
    [PortMappingEntry, NewRemoteHost, NewExternalPort, NewProtocol, NewInternalPort, NewInternalClient, NewEnabled,
     NewDescription, NewLeaseTime]
  }

  // memcmp finds no difference over the length of the name; the entry is followed by a NUL.
  predicate Matches(name: string, e: Elt) {
    name <= NameOf(e) + ['\0']
  }

  /** The loop of startelt: a name matches every entry it is a beginning of, and the first such entry is taken. */
  function Classify(name: string, table: seq<Elt>): Elt {
    if table == [] then EltNone
    else if Matches(name, table[0]) then table[0]
    else Classify(name, table[1..])
  }

  // UNSIGNED_INTEGER is unsigned long long under C99.
  const UINT: nat := 0x1_0000_0000_0000_0000

  function Atoui(s: string, r: nat): nat {
    if s == "" || !IsDigit(s[0]) then r else Atoui(s[1..], (r * 10 + DigitOf(s[0])) % UINT)
  }

  /** atoui */
  method ComputeAtoui(s: string) returns (r: nat)
    ensures r == Atoui(s, 0)
  {
    r := 0;
    var i := 0;
    while i < |s|
      invariant 0 <= i <= |s| && Atoui(s[i..], r) == Atoui(s, 0)
    {
      if IsDigit(s[i]) {
        r := (r * 10 + DigitOf(s[i])) % UINT;
      } else {
        break;
      }
      i := i + 1;
    }
  }

  // One more digit, before or after going round.
  lemma DigitWraps(r: nat, d: nat, n: nat)
    requires n > 0
    ensures (r % n * 10 + d) % n == (r * 10 + d) % n
  {
    var q, x := r / n, r % n * 10 + d;
    assert r == q * n + r % n && x == x / n * n + x % n;
    assert (10 * q + x / n) * n == 10 * (q * n) + x / n * n;
    Unique(r * 10 + d, 10 * q + x / n, x % n, n);
  }

  lemma {:induction false} AtouiOfNumber(s: string, r: nat)
    requires forall k | 0 <= k < |s| :: IsDigit(s[k])
    ensures Atoui(s, r % UINT) == Number(s, r) % UINT
    decreases |s|
  {
    if s != "" {
      var d := DigitOf(s[0]);
      DigitWraps(r, d, UINT);
      AtouiOfNumber(s[1..], r * 10 + d);
    }
  }

  /** A number in decimal digits comes back modulo 2^64. */
  lemma AtouiOfDecimal(n: nat)
    ensures Atoui(Decimal(n), 0) == n % 0x1_0000_0000_0000_0000
  {
    NumberOfDecimal(n);
    AtouiOfNumber(Decimal(n), 0);
  }

  datatype PortMapping = PortMapping(remoteHost: string, externalPort: nat, protocol: string, internalPort: nat,
                                     internalClient: string, enabled: nat, description: string, leaseTime: nat)

  const BLANK: PortMapping := PortMapping("", 0, "", 0, "", 0, "", 0)

  /** struct PortMappingParserData; `list` is the linked list from l_head on. */
  datatype State = State(list: seq<PortMapping>, curelt: Elt)

  // The switch of the data callback, on data already cut to 63 bytes.
  function SetField(m: PortMapping, e: Elt, text: string): PortMapping {
    match e
    case NewRemoteHost => m.(remoteHost := CString(text))
    case NewExternalPort => m.(externalPort := Atoui(text, 0) % 0x1_0000)
    case NewProtocol => m.(protocol := Clip(text, 3))
    case NewInternalPort => m.(internalPort := Atoui(text, 0) % 0x1_0000)
    case NewInternalClient => m.(internalClient := CString(text))
    case NewEnabled => m.(enabled := Atoui(text, 0) % 0x100)
    case NewDescription => m.(description := CString(text))
    case NewLeaseTime => m.(leaseTime := Atoui(text, 0))
    case _ => m
  }

  function Cut(text: string): string {
    if |text| > 63 then text[..63] else text
  }

  function AtStart(st: State, name: string): State {
    var e := Classify(name, Table());
    State(if e == PortMappingEntry then [BLANK] + st.list else st.list, e)
  }

  function AtData(st: State, text: string): State {
    if st.list == [] then st
    else st.(list := [SetField(st.list[0], st.curelt, Cut(text))] + st.list[1..])
  }

  function Handle(st: State, c: Callback): State {
    match c
    case OnStart(name) => AtStart(st, name)
    case OnAtt(_, _) => st
    case OnData(text) => AtData(st, text)
    case OnEnd(_) => st.(curelt := EltNone)
  }

  function HandleAll(st: State, cs: seq<Callback>): State {
    Fold(Handle, st, cs)
  }

  // ----- the callbacks as they update their data

  class ParserData {
    var list: seq<PortMapping>
    var curelt: Elt

    function Value(): State
      reads this
    {
      State(list, curelt)
    }

    method Startelt(name: string)
      modifies this
      ensures Value() == AtStart(old(Value()), name)
    {
      curelt := EltNone;
      var elements := Table();
      var i := 0;
      while i < |elements|
        invariant 0 <= i <= |elements| && curelt == EltNone && list == old(list)
        invariant Classify(name, elements[i..]) == Classify(name, elements)
      {
        if Matches(name, elements[i]) {
          curelt := elements[i];
          break;
        }
        i := i + 1;
      }
      if curelt == PortMappingEntry {
        list := [BLANK] + list;
      }
    }

    method Endelt()
      modifies this
      ensures Value() == old(Value()).(curelt := EltNone)
    {
      curelt := EltNone;
    }

    method Data(data: string)
      modifies this
      ensures Value() == AtData(old(Value()), data)
    {
      if list == [] { return; }
      var d := Cut(data);
      var pm := list[0];
      match curelt {
        case NewRemoteHost => pm := pm.(remoteHost := CString(d));
        case NewExternalPort => var n := ComputeAtoui(d); pm := pm.(externalPort := n % 0x1_0000);
        case NewProtocol => pm := pm.(protocol := Clip(d, 3));
        case NewInternalPort => var n := ComputeAtoui(d); pm := pm.(internalPort := n % 0x1_0000);
        case NewInternalClient => pm := pm.(internalClient := CString(d));
        case NewEnabled => var n := ComputeAtoui(d); pm := pm.(enabled := n % 0x100);
        case NewDescription => pm := pm.(description := CString(d));
        case NewLeaseTime => var n := ComputeAtoui(d); pm := pm.(leaseTime := n);
        case _ =>
      }
      list := [pm] + list[1..];
    }

    /** ParsePortListing */
    method Parse(mem: string, size: nat)
      modifies this
      ensures Value() == HandleAll(State([], EltNone), Parsed(mem, size))
    {
      list, curelt := [], EltNone;
      var events := ParseXml(mem, size);
      ghost var cs := Parsed(mem, size);
      var i := 0;
      while i < |events|
        invariant 0 <= i <= |events|
        invariant HandleAll(Value(), ReadAll(mem, events[i..])) == HandleAll(State([], EltNone), cs)
      {
        var c := Read(mem, events[i]);
        ghost var before := Value();
        match c {
          case OnStart(name) => Startelt(name);
          case OnAtt(_, _) =>
          case OnData(text) => Data(text);
          case OnEnd(_) => Endelt();
        }
        assert Value() == Handle(before, c);
        assert ReadAll(mem, events[i..])[1..] == ReadAll(mem, events[i + 1..]);
        i := i + 1;
      }
    }
  }

  // ----- printing a listing and reading it back

  // Every element carries the prefix, and `pad` stands between elements.
  datatype Style = Style(prefix: string, pad: string)

  predicate ValidStyle(s: Style) {
    (s.prefix == "" || PlainName(s.prefix)) && Lacks(s.pad, '<')
  }

  predicate PlainText(s: string) {
    NulFree(s) && Lacks(s, '<')
  }

  predicate ValidMapping(m: PortMapping) {
    && PlainText(m.remoteHost) && PlainText(m.internalClient) && PlainText(m.description) && PlainText(m.protocol)
    && m.externalPort < 0x1_0000_0000_0000_0000 && m.internalPort < 0x1_0000_0000_0000_0000
    && m.enabled < 0x1_0000_0000_0000_0000 && m.leaseTime < 0x1_0000_0000_0000_0000
  }

  function Short(s: string, n: nat): string {
    if |s| <= n then s else s[..n]
  }

  /** What the fields of struct PortMapping can hold of it. */
  function Stored(m: PortMapping): PortMapping {
    PortMapping(Short(m.remoteHost, 63), m.externalPort % 65536, Short(m.protocol, 3), m.internalPort % 65536,
                Short(m.internalClient, 63), m.enabled % 256, Short(m.description, 63), m.leaseTime)
  }

  function StoredAll(ms: seq<PortMapping>): seq<PortMapping> {
    if ms == [] then [] else [Stored(ms[0])] + StoredAll(ms[1..])
  }

  function FieldTree(style: Style, e: Elt, text: string): Xml {
    Leaf(Tag(style.prefix, NameOf(e), [], ""), text)
  }

  predicate IsField(e: Elt) {
    e != EltNone && e != PortMappingEntry
  }

  function FieldElts(): seq<Elt> {
    [NewRemoteHost, NewExternalPort, NewProtocol, NewInternalPort, NewInternalClient, NewEnabled, NewDescription,
      NewLeaseTime]
  }

  function FieldText(m: PortMapping, e: Elt): string {
    match e
    case NewRemoteHost => m.remoteHost
    case NewExternalPort => Decimal(m.externalPort)
    case NewProtocol => m.protocol
    case NewInternalPort => Decimal(m.internalPort)
    case NewInternalClient => m.internalClient
    case NewEnabled => Decimal(m.enabled)
    case NewDescription => m.description
    case NewLeaseTime => Decimal(m.leaseTime)
    case _ => ""
  }

  function FieldForest(style: Style, m: PortMapping, es: seq<Elt>): Forest {
    if es == [] then Nil
    else Element(FieldTree(style, es[0], FieldText(m, es[0])), style.pad, FieldForest(style, m, es[1..]))
  }

  function EntryTree(style: Style, m: PortMapping): Xml {
    Branch(Tag(style.prefix, NameOf(PortMappingEntry), [], ""), style.pad, FieldForest(style, m, FieldElts()))
  }

  function EntryForest(style: Style, ms: seq<PortMapping>): Forest {
    if ms == [] then Nil else Element(EntryTree(style, ms[0]), style.pad, EntryForest(style, ms[1..]))
  }

  // The elements of an entry.
  function Fields(m: PortMapping): seq<(string, string)> {
    [("NewRemoteHost", m.remoteHost), ("NewExternalPort", Decimal(m.externalPort)), ("NewProtocol", m.protocol),
     ("NewInternalPort", Decimal(m.internalPort)), ("NewInternalClient", m.internalClient),
     ("NewEnabled", Decimal(m.enabled)), ("NewDescription", m.description), ("NewLeaseTime", Decimal(m.leaseTime))]
  }

  function TextForest(style: Style, fields: seq<(string, string)>): Forest {
    if fields == [] then Nil
    else Element(Leaf(Tag(style.prefix, fields[0].0, [], ""), fields[0].1), style.pad, TextForest(style, fields[1..]))
  }

  function PrintedForest(style: Style, ms: seq<PortMapping>): Forest {
    if ms == [] then Nil
    else
      var entry := Branch(Tag(style.prefix, "PortMappingEntry", [], ""), style.pad, TextForest(style, Fields(ms[0])));
      Element(entry, style.pad, PrintedForest(style, ms[1..]))
  }

  function ListingTree(style: Style, root: Tag, ms: seq<PortMapping>): Xml {
    if ms == [] then Leaf(root, style.pad) else Branch(root, style.pad, PrintedForest(style, ms))
  }

  /** A PortMappingList document. */
  function Listing(style: Style, root: Tag, ms: seq<PortMapping>): Document {
    Document("", Instruction("xml version=\"1.0\"?>", style.pad, Element(ListingTree(style, root, ms), style.pad, Nil)))
  }

  // The names are those of the table.
  lemma {:induction false} FieldsPrinted(style: Style, m: PortMapping, es: seq<Elt>, fields: seq<(string, string)>)
    requires |es| == |fields| && forall k | 0 <= k < |es| :: fields[k] == (NameOf(es[k]), FieldText(m, es[k]))
    ensures TextForest(style, fields) == FieldForest(style, m, es)
    decreases |es|
  {
    if es != [] {
      assert forall k | 0 <= k < |es| - 1 :: es[1..][k] == es[k + 1] && fields[1..][k] == fields[k + 1];
      FieldsPrinted(style, m, es[1..], fields[1..]);
    }
  }

  lemma {:induction false} ForestPrinted(style: Style, ms: seq<PortMapping>)
    ensures PrintedForest(style, ms) == EntryForest(style, ms)
  {
    if ms != [] {
      FieldsPrinted(style, ms[0], FieldElts(), Fields(ms[0]));
      ForestPrinted(style, ms[1..]);
    }
  }

  // ----- validity

  lemma NameLetters(e: Elt)
    ensures forall k | 0 <= k < |NameOf(e)| :: 'A' <= NameOf(e)[k]
  {
  }

  lemma NamePlain(e: Elt)
    requires e != EltNone
    ensures PlainName(NameOf(e))
  {
    NameLetters(e);
    PlainFromLetters(NameOf(e));
  }

  lemma PlainFromLetters(s: string)
    requires s != "" && forall k | 0 <= k < |s| :: 'A' <= s[k]
    ensures PlainName(s)
  {
  }

  lemma NumberText(n: nat)
    requires n < UINT
    ensures NulFree(Decimal(n)) && Lacks(Decimal(n), '<') && |Decimal(n)| <= 20
  {
    assert Power10(2) == 100;
    assert Power10(4) == 10000;
    assert Power10(6) == 1000000;
    assert Power10(8) == 100000000;
    assert Power10(10) == 10000000000;
    assert Power10(12) == 1000000000000;
    assert Power10(14) == 100000000000000;
    assert Power10(16) == 10000000000000000;
    assert Power10(18) == 1000000000000000000;
    assert Power10(20) == 100000000000000000000;
    DecimalLength(n, 20, UINT);
  }

  lemma FieldTextPlain(m: PortMapping, e: Elt)
    requires ValidMapping(m) && IsField(e)
    ensures PlainText(FieldText(m, e))
  {
    match e
    case NewExternalPort => NumberText(m.externalPort);
    case NewInternalPort => NumberText(m.internalPort);
    case NewEnabled => NumberText(m.enabled);
    case NewLeaseTime => NumberText(m.leaseTime);
    case _ =>
  }

  lemma {:induction false} FieldsValid(style: Style, m: PortMapping, es: seq<Elt>)
    requires ValidStyle(style) && ValidMapping(m) && forall e | e in es :: IsField(e)
    ensures ValidForest(FieldForest(style, m, es))
  {
    if es != [] {
      assert es[0] in es;
      NamePlain(es[0]);
      FieldTextPlain(m, es[0]);
      FieldsValid(style, m, es[1..]);
    }
  }

  lemma {:induction false} EntriesValid(style: Style, ms: seq<PortMapping>)
    requires ValidStyle(style) && forall k | 0 <= k < |ms| :: ValidMapping(ms[k])
    ensures ValidForest(EntryForest(style, ms))
  {
    if ms != [] {
      assert ValidMapping(ms[0]);
      NamePlain(PortMappingEntry);
      FieldsValid(style, ms[0], FieldElts());
      assert Valid(EntryTree(style, ms[0]));
      EntriesValid(style, ms[1..]);
    }
  }

  // ----- folding the callbacks

  // The first byte at which two entries of the table differ.
  function Difference(e: Elt, f: Elt): nat {
    if e == PortMappingEntry || f == PortMappingEntry then 0
    else if (e == NewInternalPort && f == NewInternalClient) || (f == NewInternalPort && e == NewInternalClient) then 11
    else if (e == NewExternalPort && f == NewEnabled) || (f == NewExternalPort && e == NewEnabled) then 4
    else 3
  }

  lemma NamesApart(e: Elt, f: Elt)
    requires e != EltNone && f != EltNone && e != f
    ensures !Matches(NameOf(e), f)
  {
    var k := Difference(e, f);
    assert NameOf(e)[k] != NameOf(f)[k] == (NameOf(f) + ['\0'])[k];
  }

  lemma Beginning(s: string, t: string, u: string)
    requires s <= t && !(s <= u)
    ensures !(t <= u)
  {
  }

  lemma {:induction false} ClassifyFirst(name: string, e: Elt, table: seq<Elt>)
    requires e in table && NameOf(e) <= name && Matches(name, e) && EltNone !in table && e != EltNone
    ensures Classify(name, table) == e
  {
    if table[0] != e {
      NamesApart(e, table[0]);
      Beginning(NameOf(e), name, NameOf(table[0]) + ['\0']);
      ClassifyFirst(name, e, table[1..]);
    }
  }

  // The prefix match tells the entries of the table apart.
  lemma ClassifyName(e: Elt)
    requires e != EltNone
    ensures Classify(NameOf(e), Table()) == e
  {
    ClassifyFirst(NameOf(e), e, Table());
  }

  lemma FieldHandled(style: Style, st: State, e: Elt, text: string)
    requires IsField(e) && st.list != []
    ensures HandleAll(st, Callbacks(FieldTree(style, e, text))) ==
            State([if text == "" then st.list[0] else SetField(st.list[0], e, Cut(text))] + st.list[1..], EltNone)
  {
    var t := Tag(style.prefix, NameOf(e), [], "");
    var start, data, end := [OnStart(NameOf(e))], DataCallbacks(text), [OnEnd(QName(t))];
    assert TagCallbacks(t) == start;
    ClassifyName(e);
    FoldConcat(Handle, st, start, data + end);
    assert HandleAll(st, start) == st.(curelt := e);
    FoldConcat(Handle, st.(curelt := e), data, end);
  }

  // Each field puts its own member of the mapping in place.
  function Filled(acc: PortMapping, m: PortMapping, es: seq<Elt>): PortMapping
    decreases |es|
  {
    if es == [] then acc
    else
      var text := FieldText(m, es[0]);
      Filled(if text == "" then acc else SetField(acc, es[0], Cut(text)), m, es[1..])
  }

  lemma {:induction false} FieldsHandled(style: Style, st: State, m: PortMapping, es: seq<Elt>)
    requires st.list != [] && forall e | e in es :: IsField(e)
    ensures HandleAll(st, ForestCallbacks(FieldForest(style, m, es))).list == [Filled(st.list[0], m, es)] + st.list[1..]
    decreases |es|
  {
    if es != [] {
      var e := es[0];
      assert e in es;
      var text := FieldText(m, e);
      FieldHandled(style, st, e, text);
      FoldConcat(Handle, st, Callbacks(FieldTree(style, e, text)), ForestCallbacks(FieldForest(style, m, es[1..])));
      var st' := State([if text == "" then st.list[0] else SetField(st.list[0], e, Cut(text))] + st.list[1..], EltNone);
      assert st'.list[1..] == st.list[1..];
      FieldsHandled(style, st', m, es[1..]);
    }
  }

  // acc with the member of field e taken from m.
  function Put(acc: PortMapping, m: PortMapping, e: Elt): PortMapping {
    match e
    case NewRemoteHost => acc.(remoteHost := m.remoteHost)
    case NewExternalPort => acc.(externalPort := m.externalPort)
    case NewProtocol => acc.(protocol := m.protocol)
    case NewInternalPort => acc.(internalPort := m.internalPort)
    case NewInternalClient => acc.(internalClient := m.internalClient)
    case NewEnabled => acc.(enabled := m.enabled)
    case NewDescription => acc.(description := m.description)
    case NewLeaseTime => acc.(leaseTime := m.leaseTime)
    case _ => acc
  }

  lemma TextBack(s: string)
    requires NulFree(s)
    ensures CString(Cut(s)) == Short(s, 63) && Clip(Cut(s), 3) == Short(s, 3)
  {
    assert Clip(Cut(s), 63) == CString(Cut(s));
  }

  lemma NumberBack(n: nat)
    requires n < 0x1_0000_0000_0000_0000
    ensures Atoui(Cut(Decimal(n)), 0) == n
  {
    NumberText(n);
    AtouiOfDecimal(n);
  }

  lemma FieldBack(acc: PortMapping, m: PortMapping, e: Elt)
    requires ValidMapping(m) && IsField(e)
    ensures SetField(acc, e, Cut(FieldText(m, e))) == Put(acc, Stored(m), e)
  {
    match e
    case NewRemoteHost => TextBack(m.remoteHost);
    case NewExternalPort => NumberBack(m.externalPort);
    case NewProtocol => TextBack(m.protocol);
    case NewInternalPort => NumberBack(m.internalPort);
    case NewInternalClient => TextBack(m.internalClient);
    case NewEnabled => NumberBack(m.enabled);
    case NewDescription => TextBack(m.description);
    case NewLeaseTime => NumberBack(m.leaseTime);
  }

  // The member of field e is still as calloc left it.
  predicate BlankAt(acc: PortMapping, e: Elt) {
    match e
    case NewRemoteHost => acc.remoteHost == ""
    case NewProtocol => acc.protocol == ""
    case NewInternalClient => acc.internalClient == ""
    case NewDescription => acc.description == ""
    case _ => true
  }

  lemma FillStep(acc: PortMapping, m: PortMapping, e: Elt, es: seq<Elt>)
    requires ValidMapping(m) && IsField(e) && BlankAt(acc, e)
    ensures Filled(acc, m, [e] + es) == Filled(Put(acc, Stored(m), e), m, es)
  {
    FieldBack(acc, m, e);
    assert ([e] + es)[1..] == es;
    if FieldText(m, e) == "" {
      assert Put(acc, Stored(m), e) == acc;
    }
  }

  lemma FillTwo(acc: PortMapping, m: PortMapping, e: Elt, f: Elt, es: seq<Elt>)
    requires ValidMapping(m) && IsField(e) && IsField(f) && e != f && BlankAt(acc, e) && BlankAt(acc, f)
    ensures Filled(acc, m, [e, f] + es) == Filled(Put(Put(acc, Stored(m), e), Stored(m), f), m, es)
  {
    assert [e, f] + es == [e] + ([f] + es);
    FillStep(acc, m, e, [f] + es);
    FillStep(Put(acc, Stored(m), e), m, f, es);
  }

  // The first four fields of m, the others as calloc left them.
  function Half(m: PortMapping): PortMapping {
    PortMapping(m.remoteHost, m.externalPort, m.protocol, m.internalPort, "", 0, "", 0)
  }

  lemma FirstFour(m: PortMapping, es: seq<Elt>)
    requires ValidMapping(m)
    ensures Filled(BLANK, m, [NewRemoteHost, NewExternalPort] + ([NewProtocol, NewInternalPort] + es)) ==
            Filled(Half(Stored(m)), m, es)
  {
    var s := Stored(m);
    FillTwo(BLANK, m, NewRemoteHost, NewExternalPort, [NewProtocol, NewInternalPort] + es);
    FillTwo(PortMapping(s.remoteHost, s.externalPort, "", 0, "", 0, "", 0), m, NewProtocol, NewInternalPort, es);
  }

  lemma LastFour(m: PortMapping)
    requires ValidMapping(m)
    ensures Filled(Half(Stored(m)), m, [NewInternalClient, NewEnabled] + ([NewDescription, NewLeaseTime] + [])) ==
            Stored(m)
  {
    var s := Stored(m);
    var h := Half(s);
    FillTwo(h, m, NewInternalClient, NewEnabled, [NewDescription, NewLeaseTime] + []);
    FillTwo(h.(internalClient := s.internalClient, enabled := s.enabled), m, NewDescription, NewLeaseTime, []);
  }

  lemma AllFilled(m: PortMapping)
    requires ValidMapping(m)
    ensures Filled(BLANK, m, FieldElts()) == Stored(m)
  {
    var es := [NewInternalClient, NewEnabled] + ([NewDescription, NewLeaseTime] + []);
    assert FieldElts() == [NewRemoteHost, NewExternalPort] + ([NewProtocol, NewInternalPort] + es);
    FirstFour(m, es);
    LastFour(m);
  }

  lemma EntryStarted(st: State)
    ensures HandleAll(st, [OnStart(NameOf(PortMappingEntry))]) == State([BLANK] + st.list, PortMappingEntry)
  {
    ClassifyName(PortMappingEntry);
  }

  lemma EntryFields(style: Style, st: State, m: PortMapping)
    requires ValidMapping(m)
    ensures HandleAll(State([BLANK] + st.list, PortMappingEntry),
            ForestCallbacks(FieldForest(style, m, FieldElts()))).list == [Stored(m)] + st.list
  {
    var st' := State([BLANK] + st.list, PortMappingEntry);
    FieldsHandled(style, st', m, FieldElts());
    AllFilled(m);
    assert st'.list[1..] == st.list;
  }

  lemma EntryWrapped(st: State, inner: seq<Callback>, m: PortMapping, name: string)
    requires HandleAll(State([BLANK] + st.list, PortMappingEntry), inner).list == [m] + st.list
    ensures HandleAll(st, [OnStart(NameOf(PortMappingEntry))] + (inner + [OnEnd(name)])) ==
            State([m] + st.list, EltNone)
  {
    EntryStarted(st);
    Wrapped(st, [OnStart(NameOf(PortMappingEntry))], inner, name);
  }

  lemma EntryHandled(style: Style, st: State, m: PortMapping)
    requires ValidMapping(m)
    ensures HandleAll(st, Callbacks(EntryTree(style, m))) == State([Stored(m)] + st.list, EltNone)
  {
    var t := EntryTree(style, m).tag;
    assert TagCallbacks(t) == [OnStart(NameOf(PortMappingEntry))];
    EntryFields(style, st, m);
    EntryWrapped(st, ForestCallbacks(FieldForest(style, m, FieldElts())), Stored(m), QName(t));
  }

  lemma Wrapped(st: State, start: seq<Callback>, inner: seq<Callback>, name: string)
    ensures HandleAll(st, start + (inner + [OnEnd(name)])) == HandleAll(HandleAll(st, start), inner).(curelt := EltNone)
  {
    FoldConcat(Handle, st, start, inner + [OnEnd(name)]);
    FoldConcat(Handle, HandleAll(st, start), inner, [OnEnd(name)]);
  }

  lemma {:induction false} EntriesHandled(style: Style, st: State, ms: seq<PortMapping>)
    requires forall k | 0 <= k < |ms| :: ValidMapping(ms[k])
    ensures HandleAll(st, ForestCallbacks(EntryForest(style, ms))).list == Reversed(StoredAll(ms)) + st.list
    decreases |ms|
  {
    if ms != [] {
      assert ValidMapping(ms[0]);
      EntryHandled(style, st, ms[0]);
      FoldConcat(Handle, st, Callbacks(EntryTree(style, ms[0])), ForestCallbacks(EntryForest(style, ms[1..])));
      EntriesHandled(style, State([Stored(ms[0])] + st.list, EltNone), ms[1..]);
      assert StoredAll(ms)[1..] == StoredAll(ms[1..]);
      Assoc(Reversed(StoredAll(ms[1..])), [Stored(ms[0])], st.list);
    }
  }

  lemma {:induction false} AttsHandled(atts: seq<XmlTree.Att>, st: State)
    ensures HandleAll(st, AttCallbacks(atts)) == st
  {
    if atts != [] {
      AttsHandled(atts[1..], st);
    }
  }

  // A root element the table does not know adds nothing of its own.
  lemma RootHandled(root: Tag, st: State)
    requires Classify(root.name, Table()) == EltNone
    ensures HandleAll(st, TagCallbacks(root)) == st.(curelt := EltNone)
  {
    FoldConcat(Handle, st, [OnStart(root.name)], AttCallbacks(root.atts));
    assert HandleAll(st, [OnStart(root.name)]) == st.(curelt := EltNone);
    AttsHandled(root.atts, st.(curelt := EltNone));
  }

  /** For every list of mappings, every prefix and filler and every root element the table does not know: reading the
      printed listing gives the mappings, last one first, with every field as its width holds it, whatever follows the
      document in memory. */
  lemma ListingComesBack(style: Style, root: Tag, ms: seq<PortMapping>, mem: string)
    requires ValidStyle(style) && ValidTag(root) && Classify(root.name, Table()) == EltNone
    requires forall k | 0 <= k < |ms| :: ValidMapping(ms[k])
    requires PrintDocument(Listing(style, root, ms)) <= mem
    ensures HandleAll(State([], EltNone), Parsed(mem, |PrintDocument(Listing(style, root, ms))|)).list ==
            Reversed(StoredAll(ms))
  {
    var d := Listing(style, root, ms);
    ListingValid(style, root, ms);
    XmlRoundTrip.PrintThenParse(d, mem, |PrintDocument(d)|);
    ListingHandled(style, root, ms);
  }

  /** A mapping whose fields fit comes back as it was. */
  lemma StoredSame(m: PortMapping)
    ensures Stored(m) == m <==>
            && |m.remoteHost| <= 63 && |m.protocol| <= 3 && |m.internalClient| <= 63 && |m.description| <= 63
            && m.externalPort < 65536 && m.internalPort < 65536 && m.enabled < 256
  {
  }

  /** An entry without fields is a mapping of empty texts and zeros. */
  lemma EmptyEntry(st: State, end: string)
    ensures HandleAll(st, [OnStart("PortMappingEntry"), OnEnd(end)]).list ==
            [PortMapping("", 0, "", 0, "", 0, "", 0)] + st.list
  {
    ClassifyName(PortMappingEntry);
    var cs := [OnStart("PortMappingEntry"), OnEnd(end)];
    assert cs[1..] == [OnEnd(end)] && cs[1..][1..] == [];
    assert HandleAll(st, cs) == HandleAll(AtStart(st, "PortMappingEntry"), cs[1..]);
  }

  /** The names of the elements, written out. */
  lemma NamesAre()
    ensures Classify("PortMappingEntry", Table()) == PortMappingEntry
    ensures Classify("NewRemoteHost", Table()) == NewRemoteHost
    ensures Classify("NewExternalPort", Table()) == NewExternalPort
    ensures Classify("NewProtocol", Table()) == NewProtocol
    ensures Classify("NewInternalPort", Table()) == NewInternalPort
    ensures Classify("NewInternalClient", Table()) == NewInternalClient
    ensures Classify("NewEnabled", Table()) == NewEnabled
    ensures Classify("NewDescription", Table()) == NewDescription
    ensures Classify("NewLeaseTime", Table()) == NewLeaseTime
  {
    ClassifyName(PortMappingEntry);
    ClassifyName(NewRemoteHost);
    ClassifyName(NewExternalPort);
    ClassifyName(NewProtocol);
    ClassifyName(NewInternalPort);
    ClassifyName(NewInternalClient);
    ClassifyName(NewEnabled);
    ClassifyName(NewDescription);
    ClassifyName(NewLeaseTime);
  }

  lemma ListingValid(style: Style, root: Tag, ms: seq<PortMapping>)
    requires ValidStyle(style) && ValidTag(root) && forall k | 0 <= k < |ms| :: ValidMapping(ms[k])
    ensures ValidDocument(Listing(style, root, ms))
  {
    EntriesValid(style, ms);
    ForestPrinted(style, ms);
    var x := ListingTree(style, root, ms);
    assert Valid(x);
    assert ValidForest(Element(x, style.pad, Nil));
  }

  lemma ListingHandled(style: Style, root: Tag, ms: seq<PortMapping>)
    requires Classify(root.name, Table()) == EltNone && forall k | 0 <= k < |ms| :: ValidMapping(ms[k])
    ensures HandleAll(State([], EltNone), ForestCallbacks(Listing(style, root, ms).content)).list ==
            Reversed(StoredAll(ms))
  {
    var cs, inner := ListingCallbacks(style, root, ms);
    EntriesInner(style, ms);
    RootWrapped(root, inner, Reversed(StoredAll(ms)));
  }

  lemma ListingCallbacks(style: Style, root: Tag, ms: seq<PortMapping>)
    returns (cs: seq<Callback>, inner: seq<Callback>)
    ensures cs == ForestCallbacks(Listing(style, root, ms).content) ==
            TagCallbacks(root) + (inner + [OnEnd(QName(root))])
    ensures inner == if ms == [] then DataCallbacks(style.pad) else ForestCallbacks(EntryForest(style, ms))
  {
    var x := ListingTree(style, root, ms);
    OnlyElement(x, style.pad);
    ForestPrinted(style, ms);
    cs := Callbacks(x);
    inner := if ms == [] then DataCallbacks(style.pad) else ForestCallbacks(EntryForest(style, ms));
  }

  lemma OnlyElement(x: Xml, after: string)
    ensures ForestCallbacks(Instruction("xml version=\"1.0\"?>", after, Element(x, after, Nil))) == Callbacks(x)
  {
    assert ForestCallbacks(Nil) == [];
    assert ForestCallbacks(Element(x, after, Nil)) == Callbacks(x);
  }

  lemma EntriesInner(style: Style, ms: seq<PortMapping>)
    requires forall k | 0 <= k < |ms| :: ValidMapping(ms[k])
    ensures HandleAll(State([], EltNone),
            if ms == [] then DataCallbacks(style.pad) else ForestCallbacks(EntryForest(style, ms))).list ==
              Reversed(StoredAll(ms))
  {
    EntriesHandled(style, State([], EltNone), ms);
    assert Reversed(StoredAll(ms)) + [] == Reversed(StoredAll(ms));
  }

  lemma RootWrapped(root: Tag, inner: seq<Callback>, list: seq<PortMapping>)
    requires Classify(root.name, Table()) == EltNone && HandleAll(State([], EltNone), inner).list == list
    ensures HandleAll(State([], EltNone), TagCallbacks(root) + (inner + [OnEnd(QName(root))])).list == list
  {
    RootHandled(root, State([], EltNone));
    Wrapped(State([], EltNone), TagCallbacks(root), inner, QName(root));
  }

  lemma {:induction false} ClassifyNone(name: string, table: seq<Elt>)
    requires EltNone !in table
    ensures Classify(name, table) == EltNone <==> forall e | e in table :: !Matches(name, e)
  {
    if table != [] {
      ClassifyNone(name, table[1..]);
      assert forall e | e in table :: e == table[0] || e in table[1..];
    }
  }

  /** The match tells an unknown element from the known ones exactly when its name is neither the beginning of a
      known name nor a known name with a NUL byte behind it. */
  lemma UnknownIffNoPrefix(name: string)
    ensures Classify(name, Table()) == EltNone <==>
            forall e: Elt | e != EltNone :: !(name <= NameOf(e)) && name != NameOf(e) + ['\0']
  {
    forall e: Elt
      ensures Matches(name, e) <==> name <= NameOf(e) || name == NameOf(e) + ['\0']
    {
      PrefixOfOneMore(name, NameOf(e), '\0');
    }
    ClassifyNone(name, Table());
    assert forall e: Elt | e != EltNone :: e in Table();
  }

  lemma RootUnknown(name: string)
    requires name == "PortMappingList"
    ensures Classify(name, Table()) == EltNone && PlainName(name)
  {
    forall e | e in Table()
      ensures !Matches(name, e)
    {
      var k := if e == PortMappingEntry then 11 else 0;
      assert name[k] != NameOf(e)[k] == (NameOf(e) + ['\0'])[k];
    }
    ClassifyNone(name, Table());
  }

  /** The listing as the standard has it, with any prefix and any attributes on its root. */
  lemma PortMappingListComesBack(style: Style, root: Tag, ms: seq<PortMapping>, mem: string)
    requires ValidStyle(style) && ValidTag(root) && root.name == "PortMappingList"
    requires forall k | 0 <= k < |ms| :: ValidMapping(ms[k])
    requires PrintDocument(Listing(style, root, ms)) <= mem
    ensures HandleAll(State([], EltNone), Parsed(mem, |PrintDocument(Listing(style, root, ms))|)).list ==
            Reversed(StoredAll(ms))
  {
    RootUnknown(root.name);
    ListingComesBack(style, root, ms, mem);
  }

  lemma PrefixOfOneMore(s: string, t: string, c: char)
    ensures s <= t + [c] <==> s <= t || s == t + [c]
  {
  }

  /** An element called "New" is taken for a remote host. */
  lemma PrefixIsTakenForName()
    ensures Classify("New", Table()) == NewRemoteHost
  {
    assert "New"[0] != "PortMappingEntry"[0];
    assert "NewRemoteHost"[..3] == "New";
    assert Classify("New", Table()) == Classify("New", Table()[1..]);
  }

  /** A known name with a NUL byte behind it is taken for that name. */
  lemma NulIsTakenForEnd(e: Elt)
    requires e != EltNone
    ensures Classify(NameOf(e) + ['\0'], Table()) == e
  {
    ClassifyFirst(NameOf(e) + ['\0'], e, Table());
  }
}
