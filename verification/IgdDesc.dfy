/** Device descriptions: the callbacks of igd_desc_parse.c, and what they find in a description. */
module IgdDesc {
  import opened Text
  import opened Seqs
  import opened MiniXml
  import opened XmlTree
  import XmlRoundTrip

  /** struct IGDdatas_service */
  datatype Service = Service(controlurl: string, eventsuburl: string, scpdurl: string, servicetype: string)

  const NO_SERVICE: Service := Service("", "", "", "")

  /** struct IGDdatas; each char array is the C string it holds. */
  datatype Data = Data(cureltname: string, urlbase: string, presentationurl: string, level: int,
                       cif: Service, first: Service, second: Service, ipv6fc: Service, tmp: Service)

  const ZERO: Data := Data("", "", "", 0, NO_SERVICE, NO_SERVICE, NO_SERVICE, NO_SERVICE, NO_SERVICE)

  datatype Kind = CommonInterface | FirewallControl | Connection | Other

  // COMPARE looks at the beginning of the service type only, whatever version number follows.
  function KindOf(servicetype: string): Kind {
    if "urn:schemas-upnp-org:service:WANCommonInterfaceConfig:" <= servicetype then CommonInterface
    else if "urn:schemas-upnp-org:service:WANIPv6FirewallControl:" <= servicetype then FirewallControl
    else if "urn:schemas-upnp-org:service:WANIPConnection:" <= servicetype
         || "urn:schemas-upnp-org:service:WANPPPConnection:" <= servicetype then Connection
    else Other
  }

  const SERVICE: string := "service"

  /** IGDstartelt */
  function AtStart(d: Data, name: string): Data {
    d.(cureltname := Clip(name, 127), level := d.level + 1, tmp := if name == SERVICE then NO_SERVICE else d.tmp)
  }

  // What the end of a service element does with the service just read.
  function Absorb(d: Data, k: Kind): Data {
    match k
    case CommonInterface => d.(cif := d.tmp)
    case FirewallControl => d.(ipv6fc := d.tmp)
    case Connection => if d.first.servicetype == "" then d.(first := d.tmp) else d.(second := d.tmp)
    case Other => d
  }

  /** IGDendelt */
  function AtEnd(d: Data, name: string): Data {
    var d' := d.(level := d.level - 1);
    if name == SERVICE then Absorb(d', KindOf(d.tmp.servicetype)) else d'
  }

  /** IGDdata */
  function AtData(d: Data, text: string): Data {
    var t := Clip(text, 127);
    if d.cureltname == "URLBase" then d.(urlbase := t)
    else if d.cureltname == "presentationURL" then d.(presentationurl := t)
    else if d.cureltname == "serviceType" then d.(tmp := d.tmp.(servicetype := t))
    else if d.cureltname == "controlURL" then d.(tmp := d.tmp.(controlurl := t))
    else if d.cureltname == "eventSubURL" then d.(tmp := d.tmp.(eventsuburl := t))
    else if d.cureltname == "SCPDURL" then d.(tmp := d.tmp.(scpdurl := t))
    else d
  }

  function Handle(d: Data, c: Callback): Data {
    match c
    case OnStart(name) => AtStart(d, name)
    case OnAtt(_, _) => d
    case OnData(text) => AtData(d, text)
    case OnEnd(name) => AtEnd(d, name)
  }

  function HandleAll(d: Data, cs: seq<Callback>): Data {
    Fold(Handle, d, cs)
  }

  // ----- what a description says

  /** The text of the last leaf of that name, as far as it fits its field; leaves without text do not count. */
  function LastText(x: Xml, name: string, otherwise: string): string {
    match x
    case Leaf(t, text) => if t.name == name && text != "" then Clip(text, 127) else otherwise
    case CData(t, _, text, _) => if t.name == name && text != "" then Clip(text, 127) else otherwise
    case Empty(_) => otherwise
    case Branch(_, _, kids) => LastTextIn(kids, name, otherwise)
  }

  function LastTextIn(f: Forest, name: string, otherwise: string): string {
    match f
    case Nil => otherwise
    case Element(x, _, rest) => LastTextIn(rest, name, LastText(x, name, otherwise))
    case Comment(_, _, rest) => LastTextIn(rest, name, otherwise)
    case Instruction(_, _, rest) => LastTextIn(rest, name, otherwise)
  }

  // The service an element describes, over what is already known of it.
  function Describes(x: Xml, s: Service): Service {
    Service(LastText(x, "controlURL", s.controlurl), LastText(x, "eventSubURL", s.eventsuburl),
            LastText(x, "SCPDURL", s.scpdurl), LastText(x, "serviceType", s.servicetype))
  }

  function DescribesIn(f: Forest, s: Service): Service {
    Service(LastTextIn(f, "controlURL", s.controlurl), LastTextIn(f, "eventSubURL", s.eventsuburl),
            LastTextIn(f, "SCPDURL", s.scpdurl), LastTextIn(f, "serviceType", s.servicetype))
  }

  predicate IsService(x: Xml) {
    !x.Empty? && x.tag.prefix == "" && x.tag.name == "service"
  }

  /** The services of a description in document order, each with its own texts. */
  function Services(x: Xml): seq<Service> {
    if IsService(x) then [Describes(x, NO_SERVICE)]
    else if x.Branch? then ServicesIn(x.kids)
    else []
  }

  function ServicesIn(f: Forest): seq<Service> {
    match f
    case Nil => []
    case Element(x, _, rest) => Services(x) + ServicesIn(rest)
    case Comment(_, _, rest) => ServicesIn(rest)
    case Instruction(_, _, rest) => ServicesIn(rest)
  }

  // No element named service, with whatever prefix.
  predicate NoService(x: Xml) {
    x.tag.name != "service" && (x.Branch? ==> NoServiceIn(x.kids))
  }

  predicate NoServiceIn(f: Forest) {
    match f
    case Nil => true
    case Element(x, _, rest) => NoService(x) && NoServiceIn(rest)
    case Comment(_, _, rest) => NoServiceIn(rest)
    case Instruction(_, _, rest) => NoServiceIn(rest)
  }

  /** Services are not nested in one another. */
  predicate Flat(x: Xml) {
    x.Branch? ==> if IsService(x) then NoServiceIn(x.kids) else FlatIn(x.kids)
  }

  predicate FlatIn(f: Forest) {
    match f
    case Nil => true
    case Element(x, _, rest) => Flat(x) && FlatIn(rest)
    case Comment(_, _, rest) => FlatIn(rest)
    case Instruction(_, _, rest) => FlatIn(rest)
  }

  // How many empty-element tags there are.
  function Empties(x: Xml): nat {
    match x
    case Leaf(_, _) => 0
    case CData(_, _, _, _) => 0
    case Empty(_) => 1
    case Branch(_, _, kids) => EmptiesIn(kids)
  }

  function EmptiesIn(f: Forest): nat {
    match f
    case Nil => 0
    case Element(x, _, rest) => Empties(x) + EmptiesIn(rest)
    case Comment(_, _, rest) => EmptiesIn(rest)
    case Instruction(_, _, rest) => EmptiesIn(rest)
  }

  // The services picked up from a list of services, in its order.
  function AbsorbAll(d: Data, ss: seq<Service>): Data
    decreases |ss|
  {
    if ss == [] then d else AbsorbAll(Absorb(d.(tmp := ss[0]), KindOf(ss[0].servicetype)), ss[1..])
  }

  // The four results agree.
  predicate SameResults(d: Data, e: Data) {
    d.cif == e.cif && d.first == e.first && d.second == e.second && d.ipv6fc == e.ipv6fc
  }

  // ----- what the callbacks make of it

  // The start of a service clears what is known of a service.
  function Cleared(t: Tag, s: Service): Service {
    if t.name == "service" then NO_SERVICE else s
  }

  /** What is known of a service behind an element, s being known before it. */
  function Kept(x: Xml, s: Service): Service {
    match x
    case Leaf(t, _) => Describes(x, Cleared(t, s))
    case CData(t, _, _, _) => Describes(x, Cleared(t, s))
    case Empty(t) => Cleared(t, s)
    case Branch(t, _, kids) => KeptIn(kids, Cleared(t, s))
  }

  function KeptIn(f: Forest, s: Service): Service {
    match f
    case Nil => s
    case Element(x, _, rest) => KeptIn(rest, Kept(x, s))
    case Comment(_, _, rest) => KeptIn(rest, s)
    case Instruction(_, _, rest) => KeptIn(rest, s)
  }

  /** The services found in an element, in the order in which they end, each with the texts since a service last
      started. */
  function Seen(x: Xml, s: Service): seq<Service> {
    (if x.Branch? then SeenIn(x.kids, Cleared(x.tag, s)) else []) + if IsService(x) then [Kept(x, s)] else []
  }

  function SeenIn(f: Forest, s: Service): seq<Service> {
    match f
    case Nil => []
    case Element(x, _, rest) => Seen(x, s) + SeenIn(rest, Kept(x, s))
    case Comment(_, _, rest) => SeenIn(rest, s)
    case Instruction(_, _, rest) => SeenIn(rest, s)
  }

  lemma ClipName(name: string, k: string)
    requires PlainName(name) && |k| < 127
    ensures Clip(name, 127) == k <==> name == k
  {
    if |name| > 127 {
      var s := name[..127];
      assert NulFree(s);
      assert Clip(s, 127) == s;
    }
  }

  lemma Wrapped(d: Data, start: seq<Callback>, inner: seq<Callback>, name: string)
    ensures HandleAll(d, start + (inner + [OnEnd(name)])) == AtEnd(HandleAll(HandleAll(d, start), inner), name)
  {
    FoldConcat(Handle, d, start, inner + [OnEnd(name)]);
    FoldConcat(Handle, HandleAll(d, start), inner, [OnEnd(name)]);
  }

  lemma {:induction false} AttsHandled(atts: seq<XmlTree.Att>, d: Data)
    ensures HandleAll(d, AttCallbacks(atts)) == d
  {
    if atts != [] {
      AttsHandled(atts[1..], d);
    }
  }

  lemma TagHandled(t: Tag, d: Data)
    ensures HandleAll(d, TagCallbacks(t)) == AtStart(d, t.name)
  {
    FoldConcat(Handle, d, [OnStart(t.name)], AttCallbacks(t.atts));
    assert HandleAll(d, [OnStart(t.name)]) == AtStart(d, t.name);
    AttsHandled(t.atts, AtStart(d, t.name));
  }

  // Level and the two document-wide texts, after an element or a run of elements.
  predicate TextsRead(d: Data, d': Data, x: Xml) {
    && d'.level == d.level + Empties(x)
    && d'.urlbase == LastText(x, "URLBase", d.urlbase)
    && d'.presentationurl == LastText(x, "presentationURL", d.presentationurl)
  }

  predicate TextsReadIn(d: Data, d': Data, f: Forest) {
    && d'.level == d.level + EmptiesIn(f)
    && d'.urlbase == LastTextIn(f, "URLBase", d.urlbase)
    && d'.presentationurl == LastTextIn(f, "presentationURL", d.presentationurl)
  }

  // What reading an element, or a run of elements, comes to.
  predicate ReadOk(d: Data, d': Data, x: Xml) {
    d'.tmp == Kept(x, d.tmp) && SameResults(d', AbsorbAll(d, Seen(x, d.tmp))) && TextsRead(d, d', x)
  }

  predicate ReadAllOk(d: Data, d': Data, f: Forest) {
    d'.tmp == KeptIn(f, d.tmp) && SameResults(d', AbsorbAll(d, SeenIn(f, d.tmp))) && TextsReadIn(d, d', f)
  }

  // The data of a leaf goes to the field its name stands for.
  lemma LeafData(d: Data, t: Tag, text: string)
    requires PlainName(t.name)
    ensures var d' := HandleAll(AtStart(d, t.name), DataCallbacks(text));
            && d'.tmp == Describes(Leaf(t, text), Cleared(t, d.tmp)) && SameResults(d', d) && d'.level == d.level + 1
            && d'.urlbase == LastText(Leaf(t, text), "URLBase", d.urlbase)
            && d'.presentationurl == LastText(Leaf(t, text), "presentationURL", d.presentationurl)
  {
    ClipName(t.name, "URLBase");
    ClipName(t.name, "presentationURL");
    ClipName(t.name, "serviceType");
    ClipName(t.name, "controlURL");
    ClipName(t.name, "eventSubURL");
    ClipName(t.name, "SCPDURL");
  }

  lemma QNameService(t: Tag)
    requires ValidTag(t)
    ensures QName(t) == SERVICE <==> t.prefix == "" && t.name == SERVICE
  {
    if t.prefix != "" {
      assert QName(t)[|t.prefix|] == ':';
      assert Lacks(SERVICE, ':');
    }
  }

  lemma {:induction false} AbsorbSame(d: Data, e: Data, ss: seq<Service>)
    requires SameResults(d, e)
    ensures SameResults(AbsorbAll(d, ss), AbsorbAll(e, ss))
    decreases |ss|
  {
    if ss != [] {
      var k := KindOf(ss[0].servicetype);
      AbsorbSame(Absorb(d.(tmp := ss[0]), k), Absorb(e.(tmp := ss[0]), k), ss[1..]);
    }
  }

  lemma {:induction false} AbsorbConcat(d: Data, xs: seq<Service>, ys: seq<Service>)
    ensures AbsorbAll(d, xs + ys) == AbsorbAll(AbsorbAll(d, xs), ys)
    decreases |xs|
  {
    if xs == [] {
      assert xs + ys == ys;
    } else {
      assert (xs + ys)[1..] == xs[1..] + ys;
      AbsorbConcat(Absorb(d.(tmp := xs[0]), KindOf(xs[0].servicetype)), xs[1..], ys);
    }
  }

  // The end of an element, d being before it and d' behind its content.
  lemma ElementEnds(d: Data, d': Data, name: string, ss: seq<Service>)
    requires SameResults(d', AbsorbAll(d, ss))
    ensures var e := AtEnd(d', name); e.tmp == d'.tmp && e.level == d'.level - 1
    ensures var e := AtEnd(d', name); e.urlbase == d'.urlbase && e.presentationurl == d'.presentationurl
    ensures SameResults(AtEnd(d', name), AbsorbAll(d, ss + if name == SERVICE then [d'.tmp] else []))
  {
    if name == SERVICE {
      var s := d'.tmp;
      AbsorbConcat(d, ss, [s]);
      var a := AbsorbAll(d, ss);
      assert AbsorbAll(a, [s]) == Absorb(a.(tmp := s), KindOf(s.servicetype));
    } else {
      assert ss + [] == ss;
    }
  }

  lemma LeafRead(d: Data, x: Xml)
    requires x.Leaf? && ValidTag(x.tag)
    ensures ReadOk(d, HandleAll(d, Callbacks(x)), x)
  {
    var t := x.tag;
    TagHandled(t, d);
    LeafData(d, t, x.text);
    QNameService(t);
    Wrapped(d, TagCallbacks(t), DataCallbacks(x.text), QName(t));
    ElementEnds(d, HandleAll(AtStart(d, t.name), DataCallbacks(x.text)), QName(t), []);
    assert [] + Seen(x, d.tmp) == Seen(x, d.tmp);
  }

  // A leaf, as plain text or as CDATA, makes the same callbacks.
  lemma CDataIsLeaf(d: Data, d': Data, x: Xml)
    requires x.CData?
    ensures Callbacks(x) == Callbacks(Leaf(x.tag, x.text))
    ensures ReadOk(d, d', x) <==> ReadOk(d, d', Leaf(x.tag, x.text))
  {
    var y := Leaf(x.tag, x.text);
    assert Describes(x, Cleared(x.tag, d.tmp)) == Describes(y, Cleared(x.tag, d.tmp));
    assert Seen(x, d.tmp) == Seen(y, d.tmp);
  }

  // An empty-element tag only raises the level, and clears a service in the making if it is itself one.
  lemma EmptyRead(d: Data, t: Tag)
    ensures ReadOk(d, HandleAll(d, Callbacks(Empty(t))), Empty(t))
  {
    TagHandled(t, d);
    assert Seen(Empty(t), d.tmp) == [];
  }

  lemma BranchRead(d: Data, x: Xml)
    requires Valid(x) && x.Branch?
    requires ReadAllOk(AtStart(d, x.tag.name), HandleAll(AtStart(d, x.tag.name), ForestCallbacks(x.kids)), x.kids)
    ensures ReadOk(d, HandleAll(d, Callbacks(x)), x)
  {
    var t, d1 := x.tag, AtStart(d, x.tag.name);
    var d2, ss := HandleAll(d1, ForestCallbacks(x.kids)), SeenIn(x.kids, Cleared(t, d.tmp));
    TagHandled(t, d);
    Wrapped(d, TagCallbacks(t), ForestCallbacks(x.kids), QName(t));
    QNameService(t);
    AbsorbSame(d1, d, ss);
    ElementEnds(d, d2, QName(t), ss);
  }

  lemma {:induction false} Reads(d: Data, x: Xml)
    requires Valid(x)
    ensures ReadOk(d, HandleAll(d, Callbacks(x)), x)
    decreases x
  {
    match x
    case Leaf(t, text) => LeafRead(d, x);
    case CData(t, _, text, _) =>
      LeafRead(d, Leaf(t, text));
      CDataIsLeaf(d, HandleAll(d, Callbacks(x)), x);
    case Empty(t) => EmptyRead(d, t);
    case Branch(t, _, kids) =>
      ReadsAll(AtStart(d, t.name), kids);
      BranchRead(d, x);
  }

  lemma {:induction false} ReadsAll(d: Data, f: Forest)
    requires ValidForest(f)
    ensures ReadAllOk(d, HandleAll(d, ForestCallbacks(f)), f)
    decreases f
  {
    match f
    case Nil =>
    case Element(x, _, rest) =>
      var d1 := HandleAll(d, Callbacks(x));
      Reads(d, x);
      FoldConcat(Handle, d, Callbacks(x), ForestCallbacks(rest));
      ReadsAll(d1, rest);
      ElementThenRest(d, d1, HandleAll(d1, ForestCallbacks(rest)), x, rest);
    case Comment(_, _, rest) => ReadsAll(d, rest);
    case Instruction(_, _, rest) => ReadsAll(d, rest);
  }

  lemma ElementThenRest(d: Data, d1: Data, d2: Data, x: Xml, rest: Forest)
    requires ReadOk(d, d1, x) && ReadAllOk(d1, d2, rest)
    ensures SameResults(d2, AbsorbAll(d, Seen(x, d.tmp) + SeenIn(rest, Kept(x, d.tmp))))
  {
    var xs, ys := Seen(x, d.tmp), SeenIn(rest, d1.tmp);
    AbsorbConcat(d, xs, ys);
    AbsorbSame(d1, AbsorbAll(d, xs), ys);
  }

  // ----- services that are not nested

  lemma {:induction false} NoServiceSeen(x: Xml, s: Service)
    requires NoService(x)
    ensures Seen(x, s) == [] && Kept(x, s) == Describes(x, s)
    decreases x
  {
    if x.Branch? { NoneSeenIn(x.kids, s); }
  }

  lemma {:induction false} NoneSeenIn(f: Forest, s: Service)
    requires NoServiceIn(f)
    ensures SeenIn(f, s) == [] && KeptIn(f, s) == DescribesIn(f, s)
    decreases f
  {
    match f
    case Nil =>
    case Element(x, _, rest) =>
      NoServiceSeen(x, s);
      NoneSeenIn(rest, Kept(x, s));
    case Comment(_, _, rest) => NoneSeenIn(rest, s);
    case Instruction(_, _, rest) => NoneSeenIn(rest, s);
  }

  lemma {:induction false} FlatSeen(x: Xml, s: Service)
    requires Flat(x)
    ensures Seen(x, s) == Services(x)
    decreases x
  {
    if x.Branch? {
      if IsService(x) { NoneSeenIn(x.kids, NO_SERVICE); } else { FlatSeenIn(x.kids, Cleared(x.tag, s)); }
    }
  }

  lemma {:induction false} FlatSeenIn(f: Forest, s: Service)
    requires FlatIn(f)
    ensures SeenIn(f, s) == ServicesIn(f)
    decreases f
  {
    match f
    case Nil =>
    case Element(x, _, rest) =>
      FlatSeen(x, s);
      FlatSeenIn(rest, Kept(x, s));
    case Comment(_, _, rest) => FlatSeenIn(rest, s);
    case Instruction(_, _, rest) => FlatSeenIn(rest, s);
  }

  // ----- which services are kept

  function OfKind(ss: seq<Service>, k: Kind): seq<Service> {
    if ss == [] then []
    else (if KindOf(ss[0].servicetype) == k then [ss[0]] else []) + OfKind(ss[1..], k)
  }

  function LastOr(ss: seq<Service>, s: Service): Service {
    if ss == [] then s else ss[|ss| - 1]
  }

  lemma ConnectionNamed(s: Service)
    requires KindOf(s.servicetype) == Connection
    ensures s.servicetype != ""
  {
  }

  lemma LastOrStep(ss: seq<Service>, x: Service, s: Service)
    ensures LastOr([x] + ss, s) == LastOr(ss, x)
  {
  }

  lemma {:induction false} LastInterface(d: Data, ss: seq<Service>)
    ensures AbsorbAll(d, ss).cif == LastOr(OfKind(ss, CommonInterface), d.cif)
    decreases |ss|
  {
    if ss != [] {
      LastInterface(Absorb(d.(tmp := ss[0]), KindOf(ss[0].servicetype)), ss[1..]);
      OfKindStep(ss, CommonInterface, d.cif);
    }
  }

  lemma {:induction false} LastFirewall(d: Data, ss: seq<Service>)
    ensures AbsorbAll(d, ss).ipv6fc == LastOr(OfKind(ss, FirewallControl), d.ipv6fc)
    decreases |ss|
  {
    if ss != [] {
      LastFirewall(Absorb(d.(tmp := ss[0]), KindOf(ss[0].servicetype)), ss[1..]);
      OfKindStep(ss, FirewallControl, d.ipv6fc);
    }
  }

  lemma OfKindStep(ss: seq<Service>, k: Kind, s: Service)
    requires ss != []
    ensures LastOr(OfKind(ss, k), s) == LastOr(OfKind(ss[1..], k), if KindOf(ss[0].servicetype) == k then ss[0] else s)
  {
    LastOrStep(OfKind(ss[1..], k), ss[0], s);
    assert [] + OfKind(ss[1..], k) == OfKind(ss[1..], k);
  }

  lemma {:induction false} LaterConnections(d: Data, ss: seq<Service>)
    requires d.first.servicetype != ""
    ensures AbsorbAll(d, ss).first == d.first
    ensures AbsorbAll(d, ss).second == LastOr(OfKind(ss, Connection), d.second)
    decreases |ss|
  {
    if ss != [] {
      LaterConnections(Absorb(d.(tmp := ss[0]), KindOf(ss[0].servicetype)), ss[1..]);
      OfKindStep(ss, Connection, d.second);
    }
  }

  lemma {:induction false} FirstConnection(d: Data, ss: seq<Service>)
    requires d.first == NO_SERVICE
    ensures var cs := OfKind(ss, Connection);
            && AbsorbAll(d, ss).first == (if cs == [] then NO_SERVICE else cs[0])
            && AbsorbAll(d, ss).second == (if cs == [] then d.second else LastOr(cs[1..], d.second))
    decreases |ss|
  {
    if ss != [] {
      var k := KindOf(ss[0].servicetype);
      var d1 := Absorb(d.(tmp := ss[0]), k);
      if k == Connection {
        ConnectionNamed(ss[0]);
        LaterConnections(d1, ss[1..]);
        assert ([ss[0]] + OfKind(ss[1..], Connection))[1..] == OfKind(ss[1..], Connection);
      } else {
        FirstConnection(d1, ss[1..]);
        assert [] + OfKind(ss[1..], Connection) == OfKind(ss[1..], Connection);
      }
    }
  }

  // What the parser ends with, ss being the services and content the description.
  predicate Holds(d: Data, ss: seq<Service>, content: Forest) {
    var cs := OfKind(ss, Connection);
    && d.first == (if cs == [] then NO_SERVICE else cs[0])
    && d.second == (if cs == [] then NO_SERVICE else LastOr(cs[1..], NO_SERVICE))
    && d.cif == LastOr(OfKind(ss, CommonInterface), NO_SERVICE)
    && d.ipv6fc == LastOr(OfKind(ss, FirewallControl), NO_SERVICE)
    && d.urlbase == LastTextIn(content, "URLBase", "")
    && d.presentationurl == LastTextIn(content, "presentationURL", "")
    && d.level == EmptiesIn(content)
  }

  /** For every description, parsed into zeroed data, with the services as they are seen: `first` is the first
      WANIPConnection or WANPPPConnection service, `second` the last later one, CIF and IPv6FC the last of their
      kinds; and the level comes back to the number of empty-element tags. */
  lemma DescriptionSeen(doc: Document, mem: string)
    requires ValidDocument(doc) && PrintDocument(doc) <= mem
    ensures Holds(HandleAll(ZERO, Parsed(mem, |PrintDocument(doc)|)), SeenIn(doc.content, NO_SERVICE), doc.content)
  {
    var ss := SeenIn(doc.content, NO_SERVICE);
    XmlRoundTrip.PrintThenParse(doc, mem, |PrintDocument(doc)|);
    ReadsAll(ZERO, doc.content);
    LastInterface(ZERO, ss);
    LastFirewall(ZERO, ss);
    FirstConnection(ZERO, ss);
  }

  /** When services are not nested, these are the services of the description, each with its own texts. */
  lemma DescriptionRead(doc: Document, mem: string)
    requires ValidDocument(doc) && FlatIn(doc.content) && PrintDocument(doc) <= mem
    ensures Holds(HandleAll(ZERO, Parsed(mem, |PrintDocument(doc)|)), ServicesIn(doc.content), doc.content)
  {
    DescriptionSeen(doc, mem);
    FlatSeenIn(doc.content, NO_SERVICE);
  }

  // ----- a nested service

  // A description with one service, of the given type and with what else is in it.
  function OneService(servicetype: string, more: Forest): Document {
    var kids := Element(Leaf(Tag("", "serviceType", [], ""), servicetype), "", more);
    Document("", Element(Branch(Tag("", "service", [], ""), "", kids), "", Nil))
  }

  lemma NamesPlain(name: string)
    requires name == SERVICE || name == "serviceType"
    ensures PlainName(name)
  {
  }

  lemma OneServiceValid(servicetype: string, more: Forest)
    requires Lacks(servicetype, '<') && ValidForest(more)
    ensures ValidDocument(OneService(servicetype, more))
  {
    NamesPlain(SERVICE);
    NamesPlain("serviceType");
    var text := Leaf(Tag("", "serviceType", [], ""), servicetype);
    assert Valid(text);
    var service := Branch(Tag("", SERVICE, [], ""), "", Element(text, "", more));
    assert ValidForest(service.kids);
    assert Valid(service);
  }

  // What is seen of it: the services in it, and the service itself with the texts known at its end.
  lemma OneServiceSeen(servicetype: string, more: Forest)
    ensures var known := if servicetype == "" then NO_SERVICE else NO_SERVICE.(servicetype := Clip(servicetype, 127));
            SeenIn(OneService(servicetype, more).content, NO_SERVICE) == SeenIn(more, known) + [KeptIn(more, known)]
  {
    var text := Leaf(Tag("", "serviceType", [], ""), servicetype);
    var known := Kept(text, NO_SERVICE);
    assert |text.tag.name| != |SERVICE|;
    assert Seen(text, NO_SERVICE) == [];
    var kids := Element(text, "", more);
    assert SeenIn(kids, NO_SERVICE) == [] + SeenIn(more, known) == SeenIn(more, known);
    assert KeptIn(kids, NO_SERVICE) == KeptIn(more, known);
    var service := Branch(Tag("", SERVICE, [], ""), "", kids);
    assert Seen(service, NO_SERVICE) == SeenIn(more, known) + [KeptIn(more, known)];
    assert SeenIn(Element(service, "", Nil), NO_SERVICE) == Seen(service, NO_SERVICE) + [] == Seen(service, NO_SERVICE);
  }

  // No type is given in it.
  predicate NoType(x: Xml) {
    match x
    case Leaf(t, text) => t.name == "serviceType" ==> text == ""
    case CData(t, _, text, _) => t.name == "serviceType" ==> text == ""
    case Empty(_) => true
    case Branch(_, _, kids) => NoTypeIn(kids)
  }

  predicate NoTypeIn(f: Forest) {
    match f
    case Nil => true
    case Element(x, _, rest) => NoType(x) && NoTypeIn(rest)
    case Comment(_, _, rest) => NoTypeIn(rest)
    case Instruction(_, _, rest) => NoTypeIn(rest)
  }

  predicate Untyped(ss: seq<Service>) {
    forall k | 0 <= k < |ss| :: ss[k].servicetype == ""
  }

  // A type known before is known behind such an element unless a service starts in it.
  lemma {:induction false} TypeKept(x: Xml, s: Service)
    requires NoType(x)
    ensures Kept(x, s).servicetype == (if NoService(x) then s.servicetype else "") && Untyped(Seen(x, s))
    decreases x
  {
    if x.Branch? { TypeKeptIn(x.kids, Cleared(x.tag, s)); }
  }

  lemma {:induction false} TypeKeptIn(f: Forest, s: Service)
    requires NoTypeIn(f)
    ensures KeptIn(f, s).servicetype == (if NoServiceIn(f) then s.servicetype else "") && Untyped(SeenIn(f, s))
    decreases f
  {
    match f
    case Nil =>
    case Element(x, _, rest) =>
      TypeKept(x, s);
      TypeKeptIn(rest, Kept(x, s));
    case Comment(_, _, rest) => TypeKeptIn(rest, s);
    case Instruction(_, _, rest) => TypeKeptIn(rest, s);
  }

  lemma {:induction false} LastOnly(ss: seq<Service>, s: Service, k: Kind)
    requires Untyped(ss) && k != Other
    ensures OfKind(ss + [s], k) == if KindOf(s.servicetype) == k then [s] else []
    decreases |ss|
  {
    if ss == [] {
      assert [] + [s] == [s];
    } else {
      assert (ss + [s])[1..] == ss[1..] + [s];
      assert ss[0].servicetype == "" && KindOf("") == Other;
      assert Untyped(ss[1..]);
      LastOnly(ss[1..], s, k);
    }
  }

  // What the parser finds in it.
  function Found(servicetype: string, more: Forest): Data {
    var s := PrintDocument(OneService(servicetype, more));
    HandleAll(ZERO, Parsed(s, |s|))
  }

  lemma FoundSeen(servicetype: string, more: Forest) returns (ss: seq<Service>, last: Service)
    requires Lacks(servicetype, '<') && ValidForest(more) && NoTypeIn(more) && Clip(servicetype, 127) != ""
    ensures Untyped(ss) && last.servicetype == (if NoServiceIn(more) then Clip(servicetype, 127) else "")
    ensures Holds(Found(servicetype, more), ss + [last], OneService(servicetype, more).content)
    ensures more == Nil ==> last == Service("", "", "", Clip(servicetype, 127))
  {
    var doc := OneService(servicetype, more);
    var known := NO_SERVICE.(servicetype := Clip(servicetype, 127));
    ss, last := SeenIn(more, known), KeptIn(more, known);
    OneServiceValid(servicetype, more);
    OneServiceSeen(servicetype, more);
    TypeKeptIn(more, known);
    DescriptionSeen(doc, PrintDocument(doc));
  }

  /** A connection service is found by its type exactly when no service starts between its type and its end, the type
      being given once. */
  lemma FoundIff(servicetype: string, more: Forest)
    requires Lacks(servicetype, '<') && ValidForest(more) && NoTypeIn(more) &&
             KindOf(Clip(servicetype, 127)) == Connection
    ensures Found(servicetype, more).first.servicetype == Clip(servicetype, 127) <==> NoServiceIn(more)
    ensures !NoServiceIn(more) ==> Found(servicetype, more).first == NO_SERVICE
  {
    assert KindOf("") == Other;
    var ss, last := FoundSeen(servicetype, more);
    LastOnly(ss, last, Connection);
  }

  lemma OneBeginning(s: string, a: string, b: string, k: nat)
    requires k < |a| && k < |b| && a[k] != b[k] && a <= s
    ensures !(b <= s)
  {
    assert s[k] == a[k];
  }

  /** The types of service, written out. */
  lemma KindsAre(s: string)
    ensures "urn:schemas-upnp-org:service:WANCommonInterfaceConfig:" <= s <==> KindOf(s) == CommonInterface
    ensures "urn:schemas-upnp-org:service:WANIPv6FirewallControl:" <= s <==> KindOf(s) == FirewallControl
    ensures KindOf(s) == Connection <==> "urn:schemas-upnp-org:service:WANIPConnection:" <= s
                                         || "urn:schemas-upnp-org:service:WANPPPConnection:" <= s
  {
    var a := "urn:schemas-upnp-org:service:WANCommonInterfaceConfig:";
    var b := "urn:schemas-upnp-org:service:WANIPv6FirewallControl:";
    var c := "urn:schemas-upnp-org:service:WANIPConnection:";
    var d := "urn:schemas-upnp-org:service:WANPPPConnection:";
    if b <= s {
      OneBeginning(s, b, a, 32);
      OneBeginning(s, b, c, 34);
      OneBeginning(s, b, d, 32);
    } else if c <= s {
      OneBeginning(s, c, a, 32);
    } else if d <= s {
      OneBeginning(s, d, a, 32);
    }
  }

  /** Where a service ends up, by its type, and that the others are empty. */
  lemma EndsUpIn(servicetype: string)
    requires Lacks(servicetype, '<') && Clip(servicetype, 127) != ""
    ensures var t, d := Clip(servicetype, 127), Found(servicetype, Nil);
            && d.cif == Service("", "", "", if KindOf(t) == CommonInterface then t else "")
            && d.ipv6fc == Service("", "", "", if KindOf(t) == FirewallControl then t else "")
            && d.first == Service("", "", "", if KindOf(t) == Connection then t else "")
            && d.second == Service("", "", "", "")
  {
    var ss, last := FoundSeen(servicetype, Nil);
    KindResults(Found(servicetype, Nil), ss, last, OneService(servicetype, Nil).content);
  }

  // The results when all services but the last have no type.
  lemma KindResults(d: Data, ss: seq<Service>, last: Service, content: Forest)
    requires Untyped(ss) && Holds(d, ss + [last], content)
    ensures d.cif == (if KindOf(last.servicetype) == CommonInterface then last else NO_SERVICE)
    ensures d.ipv6fc == (if KindOf(last.servicetype) == FirewallControl then last else NO_SERVICE)
    ensures d.first == (if KindOf(last.servicetype) == Connection then last else NO_SERVICE) && d.second == NO_SERVICE
  {
    LastOnly(ss, last, CommonInterface);
    LastOnly(ss, last, FirewallControl);
    LastOnly(ss, last, Connection);
  }

  /** A failing input: an empty service behind the type. */
  lemma NestedClears(servicetype: string)
    requires Lacks(servicetype, '<') && KindOf(Clip(servicetype, 127)) == Connection
    ensures Found(servicetype, Nil).first.servicetype == Clip(servicetype, 127)
    ensures Found(servicetype, Element(Leaf(Tag("", SERVICE, [], ""), ""), "", Nil)).first == NO_SERVICE
  {
    var inner := Leaf(Tag("", SERVICE, [], ""), "");
    NamesPlain(SERVICE);
    assert Valid(inner);
    var more := Element(inner, "", Nil);
    assert ValidForest(more) && NoTypeIn(more) && !NoServiceIn(more);
    FoundIff(servicetype, Nil);
    FoundIff(servicetype, more);
  }

  // ----- the callbacks as they update their data

  class IgdDatas {
    var cureltname: string
    var urlbase: string
    var presentationurl: string
    var level: int
    var cif: Service
    var first: Service
    var second: Service
    var ipv6fc: Service
    var tmp: Service

    function Value(): Data
      reads this
    {
      Data(cureltname, urlbase, presentationurl, level, cif, first, second, ipv6fc, tmp)
    }

    /** Zeroing the struct. */
    method Clear()
      modifies this
      ensures Value() == ZERO
    {
      cureltname, urlbase, presentationurl, level := "", "", "", 0;
      cif, first, second, ipv6fc, tmp := NO_SERVICE, NO_SERVICE, NO_SERVICE, NO_SERVICE, NO_SERVICE;
    }

    method Startelt(name: string)
      modifies this
      ensures Value() == AtStart(old(Value()), name)
    {
      cureltname := Clip(name, 127);
      level := level + 1;
      if name == SERVICE {
        tmp := NO_SERVICE;
      }
    }

    method Endelt(name: string)
      modifies this
      ensures Value() == AtEnd(old(Value()), name)
    {
      level := level - 1;
      if name == SERVICE {
        match KindOf(tmp.servicetype) {
          case CommonInterface => cif := tmp;
          case FirewallControl => ipv6fc := tmp;
          case Connection =>
            if first.servicetype == "" {
              first := tmp;
            } else {
              second := tmp;
            }
          case Other =>
        }
      }
    }

    method Chardata(text: string)
      modifies this
      ensures Value() == AtData(old(Value()), text)
    {
      var t := Clip(text, 127);
      if cureltname == "URLBase" {
        urlbase := t;
      } else if cureltname == "presentationURL" {
        presentationurl := t;
      } else if cureltname == "serviceType" {
        tmp := tmp.(servicetype := t);
      } else if cureltname == "controlURL" {
        tmp := tmp.(controlurl := t);
      } else if cureltname == "eventSubURL" {
        tmp := tmp.(eventsuburl := t);
      } else if cureltname == "SCPDURL" {
        tmp := tmp.(scpdurl := t);
      }
    }

    /** parserootdesc */
    method Parse(mem: string, size: nat)
      modifies this
      ensures Value() == HandleAll(old(Value()), Parsed(mem, size))
    {
      var events := ParseXml(mem, size);
      ghost var cs := Parsed(mem, size);
      var i := 0;
      while i < |events|
        invariant 0 <= i <= |events|
        invariant HandleAll(Value(), ReadAll(mem, events[i..])) == HandleAll(old(Value()), cs)
      {
        var c := Read(mem, events[i]);
        ghost var before := Value();
        match c {
          case OnStart(name) => Startelt(name);
          case OnAtt(_, _) =>
          case OnData(text) => Chardata(text);
          case OnEnd(name) => Endelt(name);
        }
        assert Value() == Handle(before, c);
        assert ReadAll(mem, events[i..])[1..] == ReadAll(mem, events[i + 1..]);
        i := i + 1;
      }
    }
  }
}
