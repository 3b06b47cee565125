/** What a reader of name/value replies makes of a request body: the arguments come back. */
module SoapRoundTrip {
  import opened Text
  import opened Seqs
  import opened MiniXml
  import opened XmlTree
  import XmlRoundTrip
  import opened NameValues
  import opened ReplyRoundTrip
  import opened Soap

  function Quoted(name: string, value: string): Att {
    Att(" ", name, "", "", '\"', value)
  }

  function EnvelopeOpen(): Tag {
    Tag("s", "Envelope", [Quoted("xmlns:s", "http://schemas.xmlsoap.org/soap/envelope/"),
                          Quoted("s:encodingStyle", "http://schemas.xmlsoap.org/soap/encoding/")], "")
  }

  function BodyOpen(): Tag {
    Tag("s", "Body", [], "")
  }

  function ActionOpen(action: string, service: string): Tag {
    Tag("u", action, [Quoted("xmlns:u", service)], "")
  }

  function ArgTree(a: Arg): Xml {
    Leaf(Tag("", a.elt, [], ""), a.val)
  }

  function ArgForest(args: seq<Arg>): Forest {
    if args == [] then Nil else Element(ArgTree(args[0]), "", ArgForest(args[1..]))
  }

  /** The request body as a tree. */
  function EnvelopeTree(action: string, service: string, args: seq<Arg>): Document {
    var call := Branch(ActionOpen(action, service), "", ArgForest(args));
    var body := Branch(BodyOpen(), "", Element(call, "", Nil));
    Document("",
      Instruction("xml version=\"1.0\"?>", "\r\n",
        Element(Branch(EnvelopeOpen(), "", Element(body, "", Nil)), "\r\n", Nil)))
  }

  predicate ValidArg(a: Arg) {
    PlainName(a.elt) && Lacks(a.val, '<')
  }

  // ----- the tree prints as the envelope

  lemma {:induction false} ArgsPrint(args: seq<Arg>)
    ensures PrintForest(ArgForest(args)) == ArgsText(args)
  {
    if args != [] {
      ArgsPrint(args[1..]);
      var a := args[0];
      assert Open(Tag("", a.elt, [], "")) == "<" + a.elt;
      assert Print(ArgTree(a)) == (("<" + a.elt) + (">" + a.val)) + ("</" + (a.elt + ">"));
      assert Print(ArgTree(a)) == ArgText(a);
    }
  }

  lemma QuotedPrint(name: string, value: string, rest: string)
    ensures PrintAtts([Quoted(name, value)], rest) == " " + (name + ("=\"" + (value + ("\"" + rest))))
  {
    var a := Quoted(name, value);
    assert PrintAtts([a][1..], rest) == rest;
    assert Bare(a) == name + ("=\"" + (value + "\""));
  }

  lemma ActionPrint(action: string, service: string)
    ensures Open(ActionOpen(action, service)) + ">" == ActionTag(action, service)
  {
    QuotedPrint("xmlns:u", service, "");
    ActionGroup(action, service, "xmlns:u");
  }

  lemma ActionGroup(action: string, service: string, ns: string)
    requires ns == "xmlns:u"
    ensures ("<" + (("u" + ":" + action) + (" " + (ns + ("=\"" + (service + ("\"" + ""))))))) + ">" ==
            ActionTag(action, service)
  {
    assert " " + (ns + "=\"") == " xmlns:u=\"";
    assert "<" + ("u" + ":" + action) == "<u:" + action;
    ActionAssoc(action, service, ns, "<u:", " xmlns:u=\"");
  }

  lemma ActionAssoc(action: string, service: string, ns: string, a: string, b: string)
    requires " " + (ns + "=\"") == b && "<" + ("u" + ":" + action) == a + action
    ensures ("<" + (("u" + ":" + action) + (" " + (ns + ("=\"" + (service + ("\"" + ""))))))) + ">" ==
            a + (action + (b + (service + "\">")))
  {
    var x, t := "u" + ":" + action, " " + (ns + ("=\"" + (service + ("\"" + ""))));
    assert t + ">" == b + (service + "\">");
    assert ("<" + (x + t)) + ">" == ("<" + x) + (t + ">");
  }

  lemma EnvelopePrint()
    ensures Open(EnvelopeOpen()) + ">" == EnvelopeTag()
  {
    NsHead("xmlns:s");
    StyleHead("s:encodingStyle");
    AttsPrint("xmlns:s", ENVELOPE_NS, "s:encodingStyle", ENCODING_NS, " xmlns:s=\"", "\" s:encodingStyle=\"",
              EnvelopeOpen().atts);
    var atts := " xmlns:s=\"" + (ENVELOPE_NS + ("\" s:encodingStyle=\"" + (ENCODING_NS + "\"")));
    assert QName(EnvelopeOpen()) == "s:Envelope";
    assert Open(EnvelopeOpen()) == "<" + ("s:Envelope" + atts);
    Grouped(ENVELOPE_NS, ENCODING_NS);
  }

  lemma Grouped(x: string, y: string)
    ensures ("<" + ("s:Envelope" + (" xmlns:s=\"" + (x + ("\" s:encodingStyle=\"" + (y + "\"")))))) + ">" ==
            "<s:Envelope xmlns:s=\"" + (x + ("\" s:encodingStyle=\"" + (y + "\">")))
  {
    assert ("<" + "s:Envelope") + " xmlns:s=\"" == "<s:Envelope xmlns:s=\"";
  }

  lemma TwoQuoted(m: string, x: string, n: string, y: string, atts: seq<Att>)
    requires atts == [Quoted(m, x), Quoted(n, y)]
    ensures PrintAtts(atts, "") == " " + (m + ("=\"" + (x + ("\"" + (" " + (n + ("=\"" + (y + ("\"" + "")))))))))
  {
    var rest := " " + (n + ("=\"" + (y + ("\"" + ""))));
    assert atts[1..] == [Quoted(n, y)];
    QuotedPrint(n, y, "");
    assert Bare(atts[0]) == m + ("=\"" + (x + "\""));
    assert PrintAtts(atts, "") == " " + (Bare(atts[0]) + rest);
  }

  lemma AttsGrouped(m: string, x: string, n: string, y: string, a: string, b: string)
    requires " " + (m + "=\"") == a && "\"" + (" " + (n + "=\"")) == b
    ensures " " + (m + ("=\"" + (x + ("\"" + (" " + (n + ("=\"" + (y + ("\"" + ""))))))))) ==
            a + (x + (b + (y + "\"")))
  {
    var t := "\"" + (" " + (n + ("=\"" + (y + ("\"" + "")))));
    assert t == b + (y + "\"");
  }

  lemma NsHead(m: string)
    requires m == "xmlns:s"
    ensures " " + (m + "=\"") == " xmlns:s=\""
  {
  }

  lemma StyleHead(n: string)
    requires n == "s:encodingStyle"
    ensures "\"" + (" " + (n + "=\"")) == "\" s:encodingStyle=\""
  {
  }

  lemma AttsPrint(m: string, x: string, n: string, y: string, a: string, b: string, atts: seq<Att>)
    requires atts == [Quoted(m, x), Quoted(n, y)]
    requires " " + (m + "=\"") == a && "\"" + (" " + (n + "=\"")) == b
    ensures PrintAtts(atts, "") == a + (x + (b + (y + "\"")))
  {
    TwoQuoted(m, x, n, y, atts);
    AttsGrouped(m, x, n, y, a, b);
  }

  // An element whose only content is x, whatever its start tag.
  lemma OnlyChildPrint(t: Tag, open: string, x: Xml)
    requires Open(t) + ">" == open
    ensures Print(Branch(t, "", Element(x, "", Nil))) == open + (Print(x) + Close(t))
  {
    assert PrintForest(Element(x, "", Nil)) == Print(x);
    assert Open(t) + (">" + "") == open;
  }

  lemma CallPrint(action: string, service: string, args: seq<Arg>)
    ensures Print(Branch(ActionOpen(action, service), "", ArgForest(args))) ==
            ActionTag(action, service) + (ArgsText(args) + Close(ActionOpen(action, service)))
  {
    ActionPrint(action, service);
    ArgsPrint(args);
    assert Open(ActionOpen(action, service)) + (">" + "") == Open(ActionOpen(action, service)) + ">";
  }

  lemma ClosePrint(action: string, service: string)
    ensures ((Close(ActionOpen(action, service)) + Close(BodyOpen())) + Close(EnvelopeOpen())) + "\r\n" == Tail(action)
  {
    CloseBody();
    CloseEnvelope();
    CloseAction(action, service);
    EndLiteral();
    EndGroup(END_ACTION, action, ">", "</s:Body>", "</s:Envelope>", "\r\n");
  }

  lemma CloseBody()
    ensures Close(BodyOpen()) == "</s:Body>"
  {
  }

  lemma CloseEnvelope()
    ensures Close(EnvelopeOpen()) == "</s:Envelope>"
  {
    assert QName(EnvelopeOpen()) == "s:Envelope";
  }

  lemma CloseAction(action: string, service: string)
    ensures Close(ActionOpen(action, service)) == END_ACTION + (action + ">")
  {
    assert "</" + (("u" + ":") + action + ">") == (("</" + "u") + ":") + (action + ">");
  }

  lemma EndLiteral()
    ensures ((">" + "</s:Body>") + "</s:Envelope>") + "\r\n" == END_ENVELOPE
  {
  }

  lemma EndGroup(a: string, x: string, g: string, y: string, z: string, n: string)
    ensures (((a + (x + g)) + y) + z) + n == a + (x + (((g + y) + z) + n))
  {
  }

  lemma InstructionPrint(body: string, x: Xml)
    ensures PrintDocument(Document("", Instruction(body, "\r\n", Element(x, "\r\n", Nil)))) ==
            (("<?" + body) + "\r\n") + (Print(x) + "\r\n")
  {
    var f := Element(x, "\r\n", Nil);
    assert PrintForest(f) == Print(x) + "\r\n";
    Assoc("<?" + body, "\r\n", PrintForest(f));
  }

  lemma PrologIs(body: string)
    requires body == "xml version=\"1.0\"?>"
    ensures ("<?" + body) + "\r\n" == PROLOG
  {
  }

  lemma PrologPrint(x: Xml)
    ensures PrintDocument(Document("", Instruction("xml version=\"1.0\"?>", "\r\n", Element(x, "\r\n", Nil)))) ==
            PROLOG + (Print(x) + "\r\n")
  {
    var body := "xml version=\"1.0\"?>";
    PrologIs(body);
    InstructionPrint(body, x);
  }

  lemma Nested(a: string, b: string, c: string, d: string, x: string, y: string, z: string, tail: string)
    requires ((x + y) + z) + "\r\n" == tail
    ensures (a + ((b + ((c + (d + x)) + y)) + z)) + "\r\n" == (a + (b + c)) + (d + tail)
  {
  }

  lemma EnvelopeIsTree(action: string, service: string, args: seq<Arg>)
    ensures PrintDocument(EnvelopeTree(action, service, args)) == Envelope(action, service, args)
  {
    var call := Branch(ActionOpen(action, service), "", ArgForest(args));
    var body := Branch(BodyOpen(), "", Element(call, "", Nil));
    var envelope := Branch(EnvelopeOpen(), "", Element(body, "", Nil));
    CallPrint(action, service, args);
    assert Open(BodyOpen()) + ">" == "<s:Body>";
    OnlyChildPrint(BodyOpen(), "<s:Body>", call);
    EnvelopePrint();
    OnlyChildPrint(EnvelopeOpen(), EnvelopeTag(), body);
    PrologPrint(envelope);
    ClosePrint(action, service);
    Joined(EnvelopeTag(), "<s:Body>", ActionTag(action, service), ArgsText(args), Close(ActionOpen(action, service)),
           Close(BodyOpen()), Close(EnvelopeOpen()), Tail(action), PROLOG);
  }

  lemma Joined(a: string, b: string, c: string, d: string, x: string, y: string, z: string, tail: string, p: string)
    requires ((x + y) + z) + "\r\n" == tail
    ensures p + ((a + ((b + ((c + (d + x)) + y)) + z)) + "\r\n") == (p + (a + (b + c))) + (d + tail)
  {
    Nested(a, b, c, d, x, y, z, tail);
    Assoc(p, a + (b + c), d + tail);
  }

  // ----- reading the envelope

  // The arguments as texts of a reply, and the elements around them.
  function ArgItems(args: seq<Arg>): seq<Item> {
    if args == [] then [] else [Plain(Tag("", args[0].elt, [], ""), args[0].val, "")] + ArgItems(args[1..])
  }

  function EnvelopeLayers(action: string, service: string): seq<Layer> {
    [Layer(EnvelopeOpen(), "", "\r\n"), Layer(BodyOpen(), "", ""), Layer(ActionOpen(action, service), "", "")]
  }

  lemma {:induction false} ArgsAreItems(args: seq<Arg>)
    requires forall k | 0 <= k < |args| :: ValidArg(args[k])
    ensures ItemForest(ArgItems(args)) == ArgForest(args) && |ArgItems(args)| == |args|
    ensures forall k | 0 <= k < |args| :: ValidItem(ArgItems(args)[k])
  {
    if args != [] {
      assert ValidArg(args[0]);
      ArgsAreItems(args[1..]);
      var items := ArgItems(args);
      assert items[1..] == ArgItems(args[1..]);
      assert forall k | 0 < k < |args| :: items[k] == ArgItems(args[1..])[k - 1];
    }
  }

  lemma EnvelopeIsWrapped(action: string, service: string, args: seq<Arg>)
    requires forall k | 0 <= k < |args| :: ValidArg(args[k])
    ensures ForestCallbacks(EnvelopeTree(action, service, args).content) ==
            ForestCallbacks(Wrap(EnvelopeLayers(action, service), ItemForest(ArgItems(args))))
  {
    ArgsAreItems(args);
    ThreeLayers(EnvelopeOpen(), BodyOpen(), ActionOpen(action, service), "\r\n", ArgForest(args));
  }

  lemma ThreeLayers(e: Tag, b: Tag, u: Tag, after: string, inner: Forest)
    ensures Wrap([Layer(e, "", after), Layer(b, "", ""), Layer(u, "", "")], inner) ==
            Element(Branch(e, "", Element(Branch(b, "", Element(Branch(u, "", inner), "", Nil)), "", Nil)), after, Nil)
  {
    var x, y, z := Layer(e, "", after), Layer(b, "", ""), Layer(u, "", "");
    assert [x, y, z][1..] == [y, z] && [y, z][1..] == [z] && [z][1..] == [];
    assert Wrap([z], inner) == Element(Branch(u, "", inner), "", Nil);
    assert Wrap([y, z], inner) == Element(Branch(b, "", Wrap([z], inner)), "", Nil);
  }

  lemma {:induction false} ArgsValid(args: seq<Arg>)
    requires forall k | 0 <= k < |args| :: ValidArg(args[k])
    ensures ValidForest(ArgForest(args))
  {
    if args != [] {
      assert ValidArg(args[0]);
      ArgsValid(args[1..]);
    }
  }

  lemma OnlyChildValid(t: Tag, x: Xml, after: string)
    requires ValidTag(t) && Valid(x) && Lacks(after, '<')
    ensures Valid(Branch(t, "", Element(x, "", Nil))) && ValidForest(Element(x, after, Nil))
  {
    assert ValidForest(Element(x, "", Nil));
  }

  lemma EnvelopeValid(action: string, service: string, args: seq<Arg>)
    requires PlainName(action) && Lacks(service, '\"') && args != [] && forall k | 0 <= k < |args| :: ValidArg(args[k])
    ensures ValidDocument(EnvelopeTree(action, service, args))
  {
    ArgsValid(args);
    var call := Branch(ActionOpen(action, service), "", ArgForest(args));
    ActionValid(action, service);
    EnvelopeOpenValid();
    OnlyChildValid(BodyOpen(), call, "");
    var body := Branch(BodyOpen(), "", Element(call, "", Nil));
    OnlyChildValid(EnvelopeOpen(), body, "");
    OnlyChildValid(EnvelopeOpen(), Branch(EnvelopeOpen(), "", Element(body, "", Nil)), "\r\n");
  }

  lemma ActionValid(action: string, service: string)
    requires PlainName(action) && Lacks(service, '\"')
    ensures ValidTag(ActionOpen(action, service))
  {
  }

  lemma EnvelopeOpenValid()
    ensures ValidTag(EnvelopeOpen())
  {
    NamespaceValid(ENVELOPE_NS);
    EncodingValid(ENCODING_NS);
    assert forall k | 0 <= k < 2 ::
           EnvelopeOpen().atts[k] == if k == 0 then Quoted("xmlns:s", ENVELOPE_NS)
             else Quoted("s:encodingStyle", ENCODING_NS);
  }

  lemma NamespaceValid(ns: string)
    requires ns == ENVELOPE_NS
    ensures ValidAtt(Quoted("xmlns:s", ns))
  {
    assert Lacks(ns, '\"');
  }

  lemma EncodingValid(ns: string)
    requires ns == ENCODING_NS
    ensures ValidAtt(Quoted("s:encodingStyle", ns))
  {
    assert Lacks(ns, '\"');
  }

  /** For every non-empty argument list of plain names and '<'-free values: reading the written body as a name/value
      reply yields the arguments, last one first, with names cut to 63 bytes and values to 127, and an argument
      NewPortListing as the port listing; whatever the parser data held before and whatever follows the body in
      memory. */
  lemma ArgumentsComeBack(action: string, service: string, args: seq<Arg>, mem: string, st: State)
    requires PlainName(action) && Lacks(service, '\"') && args != [] && forall k | 0 <= k < |args| :: ValidArg(args[k])
    requires Envelope(action, service, args) <= mem
    ensures var r := HandleAll(Reset(st), Parsed(mem, |Envelope(action, service, args)|));
            r.list == Entries(ArgItems(args)) && r.portListing == Listed(ArgItems(args), None)
  {
    EnvelopeIsTree(action, service, args);
    EnvelopeValid(action, service, args);
    EnvelopeIsWrapped(action, service, args);
    ArgsAreItems(args);
    ReplyRead(EnvelopeTree(action, service, args), EnvelopeLayers(action, service), ArgItems(args), mem, st);
  }
}
