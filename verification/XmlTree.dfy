/** XML documents as trees, their printed form, and the callbacks a reader of the document expects. */
module XmlTree {
  import opened MiniXml

  // pad name gap1 = gap2 mark value mark, where the mark is a quote; or, without quotes, pad name gap1 = gap2 value
  // mark, where the mark is white space
  datatype Att = Att(pad: string, name: string, gap1: string, gap2: string, mark: char, value: string)

  datatype Tag = Tag(prefix: string, name: string, atts: seq<Att>, pad: string)

  datatype Xml =
    | Leaf(tag: Tag, text: string)                              // <t>text</t>
    | CData(tag: Tag, lead: string, text: string, tail: string) // <t> <![CDATA[text]]> </t>
    | Empty(tag: Tag)                                           // <t/>
    | Branch(tag: Tag, lead: string, kids: Forest)              // <t> markup </t>

  // A run of markup; every piece is followed by some text without '<'.
  datatype Forest =
    | Nil
    | Element(x: Xml, after: string, rest: Forest)
    | Comment(body: string, after: string, rest: Forest)
    | Instruction(body: string, after: string, rest: Forest)

  datatype Document = Document(lead: string, content: Forest)

  // ----- which trees are well formed

  // White space as section 2.3 of XML 1.0 has it.
  predicate IsBlank(c: char) {
    c in {' ', '\t', '\r', '\n'}
  }

  predicate AllWhite(s: string) {
    forall k | 0 <= k < |s| :: IsBlank(s[k])
  }

  predicate PlainChar(c: char) {
    !IsBlank(c) && c != '>' && c != '/' && c != '<' && c != ':' && c != '=' && c != '\0'
  }

  predicate PlainName(s: string) {
    s != "" && s[0] != '?' && s[0] != '!' && forall k | 0 <= k < |s| :: PlainChar(s[k])
  }

  predicate Lacks(s: string, c: char) {
    forall k | 0 <= k < |s| :: s[k] != c
  }

  predicate LacksSeq(s: string, t: string) {
    forall k: nat | k <= |s| :: !(t <= s[k..])
  }

  // A namespace declaration such as xmlns:s is an attribute name, so ':' is fine in one.
  predicate AttName(s: string) {
    s != "" && s[0] != '/' && s[0] != '>' && forall k | 0 <= k < |s| :: s[k] != '=' && !IsBlank(s[k])
  }

  predicate IsQuote(c: char) {
    c == '\'' || c == '\"'
  }

  // A value that can go without quotes.
  predicate PlainValue(s: string) {
    s != "" && !IsQuote(s[0]) && forall k | 0 <= k < |s| :: !IsBlank(s[k]) && s[k] != '>' && s[k] != '/'
  }

  predicate ValidAtt(a: Att) {
    && AllWhite(a.pad) && AttName(a.name) && AllWhite(a.gap1) && AllWhite(a.gap2)
    && if IsQuote(a.mark) then Lacks(a.value, a.mark) else IsBlank(a.mark) && PlainValue(a.value)
  }

  predicate ValidTag(t: Tag) {
    && (t.prefix == "" || PlainName(t.prefix)) && PlainName(t.name) && AllWhite(t.pad)
    && (t.atts != [] ==> t.atts[0].pad != "")
    && forall k | 0 <= k < |t.atts| :: ValidAtt(t.atts[k])
  }

  predicate Valid(x: Xml) {
    && ValidTag(x.tag)
    && match x
       case Leaf(_, text) => Lacks(text, '<')
       case CData(_, lead, text, tail) => AllWhite(lead) && LacksSeq(text, "]]>") && Lacks(tail, '<')
       case Empty(_) => true
       case Branch(_, lead, kids) => Lacks(lead, '<') && !kids.Nil? && ValidForest(kids)
  }

  predicate ValidForest(f: Forest) {
    match f
    case Nil => true
    case Element(x, after, rest) => Valid(x) && Lacks(after, '<') && ValidForest(rest)
    case Comment(body, after, rest) => LacksSeq(body, "-->") && Lacks(after, '<') && ValidForest(rest)
    case Instruction(body, after, rest) => Lacks(body, '<') && Lacks(after, '<') && ValidForest(rest)
  }

  predicate ValidDocument(d: Document) {
    Lacks(d.lead, '<') && ValidForest(d.content)
  }

  // ----- printing

  function QName(t: Tag): string {
    if t.prefix == "" then t.name else t.prefix + ":" + t.name
  }

  // An attribute up to its value.
  function Head(a: Att): string {
    a.name + (a.gap1 + ("=" + a.gap2))
  }

  function Value(a: Att): string {
    if IsQuote(a.mark) then [a.mark] + (a.value + [a.mark]) else a.value + [a.mark]
  }

  // An attribute without the white space before it.
  function Bare(a: Att): string {
    Head(a) + Value(a)
  }

  function PrintAtts(atts: seq<Att>, pad: string): string {
    if atts == [] then pad else atts[0].pad + (Bare(atts[0]) + PrintAtts(atts[1..], pad))
  }

  // A start tag without its closing '>' or '/>'.
  function Open(t: Tag): string {
    "<" + (QName(t) + PrintAtts(t.atts, t.pad))
  }

  function Close(t: Tag): string {
    "</" + (QName(t) + ">")
  }

  function PrintCData(lead: string, text: string, tail: string): string {
    lead + ("<![CDATA[" + (text + ("]]>" + tail)))
  }

  function Print(x: Xml): string {
    match x
    case Leaf(t, text) => (Open(t) + (">" + text)) + Close(t)
    case CData(t, lead, text, tail) => (Open(t) + (">" + PrintCData(lead, text, tail))) + Close(t)
    case Empty(t) => Open(t) + "/>"
    case Branch(t, lead, kids) => (Open(t) + (">" + lead)) + (PrintForest(kids) + Close(t))
  }

  function PrintForest(f: Forest): string {
    match f
    case Nil => ""
    case Element(x, after, rest) => Print(x) + (after + PrintForest(rest))
    case Comment(body, after, rest) => ("<!--" + (body + "-->")) + (after + PrintForest(rest))
    case Instruction(body, after, rest) => ("<?" + body) + (after + PrintForest(rest))
  }

  function PrintDocument(d: Document): string {
    d.lead + PrintForest(d.content)
  }

  // ----- the callbacks of a document, in document order

  datatype Callback =
    | OnStart(name: string)
    | OnAtt(name: string, value: string)
    | OnData(text: string)
    | OnEnd(name: string)

  function AttCallbacks(atts: seq<Att>): seq<Callback> {
    if atts == [] then [] else [OnAtt(atts[0].name, atts[0].value)] + AttCallbacks(atts[1..])
  }

  function TagCallbacks(t: Tag): seq<Callback> {
    [OnStart(t.name)] + AttCallbacks(t.atts)
  }

  function DataCallbacks(text: string): seq<Callback> {
    if text == "" then [] else [OnData(text)]
  }

  /** Start names lose their prefix, end names keep it; text is reported in leaves only; an empty-element
      tag reports its start only. */
  function Callbacks(x: Xml): seq<Callback> {
    match x
    case Leaf(t, text) => TagCallbacks(t) + (DataCallbacks(text) + [OnEnd(QName(t))])
    case CData(t, _, text, _) => TagCallbacks(t) + (DataCallbacks(text) + [OnEnd(QName(t))])
    case Empty(t) => TagCallbacks(t)
    case Branch(t, _, kids) => TagCallbacks(t) + (ForestCallbacks(kids) + [OnEnd(QName(t))])
  }

  function ForestCallbacks(f: Forest): seq<Callback> {
    match f
    case Nil => []
    case Element(x, _, rest) => Callbacks(x) + ForestCallbacks(rest)
    case Comment(_, _, rest) => ForestCallbacks(rest)
    case Instruction(_, _, rest) => ForestCallbacks(rest)
  }

  // ----- callbacks as they change a state

  function Fold<S>(handle: (S, Callback) -> S, s: S, cs: seq<Callback>): (r: S)
    ensures |cs| == 1 ==> r == handle(s, cs[0])
    decreases |cs|
  {
    if cs == [] then s else Fold(handle, handle(s, cs[0]), cs[1..])
  }

  lemma {:induction false} FoldConcat<S>(handle: (S, Callback) -> S, s: S, xs: seq<Callback>, ys: seq<Callback>)
    ensures Fold(handle, s, xs + ys) == Fold(handle, Fold(handle, s, xs), ys)
    decreases |xs|
  {
    if xs == [] {
      assert xs + ys == ys;
    } else {
      assert (xs + ys)[1..] == xs[1..] + ys;
      FoldConcat(handle, handle(s, xs[0]), xs[1..], ys);
    }
  }

  // ----- what the scanner's events say as text

  function Slice(mem: string, lo: nat, hi: nat): string {
    if lo <= hi <= |mem| then mem[lo..hi] else ""
  }

  function Read(mem: string, e: Event): Callback {
    match e
    case StartElt(lo, hi) => OnStart(Slice(mem, lo, hi))
    case Attribute(lo, hi, vlo, vhi) => OnAtt(Slice(mem, lo, hi), Slice(mem, vlo, vhi))
    case Text(lo, hi) => OnData(Slice(mem, lo, hi))
    case EndElt(lo, hi) => OnEnd(Slice(mem, lo, hi))
  }

  function ReadAll(mem: string, evs: seq<Event>): seq<Callback> {
    if evs == [] then [] else [Read(mem, evs[0])] + ReadAll(mem, evs[1..])
  }

  /** The callbacks parsexml makes on the buffer mem[..end], with the text they are given. */
  function Parsed(mem: string, end: nat): seq<Callback> {
    ReadAll(mem, Events(mem, end, 0))
  }
}
