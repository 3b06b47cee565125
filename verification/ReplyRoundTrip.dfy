/** Name/value replies: what their reader makes of texts inside any number of enclosing elements. */
module ReplyRoundTrip {
  import opened Text
  import opened Seqs
  import opened MiniXml
  import opened XmlTree
  import XmlRoundTrip
  import opened NameValues

  /** An element with a text, plain or as a CDATA section, and what stands behind it. */
  datatype Item =
    | Plain(tag: Tag, text: string, after: string)
    | Section(tag: Tag, lead: string, text: string, tail: string, after: string)

  function Tree(i: Item): Xml {
    match i
    case Plain(t, text, _) => Leaf(t, text)
    case Section(t, lead, text, tail, _) => CData(t, lead, text, tail)
  }

  /** An enclosing element: its tag, what stands behind its start tag and what stands behind its end tag. */
  datatype Layer = Layer(tag: Tag, lead: string, after: string)

  predicate ValidItem(i: Item) {
    Valid(Tree(i)) && Lacks(i.after, '<')
  }

  predicate ValidLayer(l: Layer) {
    ValidTag(l.tag) && Lacks(l.lead, '<') && Lacks(l.after, '<')
  }

  function ItemForest(items: seq<Item>): Forest {
    if items == [] then Nil else Element(Tree(items[0]), items[0].after, ItemForest(items[1..]))
  }

  function Wrap(layers: seq<Layer>, inner: Forest): Forest {
    if layers == [] then inner
    else Element(Branch(layers[0].tag, layers[0].lead, Wrap(layers[1..], inner)), layers[0].after, Nil)
  }

  // ----- what is expected

  /** A text by name; names are cut to 63 bytes and texts to 127. */
  function Entry(i: Item): NameValue {
    NameValue(Clip(i.tag.name, 63), Clip(i.text, 127))
  }

  predicate IsListing(i: Item) {
    i.tag.name == "NewPortListing"
  }

  /** The texts by name, newest first, without port listings. */
  function Entries(items: seq<Item>): seq<NameValue> {
    if items == [] then []
    else Entries(items[1..]) + if IsListing(items[0]) then [] else [Entry(items[0])]
  }

  /** The text of the last port listing that has one, whole. */
  function Listed(items: seq<Item>, before: Option<string>): Option<string>
    decreases |items|
  {
    if items == [] then before
    else Listed(items[1..], if IsListing(items[0]) && items[0].text != "" then Some(items[0].text) else before)
  }

  // ----- validity

  lemma {:induction false} ItemsValid(items: seq<Item>)
    requires forall k | 0 <= k < |items| :: ValidItem(items[k])
    ensures ValidForest(ItemForest(items))
  {
    if items != [] {
      assert ValidItem(items[0]);
      ItemsValid(items[1..]);
    }
  }

  lemma {:induction false} WrapValid(layers: seq<Layer>, inner: Forest)
    requires (forall k | 0 <= k < |layers| :: ValidLayer(layers[k])) && ValidForest(inner) && !inner.Nil?
    ensures ValidForest(Wrap(layers, inner)) && !Wrap(layers, inner).Nil?
  {
    if layers != [] {
      assert ValidLayer(layers[0]);
      WrapValid(layers[1..], inner);
      assert Valid(Branch(layers[0].tag, layers[0].lead, Wrap(layers[1..], inner)));
    }
  }

  // ----- folding the callbacks

  lemma {:induction false} AttsHandled(atts: seq<XmlTree.Att>, st: State)
    ensures HandleAll(st, AttCallbacks(atts)) == st
  {
    if atts != [] { AttsHandled(atts[1..], st); }
  }

  lemma TagHandled(t: Tag, st: State)
    ensures HandleAll(st, TagCallbacks(t)) == AtStart(st, t.name)
  {
    FoldConcat(Handle, st, [OnStart(t.name)], AttCallbacks(t.atts));
    assert HandleAll(st, [OnStart(t.name)]) == AtStart(st, t.name);
    AttsHandled(t.atts, AtStart(st, t.name));
  }

  // A name is the port listing's after it has been cut exactly when it was before.
  lemma CutName(name: string)
    requires PlainName(name)
    ensures Clip(name, 63) == "NewPortListing" <==> name == "NewPortListing"
  {
    assert NulFree(name);
  }

  // The state behind an item.
  function Behind(st: State, i: Item): State {
    var r := st.(curelt := Clip(i.tag.name, 63), topelt := false, cdata := None);
    if !IsListing(i) then r.(list := [Entry(i)] + st.list)
    else if i.text != "" then r.(portListing := Some(i.text))
    else r
  }

  lemma DataHandled(st: State, i: Item)
    requires PlainName(i.tag.name)
    ensures AtEnd(HandleAll(AtStart(st, i.tag.name), DataCallbacks(i.text))) == Behind(st, i)
  {
    CutName(i.tag.name);
    assert Clip("", 127) == "";
    if i.text != "" {
      assert HandleAll(AtStart(st, i.tag.name), [OnData(i.text)]) == AtData(AtStart(st, i.tag.name), i.text);
    }
  }

  lemma ItemHandled(st: State, i: Item)
    requires ValidItem(i)
    ensures HandleAll(st, Callbacks(Tree(i))) == Behind(st, i)
  {
    var t, data, end := i.tag, DataCallbacks(i.text), [OnEnd(QName(i.tag))];
    assert Callbacks(Tree(i)) == TagCallbacks(t) + (data + end);
    FoldConcat(Handle, st, TagCallbacks(t), data + end);
    TagHandled(t, st);
    FoldConcat(Handle, AtStart(st, t.name), data, end);
    DataHandled(st, i);
  }

  lemma FirstHandled(st: State, items: seq<Item>)
    requires items != [] && ValidItem(items[0])
    ensures HandleAll(st, ForestCallbacks(ItemForest(items))) ==
            HandleAll(Behind(st, items[0]), ForestCallbacks(ItemForest(items[1..])))
  {
    ItemHandled(st, items[0]);
    FoldConcat(Handle, st, Callbacks(Tree(items[0])), ForestCallbacks(ItemForest(items[1..])));
  }

  lemma {:induction false} ItemsHandled(st: State, items: seq<Item>)
    requires forall k | 0 <= k < |items| :: ValidItem(items[k])
    ensures var r := HandleAll(st, ForestCallbacks(ItemForest(items)));
            && r.list == Entries(items) + st.list && r.portListing == Listed(items, st.portListing)
            && (items != [] ==> !r.topelt)
    decreases |items|
  {
    if items != [] {
      var i, rest := items[0], items[1..];
      FirstHandled(st, items);
      ItemsHandled(Behind(st, i), rest);
      Assoc(Entries(rest), if IsListing(i) then [] else [Entry(i)], st.list);
      assert [] + st.list == st.list;
    }
  }

  lemma {:induction false} LayersHandled(st: State, layers: seq<Layer>, items: seq<Item>)
    requires items != [] && forall k | 0 <= k < |items| :: ValidItem(items[k])
    ensures var r := HandleAll(st, ForestCallbacks(Wrap(layers, ItemForest(items))));
            r.list == Entries(items) + st.list && r.portListing == Listed(items, st.portListing) && !r.topelt
    decreases |layers|
  {
    if layers == [] {
      ItemsHandled(st, items);
    } else {
      var t, f := layers[0].tag, Wrap(layers[1..], ItemForest(items));
      var inner, end := ForestCallbacks(f), [OnEnd(QName(t))];
      assert ForestCallbacks(Wrap(layers, ItemForest(items))) == TagCallbacks(t) + (inner + end);
      FoldConcat(Handle, st, TagCallbacks(t), inner + end);
      TagHandled(t, st);
      FoldConcat(Handle, AtStart(st, t.name), inner, end);
      LayersHandled(AtStart(st, t.name), layers[1..], items);
    }
  }

  /** For every reply made of enclosing elements and any number of texts, one at least, printed behind anything that
      makes no callback: the list holds the texts by name, newest first, and the port listing is the last one given,
      whatever the parser data held before and whatever follows the reply in memory. */
  lemma ReplyRead(doc: Document, layers: seq<Layer>, items: seq<Item>, mem: string, st: State)
    requires ValidDocument(doc) && ForestCallbacks(doc.content) == ForestCallbacks(Wrap(layers, ItemForest(items)))
    requires items != [] && forall k | 0 <= k < |items| :: ValidItem(items[k])
    requires PrintDocument(doc) <= mem
    ensures var r := HandleAll(Reset(st), Parsed(mem, |PrintDocument(doc)|));
            r.list == Entries(items) && r.portListing == Listed(items, None)
  {
    XmlRoundTrip.PrintThenParse(doc, mem, |PrintDocument(doc)|);
    LayersHandled(Reset(st), layers, items);
    assert Entries(items) + [] == Entries(items);
  }

  /** A reply whose only text is a port listing, plain or as CDATA: the listing is that text, and the list is empty. */
  lemma PortListingRead(layers: seq<Layer>, i: Item, mem: string, st: State)
    requires (forall k | 0 <= k < |layers| :: ValidLayer(layers[k])) && ValidItem(i)
    requires i.tag.name == "NewPortListing" && i.text != ""
    requires PrintDocument(Document("", Wrap(layers, ItemForest([i])))) <= mem
    ensures var r := HandleAll(Reset(st), Parsed(mem, |PrintDocument(Document("", Wrap(layers, ItemForest([i]))))|));
            r.list == [] && r.portListing == Some(i.text)
  {
    assert [i][1..] == [];
    ItemsValid([i]);
    WrapValid(layers, ItemForest([i]));
    ReplyRead(Document("", Wrap(layers, ItemForest([i]))), layers, [i], mem, st);
  }

  // ----- looking names up

  lemma {:induction false} LookupConcat(xs: seq<NameValue>, ys: seq<NameValue>, name: string)
    ensures Lookup(xs + ys, name) == if Lookup(xs, name).Some? then Lookup(xs, name) else Lookup(ys, name)
  {
    if xs == [] {
      assert xs + ys == ys;
    } else {
      assert (xs + ys)[1..] == xs[1..] + ys;
      LookupConcat(xs[1..], ys, name);
    }
  }

  predicate Named(i: Item, name: string) {
    !IsListing(i) && Clip(i.tag.name, 63) == name
  }

  function LastNamed(items: seq<Item>, name: string): Option<string> {
    if items == [] then None
    else
      var r := LastNamed(items[1..], name);
      if r.Some? then r else if Named(items[0], name) then Some(Clip(items[0].text, 127)) else None
  }

  lemma LookupFirst(i: Item, name: string)
    ensures Lookup(if IsListing(i) then [] else [Entry(i)], name) ==
            if Named(i, name) then Some(Clip(i.text, 127)) else None
  {
  }

  lemma {:induction false} LookupIs(items: seq<Item>, name: string)
    ensures Lookup(Entries(items), name) == LastNamed(items, name)
  {
    if items != [] {
      LookupIs(items[1..], name);
      LookupFirst(items[0], name);
      LookupConcat(Entries(items[1..]), if IsListing(items[0]) then [] else [Entry(items[0])], name);
    }
  }

  lemma {:induction false} LastNamedIs(items: seq<Item>, name: string, k: nat)
    requires if k < |items| then Named(items[k], name) else forall j | 0 <= j < |items| :: !Named(items[j], name)
    requires forall j | k < j < |items| :: !Named(items[j], name)
    ensures LastNamed(items, name) == if k < |items| then Some(Clip(items[k].text, 127)) else None
    decreases |items|
  {
    if items != [] {
      var rest := items[1..];
      if k == 0 {
        LastNamedIs(rest, name, |rest|);
      } else {
        LastNamedIs(rest, name, k - 1);
      }
    }
  }

  /** Looking a name up in the list gives the text of the last item of that name, the k-th, and nothing when there is
      none, for a k behind the list. */
  lemma LastItemWins(items: seq<Item>, name: string, k: nat)
    requires if k < |items| then Named(items[k], name) else forall j | 0 <= j < |items| :: !Named(items[j], name)
    requires forall j | k < j < |items| :: !Named(items[j], name)
    ensures Lookup(Entries(items), name) == if k < |items| then Some(Clip(items[k].text, 127)) else None
  {
    LookupIs(items, name);
    LastNamedIs(items, name, k);
  }
}
