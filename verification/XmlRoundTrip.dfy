/** Printing a document and scanning the result gives back exactly the document's callbacks. */
module XmlRoundTrip {
  import opened Seqs
  import opened MiniXml
  import opened XmlTree

  // The buffer holds s at offset p.
  predicate Has(mem: string, end: nat, p: nat, s: string) {
    p + |s| <= end && Looking(mem, p, s)
  }

  function From(mem: string, end: nat, p: nat): seq<Callback> {
    ReadAll(mem, Events(mem, end, p))
  }

  // A start tag, up to but not including its '>' or '/>', takes up the bytes from p to q.
  predicate OpensAt(mem: string, end: nat, p: nat, t: Tag, q: nat) {
    q == p + |Open(t)| && Has(mem, end, p, Open(t))
  }

  // An end tag takes up the bytes from p to q.
  predicate ClosesAt(mem: string, end: nat, p: nat, t: Tag, q: nat) {
    q == p + |Close(t)| && Has(mem, end, p, Close(t))
  }

  // An element takes up the bytes from p to q.
  predicate ElementAt(mem: string, end: nat, p: nat, x: Xml, q: nat) {
    q == p + |Print(x)| && Has(mem, end, p, Print(x))
  }

  // A run of markup takes up the bytes from p to q.
  predicate ForestAt(mem: string, end: nat, p: nat, f: Forest, q: nat) {
    q == p + |PrintForest(f)| && Has(mem, end, p, PrintForest(f))
  }

  // The character data from d on makes the callbacks cs and leaves the cursor at q.
  predicate LeadsTo(mem: string, end: nat, d: nat, cs: seq<Callback>, q: nat) {
    ParseContent(mem, end, d).Next? && ParseContent(mem, end, d).pos == q &&
      ReadAll(mem, ParseContent(mem, end, d).events) == cs
  }

  /** A buffer together with names for the notions above on it.  The names are tied to the definitions by
      `Faithful`, whose triggers mention the definitions only, so that a proof that speaks of the names is
      not burdened with what they stand for. */
  datatype View = View(mem: string, end: nat, has: (nat, string) -> bool, from: nat -> seq<Callback>,
                       opens: (nat, Tag, nat) -> bool, closes: (nat, Tag, nat) -> bool,
                       leads: (nat, seq<Callback>, nat) -> bool,
                       element: (nat, Xml, nat) -> bool, forest: (nat, Forest, nat) -> bool)

  ghost predicate Faithful(b: View) {
    && b.end <= |b.mem|
    && (forall p: nat, s: string {:trigger Has(b.mem, b.end, p, s)} :: b.has(p, s) == Has(b.mem, b.end, p, s))
    && (forall p: nat {:trigger From(b.mem, b.end, p)} :: b.from(p) == From(b.mem, b.end, p))
    && (forall p: nat, t: Tag, q: nat {:trigger OpensAt(b.mem, b.end, p, t, q)} ::
       b.opens(p, t, q) == OpensAt(b.mem, b.end, p, t, q))
    && (forall p: nat, t: Tag, q: nat {:trigger ClosesAt(b.mem, b.end, p, t, q)} ::
       b.closes(p, t, q) == ClosesAt(b.mem, b.end, p, t, q))
    && (forall d: nat, cs: seq<Callback>, q: nat {:trigger LeadsTo(b.mem, b.end, d, cs, q)} ::
       b.leads(d, cs, q) == LeadsTo(b.mem, b.end, d, cs, q))
    && (forall p: nat, x: Xml, q: nat {:trigger ElementAt(b.mem, b.end, p, x, q)} ::
       b.element(p, x, q) == ElementAt(b.mem, b.end, p, x, q))
    && (forall p: nat, f: Forest, q: nat {:trigger ForestAt(b.mem, b.end, p, f, q)} ::
       b.forest(p, f, q) == ForestAt(b.mem, b.end, p, f, q))
  }

  function ViewOf(mem: string, end: nat): (b: View)
    requires end <= |mem|
    ensures Faithful(b) && b.mem == mem && b.end == end
  {
    View(mem, end, (p: nat, s: string) => Has(mem, end, p, s), (p: nat) => From(mem, end, p),
         (p: nat, t: Tag, q: nat) => OpensAt(mem, end, p, t, q),
         (p: nat, t: Tag, q: nat) => ClosesAt(mem, end, p, t, q),
         (d: nat, cs: seq<Callback>, q: nat) => LeadsTo(mem, end, d, cs, q),
         (p: nat, x: Xml, q: nat) => ElementAt(mem, end, p, x, q),
         (p: nat, f: Forest, q: nat) => ForestAt(mem, end, p, f, q))
  }

  type Buffer = b: View | Faithful(b) ghost witness ViewOf("", 0)

  lemma Split(b: Buffer, p: nat, s: string, t: string)
    requires b.has(p, s + t)
    ensures b.has(p, s) && b.has(p + |s|, t) && p + |s| + |t| <= b.end
  {
    assert Has(b.mem, b.end, p, s + t);
    forall k | 0 <= k < |s|
      ensures At(b.mem, p + k) == s[k]
    {
      assert (s + t)[k] == s[k];
    }
    forall k | 0 <= k < |t|
      ensures At(b.mem, p + |s| + k) == t[k]
    {
      assert (s + t)[|s| + k] == t[k];
    }
    assert Has(b.mem, b.end, p, s) && Has(b.mem, b.end, p + |s|, t);
  }

  lemma SplitThree(b: Buffer, p: nat, s: string, t: string, u: string)
    requires b.has(p, s + (t + u))
    ensures b.has(p, s) && b.has(p + |s|, t) && b.has(p + |s| + |t|, u)
  {
    Split(b, p, s, t + u);
    Split(b, p + |s|, t, u);
  }

  lemma First(b: Buffer, p: nat, s: string)
    requires b.has(p, s) && s != ""
    ensures At(b.mem, p) == s[0] && b.has(p + 1, s[1..]) && p < b.end
  {
    assert s == [s[0]] + s[1..];
    Split(b, p, [s[0]], s[1..]);
    assert Has(b.mem, b.end, p, [s[0]]);
    assert At(b.mem, p + 0) == [s[0]][0];
  }

  lemma Second(b: Buffer, p: nat, s: string)
    requires b.has(p, s) && |s| > 1
    ensures At(b.mem, p) == s[0] && At(b.mem, p + 1) == s[1] && p + 1 < b.end
  {
    First(b, p, s);
    First(b, p + 1, s[1..]);
  }

  lemma Sliced(b: Buffer, p: nat, s: string)
    requires b.has(p, s)
    ensures Slice(b.mem, p, p + |s|) == s && p + |s| <= b.end
  {
    assert Has(b.mem, b.end, p, s);
    forall k | 0 <= k < |s|
      ensures b.mem[p..p + |s|][k] == s[k]
    {
      assert At(b.mem, p + k) == s[k];
    }
  }

  // The byte at p is the '<' of markup other than a CDATA section.
  predicate MarkupAt(b: Buffer, p: nat) {
    p + 1 < b.end && At(b.mem, p) == '<' && !Looking(b.mem, p, "<![CDATA[")
  }

  lemma NotLooking(mem: string, p: nat, s: string, k: nat)
    requires k < |s| && At(mem, p + k) != s[k]
    ensures !Looking(mem, p, s)
  {
  }

  lemma {:induction false} ReadAllConcat(mem: string, xs: seq<Event>, ys: seq<Event>)
    ensures ReadAll(mem, xs + ys) == ReadAll(mem, xs) + ReadAll(mem, ys)
  {
    if xs == [] {
      assert xs + ys == ys;
    } else {
      assert (xs + ys)[1..] == xs[1..] + ys;
      ReadAllConcat(mem, xs[1..], ys);
    }
  }

  // ----- the scanning loops

  lemma {:induction false} FindThrough(b: Buffer, p: nat, lim: nat, stop: char -> bool, s: string)
    requires b.has(p, s) && stop(At(b.mem, p + |s|)) && (s != "" ==> p + |s| < lim)
    requires forall k | 0 <= k < |s| :: !stop(s[k])
    ensures Find(b.mem, p, lim, stop) == Go(p + |s|)
    decreases |s|
  {
    if s != "" {
      First(b, p, s);
      FindThrough(b, p + 1, lim, stop, s[1..]);
    }
  }

  lemma {:induction false} FindSeqThrough(mem: string, end: nat, p: nat, q: nat, s: string)
    requires p <= q && Looking(mem, q, s) && (p < q ==> q + 3 < end)
    requires forall k | p <= k < q :: !Looking(mem, k, s)
    ensures FindSeq(mem, p, end, s) == Go(q)
    decreases q - p
  {
    if p < q {
      FindSeqThrough(mem, end, p + 1, q, s);
    }
  }

  // A terminator "xx>" is first met right after a text that does not contain it.
  lemma FirstTerminator(b: Buffer, p: nat, s: string, t: string, k: nat)
    requires b.has(p, s + t) && LacksSeq(s, t) && |t| == 3 && t[2] != t[0] && t[2] != t[1]
    requires p <= k < p + |s|
    ensures !Looking(b.mem, k, t)
  {
    var i := k - p;
    assert Has(b.mem, b.end, p, s + t);
    assert At(b.mem, p + (i + 2)) == (s + t)[i + 2];
    assert At(b.mem, k + 2) == (s + t)[i + 2];
    if i + 3 > |s| {
      NotLooking(b.mem, k, t, 2);
    } else {
      assert !(t <= s[i..]);
      var j :| 0 <= j < 3 && s[i + j] != t[j];
      assert At(b.mem, p + (i + j)) == (s + t)[i + j];
      NotLooking(b.mem, k, t, j);
    }
  }

  lemma {:induction false} NameThrough(b: Buffer, p: nat, lo: nat, s: string)
    requires b.has(p, s) && lo <= p && p + |s| < b.end && EndsName(At(b.mem, p + |s|))
    requires forall k | 0 <= k < |s| :: PlainChar(s[k])
    ensures ScanName(b.mem, b.end, p, lo) == Name(lo, p + |s|)
    decreases |s|
  {
    if s != "" {
      First(b, p, s);
      if |s| > 1 {
        First(b, p + 1, s[1..]);
      }
      NameThrough(b, p + 1, lo, s[1..]);
    }
  }

  lemma {:induction false} PrefixThrough(b: Buffer, p: nat, lo: nat, s: string)
    requires b.has(p, s) && lo <= p && p + |s| + 1 < b.end && s != "" && At(b.mem, p + |s|) == ':'
    requires forall k | 0 <= k < |s| :: PlainChar(s[k])
    ensures ScanName(b.mem, b.end, p, lo) == ScanName(b.mem, b.end, p + |s| + 1, p + |s| + 1)
    decreases |s|
  {
    First(b, p, s);
    if |s| > 1 {
      First(b, p + 1, s[1..]);
      PrefixThrough(b, p + 1, lo, s[1..]);
    }
  }

  // A name scanned from p on that ends at hi.
  predicate NameScanned(b: Buffer, p: nat, name: string, hi: nat) {
    && p <= hi - |name| && hi < b.end && ScanName(b.mem, b.end, p, p) == Name(hi - |name|, hi)
    && Slice(b.mem, hi - |name|, hi) == name
  }

  lemma UnprefixedName(b: Buffer, p: nat, name: string)
    requires PlainName(name) && b.has(p, name) && p + |name| < b.end && EndsName(At(b.mem, p + |name|))
    ensures NameScanned(b, p, name, p + |name|) && At(b.mem, p) == name[0]
  {
    First(b, p, name);
    NameThrough(b, p, p, name);
    Sliced(b, p, name);
  }

  lemma PrefixedName(b: Buffer, p: nat, prefix: string, name: string, hi: nat)
    requires PlainName(prefix) && PlainName(name) && b.has(p, prefix + ":" + name)
    requires hi == p + |prefix| + 1 + |name| < b.end && EndsName(At(b.mem, hi))
    ensures NameScanned(b, p, name, hi) && At(b.mem, p) == prefix[0]
  {
    var n := p + |prefix| + 1;
    Split(b, p, prefix + ":", name);
    Split(b, p, prefix, ":");
    First(b, n - 1, ":");
    First(b, p, prefix);
    PrefixThrough(b, p, p, prefix);
    UnprefixedName(b, n, name);
  }

  lemma QNameThrough(b: Buffer, p: nat, t: Tag, hi: nat)
    requires ValidTag(t) && b.has(p, QName(t)) && hi == p + |QName(t)| < b.end && EndsName(At(b.mem, hi))
    ensures NameScanned(b, p, t.name, hi)
    ensures At(b.mem, p) != '?' && At(b.mem, p) != '!' && At(b.mem, p) != '/'
  {
    if t.prefix == "" {
      UnprefixedName(b, p, t.name);
    } else {
      PrefixedName(b, p, t.prefix, t.name, hi);
    }
  }

  // ----- attributes

  lemma {:induction false} PadThrough(b: Buffer, p: nat, pad: string)
    requires b.has(p, pad) && AllWhite(pad)
    ensures ParseAtt(b.mem, b.end, p) == ParseAtt(b.mem, b.end, p + |pad|)
    decreases |pad|
  {
    if pad != "" {
      First(b, p, pad);
      PadThrough(b, p + 1, pad[1..]);
    }
  }

  // The scan of a value that starts at v ends at q.
  predicate ValueScan(b: Buffer, lo: nat, hi: nat, v: nat, q: nat, value: string)
    requires lo <= hi < v <= b.end
  {
    var r := ScanAttValue(b.mem, b.end, lo, hi, v);
    r.AttSpan? && r.pos == q && Slice(b.mem, r.event.vlo, r.event.vhi) == value
  }

  lemma QuotedValue(b: Buffer, lo: nat, hi: nat, v: nat, quote: char, value: string)
    requires IsQuote(quote) && Lacks(value, quote) && lo <= hi < v
    requires b.has(v, [quote] + (value + [quote]))
    ensures v + 1 + |value| < b.end && ValueScan(b, lo, hi, v, v + 1 + |value|, value) && At(b.mem, v) == quote
  {
    var sep := At(b.mem, v);
    Split(b, v, [quote], value + [quote]);
    First(b, v, [quote]);
    Split(b, v + 1, value, [quote]);
    First(b, v + 1 + |value|, [quote]);
    FindThrough(b, v + 1, b.end, c => c == sep, value);
    Sliced(b, v + 1, value);
  }

  lemma UnquotedValue(b: Buffer, lo: nat, hi: nat, v: nat, value: string)
    requires lo <= hi < v && b.has(v, value) && !IsQuote(At(b.mem, v))
    requires forall k | 0 <= k < |value| :: !EndsName(value[k])
    requires v + |value| < b.end && EndsName(At(b.mem, v + |value|))
    ensures ValueScan(b, lo, hi, v, v + |value|, value)
  {
    FindThrough(b, v, b.end, EndsName, value);
    Sliced(b, v, value);
  }

  lemma AttValueOf(b: Buffer, lo: nat, hi: nat, v: nat, a: Att)
    requires ValidAtt(a) && lo <= hi < v && b.has(v, Value(a))
    ensures v + |Value(a)| <= b.end && ValueScan(b, lo, hi, v, v + |Value(a)| - 1, a.value)
    ensures NotWhiteSpace(At(b.mem, v))
  {
    if IsQuote(a.mark) {
      QuotedValue(b, lo, hi, v, a.mark, a.value);
    } else {
      Split(b, v, a.value, [a.mark]);
      First(b, v + |a.value|, [a.mark]);
      First(b, v, a.value);
      UnquotedValue(b, lo, hi, v, a.value);
    }
  }

  lemma AttNameOf(b: Buffer, p: nat, name: string, gap1: string, gap2: string)
    requires AttName(name) && AllWhite(gap1) && AllWhite(gap2)
    requires b.has(p, name + (gap1 + ("=" + gap2)))
    requires p + |name| + |gap1| + 1 + |gap2| < b.end && NotWhiteSpace(At(b.mem, p + |name| + |gap1| + 1 + |gap2|))
    ensures Find(b.mem, p, b.end, EndsAttName) == Go(p + |name|)
    ensures Find(b.mem, p + |name|, b.end, IsEquals) == Go(p + |name| + |gap1|)
    ensures Find(b.mem, p + |name| + |gap1| + 1, b.end, NotWhiteSpace) == Go(p + |name| + |gap1| + 1 + |gap2|)
    ensures Slice(b.mem, p, p + |name|) == name && At(b.mem, p) == name[0]
  {
    var hi := p + |name|;
    var eq := hi + |gap1|;
    Split(b, p, name, gap1 + ("=" + gap2));
    First(b, p, name);
    First(b, hi, gap1 + ("=" + gap2));
    Split(b, hi, gap1, "=" + gap2);
    Split(b, eq, "=", gap2);
    First(b, eq, "=");
    assert gap1 != "" ==> (gap1 + ("=" + gap2))[0] == gap1[0];
    FindThrough(b, p, b.end, EndsAttName, name);
    FindThrough(b, hi, b.end, IsEquals, gap1);
    FindThrough(b, eq + 1, b.end, NotWhiteSpace, gap2);
    Sliced(b, p, name);
  }

  // An attribute, given the scan of its value.
  lemma ScanWithValue(b: Buffer, p: nat, name: string, gap1: string, gap2: string, v: nat, q: nat, value: string)
    requires AttName(name) && AllWhite(gap1) && AllWhite(gap2) && b.has(p, name + (gap1 + ("=" + gap2)))
    requires v == p + |name| + |gap1| + 1 + |gap2| < b.end && NotWhiteSpace(At(b.mem, v))
    requires ValueScan(b, p, p + |name|, v, q, value)
    ensures ScanAtt(b.mem, b.end, p).AttSpan? && ScanAtt(b.mem, b.end, p).pos == q
    ensures Read(b.mem, ScanAtt(b.mem, b.end, p).event) == OnAtt(name, value) && At(b.mem, p) == name[0]
  {
    AttNameOf(b, p, name, gap1, gap2);
    AttIs(b.mem, b.end, p, p + |name|, p + |name| + |gap1|, v);
  }

  lemma ScanAttOf(b: Buffer, p: nat, a: Att)
    requires ValidAtt(a) && b.has(p, Bare(a))
    ensures p + |Bare(a)| <= b.end && At(b.mem, p) == a.name[0]
    ensures ScanAtt(b.mem, b.end, p).AttSpan? && ScanAtt(b.mem, b.end, p).pos == p + |Bare(a)| - 1
    ensures Read(b.mem, ScanAtt(b.mem, b.end, p).event) == OnAtt(a.name, a.value)
  {
    Split(b, p, Head(a), Value(a));
    AttValueOf(b, p, p + |a.name|, p + |Head(a)|, a);
    ScanWithValue(b, p, a.name, a.gap1, a.gap2, p + |Head(a)|, p + |Bare(a)| - 1, a.value);
  }

  lemma {:induction false} AttsThrough(b: Buffer, p: nat, atts: seq<Att>, pad: string, q: nat)
    requires b.has(p, PrintAtts(atts, pad)) && AllWhite(pad)
    requires forall k | 0 <= k < |atts| :: ValidAtt(atts[k])
    requires q == p + |PrintAtts(atts, pad)| < b.end && (At(b.mem, q) == '>' || At(b.mem, q) == '/')
    ensures ParseAtt(b.mem, b.end, p).at == Go(q)
    ensures ReadAll(b.mem, ParseAtt(b.mem, b.end, p).events) == AttCallbacks(atts)
    decreases |atts|
  {
    if atts == [] {
      PadThrough(b, p, pad);
    } else {
      var n := AttThenRest(b, p, atts[0], PrintAtts(atts[1..], pad));
      AttsThrough(b, n, atts[1..], pad, q);
    }
  }

  // An attribute with the white space before it, ended at q.
  lemma AttThenRest(b: Buffer, p: nat, a: Att, rest: string) returns (q: nat)
    requires ValidAtt(a) && b.has(p, a.pad + (Bare(a) + rest))
    ensures b.has(q, rest) && q + |rest| == p + |a.pad + (Bare(a) + rest)|
    ensures ParseAtt(b.mem, b.end, p).at == ParseAtt(b.mem, b.end, q).at
    ensures ReadAll(b.mem, ParseAtt(b.mem, b.end, p).events) ==
            [OnAtt(a.name, a.value)] + ReadAll(b.mem, ParseAtt(b.mem, b.end, q).events)
  {
    var n := p + |a.pad|;
    q := n + |Bare(a)|;
    SplitThree(b, p, a.pad, Bare(a), rest);
    PadThrough(b, p, a.pad);
    OneAttOf(b, n, a);
  }

  lemma AttRead(mem: string, end: nat, p: nat, e: Event, q: nat)
    requires AtAttribute(mem, end, p) && ScanAtt(mem, end, p) == AttSpan(e, q)
    ensures ParseAtt(mem, end, p).at == ParseAtt(mem, end, q + 1).at
    ensures ReadAll(mem, ParseAtt(mem, end, p).events) ==
            [Read(mem, e)] + ReadAll(mem, ParseAtt(mem, end, q + 1).events)
  {
    AttsStep(mem, end, p, e, q);
    ReadFirst(mem, e, ParseAtt(mem, end, q + 1).events);
  }

  lemma ReadFirst(mem: string, e: Event, evs: seq<Event>)
    ensures ReadAll(mem, [e] + evs) == [Read(mem, e)] + ReadAll(mem, evs)
  {
    assert ([e] + evs)[1..] == evs;
  }

  lemma NameStarts(mem: string, end: nat, p: nat, name: string)
    requires AttName(name) && p < end && At(mem, p) == name[0]
    ensures AtAttribute(mem, end, p)
  {
  }

  lemma OneAttOf(b: Buffer, p: nat, a: Att)
    requires ValidAtt(a) && b.has(p, Bare(a))
    ensures ParseAtt(b.mem, b.end, p).at == ParseAtt(b.mem, b.end, p + |Bare(a)|).at
    ensures ReadAll(b.mem, ParseAtt(b.mem, b.end, p).events) ==
            [OnAtt(a.name, a.value)] + ReadAll(b.mem, ParseAtt(b.mem, b.end, p + |Bare(a)|).events)
  {
    ScanAttOf(b, p, a);
    NameStarts(b.mem, b.end, p, a.name);
    AttRead(b.mem, b.end, p, ScanAtt(b.mem, b.end, p).event, p + |Bare(a)| - 1);
  }

  // ----- tags

  lemma FromNext(b: Buffer, p: nat, evs: seq<Event>, q: nat)
    requires p + 1 < b.end && ParseRound(b.mem, b.end, p) == Next(evs, q)
    ensures b.from(p) == ReadAll(b.mem, evs) + b.from(q)
  {
    assert From(b.mem, b.end, p) == ReadAll(b.mem, evs + Events(b.mem, b.end, q));
    ReadAllConcat(b.mem, evs, Events(b.mem, b.end, q));
    assert b.from(q) == From(b.mem, b.end, q);
  }

  // What follows an element name in a start tag, if anything, is white space.
  lemma NameEnds(t: Tag)
    requires ValidTag(t) && PrintAtts(t.atts, t.pad) != ""
    ensures IsWhiteSpace(PrintAtts(t.atts, t.pad)[0])
  {
    if t.atts != [] {
      assert ValidAtt(t.atts[0]) && PrintAtts(t.atts, t.pad)[0] == t.atts[0].pad[0];
    }
  }

  // The scans over a start tag that begins at p: its name and its attribute list.
  lemma OpenScans(b: Buffer, p: nat, t: Tag) returns (lo: nat, hi: nat)
    requires ValidTag(t) && b.has(p, Open(t)) && p + |Open(t)| < b.end
    requires At(b.mem, p + |Open(t)|) == '>' || At(b.mem, p + |Open(t)|) == '/'
    ensures At(b.mem, p) == '<' && At(b.mem, p + 1) != '?' && At(b.mem, p + 1) != '!'
    ensures p + 1 <= lo < hi < b.end && ScanName(b.mem, b.end, p + 1, p + 1) == Name(lo, hi)
    ensures ParseAtt(b.mem, b.end, hi).at == Go(p + |Open(t)|)
    ensures Slice(b.mem, lo, hi) == t.name
    ensures ReadAll(b.mem, ParseAtt(b.mem, b.end, hi).events) == AttCallbacks(t.atts)
  {
    lo, hi := OpenName(b, p, t);
    AttsThrough(b, hi, t.atts, t.pad, p + |Open(t)|);
  }

  lemma OpenName(b: Buffer, p: nat, t: Tag) returns (lo: nat, hi: nat)
    requires ValidTag(t) && b.has(p, Open(t)) && p + |Open(t)| < b.end
    requires EndsName(At(b.mem, p + |Open(t)|))
    ensures At(b.mem, p) == '<' && At(b.mem, p + 1) != '?' && At(b.mem, p + 1) != '!'
    ensures p + 1 <= lo < hi < b.end && ScanName(b.mem, b.end, p + 1, p + 1) == Name(lo, hi)
    ensures Slice(b.mem, lo, hi) == t.name
    ensures b.has(hi, PrintAtts(t.atts, t.pad)) && hi + |PrintAtts(t.atts, t.pad)| == p + |Open(t)|
  {
    hi := p + 1 + |QName(t)|;
    lo := hi - |t.name|;
    OpenParts(b, p, t);
    QNameThrough(b, p + 1, t, hi);
  }

  lemma OpenParts(b: Buffer, p: nat, t: Tag)
    requires ValidTag(t) && b.has(p, Open(t)) && EndsName(At(b.mem, p + |Open(t)|))
    ensures At(b.mem, p) == '<' && b.has(p + 1, QName(t)) && EndsName(At(b.mem, p + 1 + |QName(t)|))
    ensures b.has(p + 1 + |QName(t)|, PrintAtts(t.atts, t.pad))
    ensures p + 1 + |QName(t)| + |PrintAtts(t.atts, t.pad)| == p + |Open(t)| && |QName(t)| >= |t.name| > 0
  {
    var atts := PrintAtts(t.atts, t.pad);
    Split(b, p, "<", QName(t) + atts);
    First(b, p, "<");
    Split(b, p + 1, QName(t), atts);
    if atts != "" {
      First(b, p + 1 + |QName(t)|, atts);
      NameEnds(t);
    }
  }

  // A start tag ended by '/'.
  lemma OpenEmpty(b: Buffer, p: nat, t: Tag, q: nat)
    requires ValidTag(t) && b.opens(p, t, q) && q < b.end && At(b.mem, q) == '/'
    ensures b.from(p) == TagCallbacks(t) + b.from(q)
  {
    assert OpensAt(b.mem, b.end, p, t, q);
    var lo, hi := OpenScans(b, p, t);
    EmptyRound(b, p, lo, hi, q);
  }

  lemma EmptyRound(b: Buffer, p: nat, lo: nat, hi: nat, q: nat)
    requires p + 1 <= lo < hi < b.end && ScanName(b.mem, b.end, p + 1, p + 1) == Name(lo, hi)
    requires At(b.mem, p) == '<' && At(b.mem, p + 1) != '?' && At(b.mem, p + 1) != '!'
    requires ParseAtt(b.mem, b.end, hi).at == Go(q) && At(b.mem, q) == '/'
    ensures b.from(p) ==
            ([OnStart(Slice(b.mem, lo, hi))] + ReadAll(b.mem, ParseAtt(b.mem, b.end, hi).events)) + b.from(q)
  {
    NotLooking(b.mem, p, "<!--", 1);
    var atts := ParseAtt(b.mem, b.end, hi).events;
    assert ParseRound(b.mem, b.end, p) == ParseStart(b.mem, b.end, lo, hi);
    ReadStart(b.mem, lo, hi, atts);
    FromNext(b, p, [StartElt(lo, hi)] + atts, q);
  }

  lemma ReadStart(mem: string, lo: nat, hi: nat, atts: seq<Event>)
    ensures ReadAll(mem, [StartElt(lo, hi)] + atts) == [OnStart(Slice(mem, lo, hi))] + ReadAll(mem, atts)
  {
    assert ([StartElt(lo, hi)] + atts)[1..] == atts;
  }

  lemma StartRound(mem: string, end: nat, p: nat, lo: nat, hi: nat, a: nat, evs: seq<Event>, q: nat)
    requires p + 1 <= lo < hi < end && ScanName(mem, end, p + 1, p + 1) == Name(lo, hi)
    requires At(mem, p) == '<' && At(mem, p + 1) != '?' && At(mem, p + 1) != '!'
    requires ParseAtt(mem, end, hi).at == Go(a) && At(mem, a) == '>'
    requires ParseContent(mem, end, a + 1) == Next(evs, q)
    ensures ParseRound(mem, end, p) == Next(([StartElt(lo, hi)] + ParseAtt(mem, end, hi).events) + evs, q)
  {
    NotLooking(mem, p, "<!--", 1);
    assert ParseRound(mem, end, p) == ParseStart(mem, end, lo, hi);
  }

  // A start tag ended by '>' whose character data leads to r.
  lemma OpenContent(b: Buffer, p: nat, t: Tag, q: nat, cs: seq<Callback>, r: nat)
    requires ValidTag(t) && b.opens(p, t, q) && q < b.end && At(b.mem, q) == '>' && b.leads(q + 1, cs, r)
    ensures b.from(p) == TagCallbacks(t) + (cs + b.from(r))
  {
    assert OpensAt(b.mem, b.end, p, t, q);
    var lo, hi := OpenScans(b, p, t);
    ContentRound(b, p, lo, hi, q, cs, r);
  }

  lemma ContentRound(b: Buffer, p: nat, lo: nat, hi: nat, q: nat, cs: seq<Callback>, r: nat)
    requires p + 1 <= lo < hi < b.end && ScanName(b.mem, b.end, p + 1, p + 1) == Name(lo, hi)
    requires At(b.mem, p) == '<' && At(b.mem, p + 1) != '?' && At(b.mem, p + 1) != '!'
    requires ParseAtt(b.mem, b.end, hi).at == Go(q) && At(b.mem, q) == '>' && b.leads(q + 1, cs, r)
    ensures b.from(p) ==
            ([OnStart(Slice(b.mem, lo, hi))] + ReadAll(b.mem, ParseAtt(b.mem, b.end, hi).events)) + (cs + b.from(r))
  {
    assert LeadsTo(b.mem, b.end, q + 1, cs, r);
    var evs := ParseContent(b.mem, b.end, q + 1).events;
    StartRound(b.mem, b.end, p, lo, hi, q, evs, r);
    StartRead(b, p, lo, hi, ParseAtt(b.mem, b.end, hi).events, evs, r);
  }

  lemma StartRead(b: Buffer, p: nat, lo: nat, hi: nat, atts: seq<Event>, evs: seq<Event>, q: nat)
    requires p + 1 < b.end && ParseRound(b.mem, b.end, p) == Next(([StartElt(lo, hi)] + atts) + evs, q)
    ensures b.from(p) == ([OnStart(Slice(b.mem, lo, hi))] + ReadAll(b.mem, atts)) + (ReadAll(b.mem, evs) + b.from(q))
  {
    FromNext(b, p, ([StartElt(lo, hi)] + atts) + evs, q);
    ReadStart(b.mem, lo, hi, atts);
    ReadAllConcat(b.mem, [StartElt(lo, hi)] + atts, evs);
    Assoc([OnStart(Slice(b.mem, lo, hi))] + ReadAll(b.mem, atts), ReadAll(b.mem, evs), b.from(q));
  }

  lemma EndTagScans(b: Buffer, p: nat, name: string, q: nat)
    requires Lacks(name, '>') && b.has(p, "</" + (name + ">")) && q == p + 2 + |name|
    ensures p + 2 <= q < b.end && At(b.mem, p) == '<' && At(b.mem, p + 1) == '/'
    ensures Find(b.mem, p + 2, b.end, IsGt) == Go(q) && Slice(b.mem, p + 2, q) == name
  {
    Split(b, p, "</", name + ">");
    Second(b, p, "</");
    Split(b, p + 2, name, ">");
    First(b, q, ">");
    FindThrough(b, p + 2, b.end, IsGt, name);
    Sliced(b, p + 2, name);
  }

  lemma EndTagThrough(b: Buffer, p: nat, name: string)
    requires Lacks(name, '>') && b.has(p, "</" + (name + ">"))
    ensures b.from(p) == [OnEnd(name)] + b.from(p + |"</" + (name + ">")|)
    ensures MarkupAt(b, p) && At(b.mem, p + 1) == '/'
  {
    EndTagScans(b, p, name, p + 2 + |name|);
    EndRound(b, p, p + 2 + |name|);
  }

  lemma CloseThrough(b: Buffer, p: nat, t: Tag, q: nat)
    requires ValidTag(t) && b.closes(p, t, q)
    ensures b.from(p) == [OnEnd(QName(t))] + b.from(q)
    ensures MarkupAt(b, p) && At(b.mem, p + 1) == '/'
  {
    assert ClosesAt(b.mem, b.end, p, t, q);
    assert Has(b.mem, b.end, p, "</" + (QName(t) + ">"));
    EndTagThrough(b, p, QName(t));
  }

  lemma EndRound(b: Buffer, p: nat, q: nat)
    requires p + 2 < b.end && At(b.mem, p) == '<' && At(b.mem, p + 1) == '/'
    requires Find(b.mem, p + 2, b.end, IsGt) == Go(q)
    ensures b.from(p) == [OnEnd(Slice(b.mem, p + 2, q))] + b.from(q + 1) && MarkupAt(b, p)
  {
    NotLooking(b.mem, p, "<!--", 1);
    NotLooking(b.mem, p, "<![CDATA[", 1);
    assert ScanName(b.mem, b.end, p + 1, p + 1) == Name(p + 1, p + 1);
    FromNext(b, p, [EndElt(p + 2, q)], q + 1);
  }

  // ----- character data and filler

  lemma OneSkipped(b: Buffer, p: nat)
    requires p < b.end && (At(b.mem, p) != '<' || (p + 1 < b.end && At(b.mem, p + 1) == '?'))
    ensures b.from(p) == b.from(p + 1)
  {
    if p + 1 < b.end {
      if At(b.mem, p) != '<' {
        NotLooking(b.mem, p, "<!--", 0);
      } else {
        NotLooking(b.mem, p, "<!--", 1);
      }
      FromNext(b, p, [], p + 1);
    } else {
      assert From(b.mem, b.end, p) == [] == From(b.mem, b.end, p + 1);
    }
  }

  lemma {:induction false} TextSkipped(b: Buffer, p: nat, s: string)
    requires b.has(p, s) && Lacks(s, '<')
    ensures b.from(p) == b.from(p + |s|)
    decreases |s|
  {
    if s != "" {
      First(b, p, s);
      OneSkipped(b, p);
      TextSkipped(b, p + 1, s[1..]);
    }
  }

  lemma {:induction false} WhiteSkipped(b: Buffer, p: nat, s: string)
    requires b.has(p, s) && Lacks(s, '<') && p + |s| < b.end && At(b.mem, p + |s|) == '<'
    ensures Find(b.mem, p, b.end, NotWhiteSpace).Go? && p <= Find(b.mem, p, b.end, NotWhiteSpace).pos <= p + |s|
    decreases |s|
  {
    if s != "" {
      First(b, p, s);
      WhiteSkipped(b, p + 1, s[1..]);
    }
  }

  lemma TextLeads(b: Buffer, d: nat, s: string)
    requires b.has(d, s) && Lacks(s, '<') && MarkupAt(b, d + |s|)
    ensures b.leads(d, if At(b.mem, d + |s| + 1) == '/' then DataCallbacks(s) else [], d + |s|)
  {
    ContentText(b, d, s);
    Sliced(b, d, s);
    assert LeadsTo(b.mem, b.end, d, if At(b.mem, d + |s| + 1) == '/' then DataCallbacks(s) else [], d + |s|);
  }

  lemma ContentText(b: Buffer, d: nat, s: string)
    requires b.has(d, s) && Lacks(s, '<') && MarkupAt(b, d + |s|)
    ensures ParseContent(b.mem, b.end, d) ==
            Next(if s != "" && At(b.mem, d + |s| + 1) == '/' then [Text(d, d + |s|)] else [], d + |s|)
  {
    WhiteSkipped(b, d, s);
    var w := Find(b.mem, d, b.end, NotWhiteSpace).pos;
    var i := w - d;
    assert s == s[..i] + s[i..];
    Split(b, d, s[..i], s[i..]);
    if i < |s| {
      First(b, w, s[i..]);
      NotLooking(b.mem, w, "<![CDATA[", 0);
    }
    FindThrough(b, w, b.end - 1, IsLt, s[i..]);
  }

  lemma CDataTail(b: Buffer, q: nat, tail: string)
    requires b.has(q, "]]>" + tail) && Lacks(tail, '<') && q + 3 + |tail| < b.end &&
             At(b.mem, q + 3 + |tail|) == '<'
    ensures Find(b.mem, q, b.end, IsLt) == Go(q + 3 + |tail|)
  {
    var s := "]]>" + tail;
    forall k | 0 <= k < |s|
      ensures !IsLt(s[k])
    {
      if k >= 3 {
        assert s[k] == tail[k - 3];
      }
    }
    FindThrough(b, q, b.end, IsLt, s);
  }

  lemma CDataEnd(b: Buffer, c: nat, text: string)
    requires b.has(c, text + "]]>") && LacksSeq(text, "]]>") && c + |text| + 3 < b.end
    ensures FindSeq(b.mem, c, b.end, "]]>") == Go(c + |text|)
  {
    var q := c + |text|;
    Split(b, c, text, "]]>");
    assert Has(b.mem, b.end, q, "]]>");
    forall k | c <= k < q
      ensures !Looking(b.mem, k, "]]>")
    {
      FirstTerminator(b, c, text, "]]>", k);
    }
    FindSeqThrough(b.mem, b.end, c, q, "]]>");
  }

  lemma ContentCData(b: Buffer, d: nat, lead: string, text: string, tail: string)
    requires AllWhite(lead) && LacksSeq(text, "]]>") && Lacks(tail, '<')
    requires b.has(d, PrintCData(lead, text, tail))
    requires d + |lead| + 9 + |text| + 3 + |tail| < b.end && At(b.mem, d + |lead| + 9 + |text| + 3 + |tail|) == '<'
    ensures ParseContent(b.mem, b.end, d) ==
            Next(if text != "" then [Text(d + |lead| + 9, d + |lead| + 9 + |text|)] else [],
              d + |lead| + 9 + |text| + 3 + |tail|)
    ensures Slice(b.mem, d + |lead| + 9, d + |lead| + 9 + |text|) == text
  {
    var w := d + |lead|;
    var c := w + 9;
    CDataParts(b, d, lead, text, tail);
    First(b, w, "<![CDATA[");
    assert Has(b.mem, b.end, w, "<![CDATA[");
    FindThrough(b, d, b.end, NotWhiteSpace, lead);
    CDataEnd(b, c, text);
    CDataTail(b, c + |text|, tail);
    Sliced(b, c, text);
  }

  lemma CDataLeads(b: Buffer, d: nat, lead: string, text: string, tail: string)
    requires AllWhite(lead) && LacksSeq(text, "]]>") && Lacks(tail, '<')
    requires b.has(d, PrintCData(lead, text, tail)) && MarkupAt(b, d + |PrintCData(lead, text, tail)|)
    ensures b.leads(d, DataCallbacks(text), d + |PrintCData(lead, text, tail)|)
  {
    ContentCData(b, d, lead, text, tail);
    assert LeadsTo(b.mem, b.end, d, DataCallbacks(text), d + |PrintCData(lead, text, tail)|);
  }

  lemma CDataParts(b: Buffer, d: nat, lead: string, text: string, tail: string)
    requires b.has(d, PrintCData(lead, text, tail))
    ensures b.has(d, lead) && b.has(d + |lead|, "<![CDATA[") && b.has(d + |lead| + 9, text)
    ensures b.has(d + |lead| + 9, text + "]]>") && b.has(d + |lead| + 9 + |text|, "]]>" + tail)
  {
    var c := d + |lead| + 9;
    Split(b, d, lead, "<![CDATA[" + (text + ("]]>" + tail)));
    Split(b, d + |lead|, "<![CDATA[", text + ("]]>" + tail));
    Split(b, c, text, "]]>" + tail);
    Assoc(text, "]]>", tail);
    Split(b, c, text + "]]>", tail);
  }

  lemma {:induction false} UnfinishedSeq(mem: string, end: nat, p: nat, q: nat, s: string)
    requires p < q && end <= q + 3
    requires forall k | p <= k < q :: !Looking(mem, k, s)
    ensures FindSeq(mem, p, end, s) == Stop
    decreases q - p
  {
    if p + 1 < q {
      UnfinishedSeq(mem, end, p + 1, q, s);
    }
  }

  lemma CommentParts(b: Buffer, p: nat, body: string, q: nat)
    requires b.has(p, "<!--" + (body + "-->")) && LacksSeq(body, "-->") && q == p + 4 + |body|
    ensures q + 3 <= b.end && Looking(b.mem, p, "<!--") && Looking(b.mem, q, "-->")
    ensures forall k | p + 4 <= k < q :: !Looking(b.mem, k, "-->")
  {
    Split(b, p, "<!--", body + "-->");
    Split(b, p + 4, body, "-->");
    assert Has(b.mem, b.end, p, "<!--") && Has(b.mem, b.end, q, "-->");
    forall k | p + 4 <= k < q
      ensures !Looking(b.mem, k, "-->")
    {
      FirstTerminator(b, p + 4, body, "-->", k);
    }
  }

  // The last comment of a buffer ends the scan.
  lemma CommentAtEnd(b: Buffer, p: nat, q: nat)
    requires p + 4 <= q && q + 3 == b.end && Looking(b.mem, p, "<!--")
    requires forall k | p + 4 <= k < q :: !Looking(b.mem, k, "-->")
    ensures b.from(p) == b.from(q + 3)
  {
    if p + 7 < b.end {
      UnfinishedSeq(b.mem, b.end, p + 4, q, "-->");
    }
    assert ParseRound(b.mem, b.end, p) == Halt([]);
    assert From(b.mem, b.end, p) == [] == From(b.mem, b.end, q + 3);
  }

  lemma CommentSkipped(b: Buffer, p: nat, body: string)
    requires b.has(p, "<!--" + (body + "-->")) && LacksSeq(body, "-->")
    ensures b.from(p) == b.from(p + |"<!--" + (body + "-->")|)
  {
    var q := p + 4 + |body|;
    CommentParts(b, p, body, q);
    if q + 3 < b.end {
      FindSeqThrough(b.mem, b.end, p + 4, q, "-->");
      FromNext(b, p, [], q + 3);
    } else {
      CommentAtEnd(b, p, q);
    }
  }

  lemma InstructionSkipped(b: Buffer, p: nat, body: string)
    requires b.has(p, "<?" + body) && Lacks(body, '<')
    ensures b.from(p) == b.from(p + |"<?" + body|)
  {
    assert "<?" + body == "<" + ("?" + body);
    Second(b, p, "<?" + body);
    Split(b, p, "<", "?" + body);
    OneSkipped(b, p);
    TextSkipped(b, p + 1, "?" + body);
  }

  // ----- elements and documents

  // A non-empty forest starts with markup, and not with an end tag.
  lemma ForestHead(b: Buffer, p: nat, f: Forest, q: nat)
    requires ValidForest(f) && !f.Nil? && b.forest(p, f, q)
    ensures MarkupAt(b, p) && At(b.mem, p + 1) != '/'
  {
    assert ForestAt(b.mem, b.end, p, f, q);
    var s := PrintForest(f);
    assert Has(b.mem, b.end, p, s);
    ForestPrefix(f);
    Second(b, p, s);
    if s[1] == '!' {
      First(b, p, s);
      Second(b, p + 1, s[1..]);
      NotLooking(b.mem, p, "<![CDATA[", 2);
    } else {
      NotLooking(b.mem, p, "<![CDATA[", 1);
    }
  }

  lemma ForestPrefix(f: Forest)
    requires ValidForest(f) && !f.Nil?
    ensures |PrintForest(f)| > 1 && PrintForest(f)[0] == '<' && PrintForest(f)[1] != '/'
    ensures PrintForest(f)[1] == '!' ==> |PrintForest(f)| > 2 && PrintForest(f)[2] == '-'
  {
    match f
    case Element(x, _, _) =>
      OpenHead(x);
      assert Print(x) <= PrintForest(f);
    case Comment(_, _, _) => assert "<!--" <= PrintForest(f);
    case Instruction(_, _, _) => assert "<?" <= PrintForest(f);
  }

  lemma OpenHead(x: Xml)
    requires Valid(x)
    ensures |Print(x)| > 2 && Print(x)[0] == '<' && Print(x)[1] != '/' && Print(x)[1] != '!'
  {
    assert Open(x.tag)[0] == '<' && Open(x.tag)[1] == QName(x.tag)[0];
    assert Open(x.tag) <= Print(x);
  }

  lemma OpenThen(b: Buffer, p: nat, t: Tag, s: string)
    requires b.has(p, Open(t) + s) && s != ""
    ensures b.opens(p, t, p + |Open(t)|) && b.has(p + |Open(t)|, s)
    ensures p + |Open(t)| < b.end && At(b.mem, p + |Open(t)|) == s[0] && b.has(p + |Open(t)| + 1, s[1..])
  {
    Split(b, p, Open(t), s);
    First(b, p + |Open(t)|, s);
    assert Has(b.mem, b.end, p, Open(t));
    assert OpensAt(b.mem, b.end, p, t, p + |Open(t)|);
  }

  // <t>data</t> falls into its start tag, its data and its end tag.
  lemma DataParts(b: Buffer, p: nat, t: Tag, data: string, end: nat) returns (q: nat, r: nat)
    requires b.has(p, (Open(t) + (">" + data)) + Close(t)) && end == p + |(Open(t) + (">" + data)) + Close(t)|
    ensures q < b.end && b.opens(p, t, q) && At(b.mem, q) == '>' && b.has(q + 1, data)
    ensures r == q + 1 + |data| && b.closes(r, t, end)
  {
    var head := Open(t) + (">" + data);
    q := p + |Open(t)|;
    r := p + |head|;
    Split(b, p, head, Close(t));
    OpenThen(b, p, t, ">" + data);
    assert (">" + data)[1..] == data;
    assert Has(b.mem, b.end, r, Close(t));
    assert ClosesAt(b.mem, b.end, r, t, end);
  }

  lemma LeafParts(b: Buffer, p: nat, t: Tag, text: string, end: nat) returns (q: nat, r: nat)
    requires b.element(p, Leaf(t, text), end)
    ensures q < b.end && b.opens(p, t, q) && At(b.mem, q) == '>' && b.has(q + 1, text)
    ensures r == q + 1 + |text| && b.closes(r, t, end)
  {
    assert ElementAt(b.mem, b.end, p, Leaf(t, text), end);
    assert Has(b.mem, b.end, p, Print(Leaf(t, text)));
    q, r := DataParts(b, p, t, text, end);
  }

  lemma CDataElement(b: Buffer, p: nat, t: Tag, lead: string, text: string, tail: string, end: nat)
    returns (q: nat, r: nat)
    requires b.element(p, CData(t, lead, text, tail), end)
    ensures q < b.end && b.opens(p, t, q) && At(b.mem, q) == '>' && b.has(q + 1, PrintCData(lead, text, tail))
    ensures r == q + 1 + |PrintCData(lead, text, tail)| && b.closes(r, t, end)
  {
    assert ElementAt(b.mem, b.end, p, CData(t, lead, text, tail), end);
    assert Has(b.mem, b.end, p, Print(CData(t, lead, text, tail)));
    q, r := DataParts(b, p, t, PrintCData(lead, text, tail), end);
  }

  // The end tag of an element that made the callbacks inner inside.
  lemma Ended(b: Buffer, r: nat, t: Tag, end: nat, inner: seq<Callback>)
    requires ValidTag(t) && b.closes(r, t, end)
    ensures TagCallbacks(t) + (inner + b.from(r)) == (TagCallbacks(t) + (inner + [OnEnd(QName(t))])) + b.from(end)
    ensures MarkupAt(b, r) && At(b.mem, r + 1) == '/'
  {
    CloseThrough(b, r, t, end);
    Regroup(TagCallbacks(t), inner, [OnEnd(QName(t))], b.from(end));
  }

  lemma LeafThrough(b: Buffer, p: nat, t: Tag, text: string, end: nat)
    requires ValidTag(t) && Lacks(text, '<') && b.element(p, Leaf(t, text), end)
    ensures b.from(p) == Callbacks(Leaf(t, text)) + b.from(end)
  {
    var q, r := LeafParts(b, p, t, text, end);
    Ended(b, r, t, end, DataCallbacks(text));
    TextLeads(b, q + 1, text);
    OpenContent(b, p, t, q, DataCallbacks(text), r);
  }

  lemma CDataThrough(b: Buffer, p: nat, t: Tag, lead: string, text: string, tail: string, end: nat)
    requires ValidTag(t) && AllWhite(lead) && LacksSeq(text, "]]>") && Lacks(tail, '<')
    requires b.element(p, CData(t, lead, text, tail), end)
    ensures b.from(p) == Callbacks(CData(t, lead, text, tail)) + b.from(end)
  {
    var q, r := CDataElement(b, p, t, lead, text, tail, end);
    Ended(b, r, t, end, DataCallbacks(text));
    CDataLeads(b, q + 1, lead, text, tail);
    OpenContent(b, p, t, q, DataCallbacks(text), r);
  }

  lemma EmptyThrough(b: Buffer, p: nat, t: Tag, end: nat)
    requires ValidTag(t) && b.element(p, Empty(t), end)
    ensures b.from(p) == TagCallbacks(t) + b.from(end)
  {
    assert ElementAt(b.mem, b.end, p, Empty(t), end);
    assert Has(b.mem, b.end, p, Open(t) + "/>");
    OpenThen(b, p, t, "/>");
    OpenEmpty(b, p, t, p + |Open(t)|);
    TextSkipped(b, p + |Open(t)|, "/>");
  }

  lemma {:induction false} ElementThrough(b: Buffer, p: nat, x: Xml, end: nat)
    requires Valid(x) && b.element(p, x, end)
    ensures b.from(p) == Callbacks(x) + b.from(end)
    decreases x, 0
  {
    match x
    case Leaf(t, text) => LeafThrough(b, p, t, text, end);
    case CData(t, lead, text, tail) => CDataThrough(b, p, t, lead, text, tail, end);
    case Empty(t) => EmptyThrough(b, p, t, end);
    case Branch(t, lead, kids) => BranchThrough(b, p, t, lead, kids, end);
  }

  lemma {:induction false} BranchThrough(b: Buffer, p: nat, t: Tag, lead: string, kids: Forest, end: nat)
    requires ValidTag(t) && Lacks(lead, '<') && ValidForest(kids) && !kids.Nil?
    requires b.element(p, Branch(t, lead, kids), end)
    ensures b.from(p) == Callbacks(Branch(t, lead, kids)) + b.from(end)
    decreases kids, 1
  {
    var k, r := BranchStart(b, p, t, lead, kids, end);
    ForestThrough(b, k, kids, r);
    Ended(b, r, t, end, ForestCallbacks(kids));
  }

  lemma BranchStart(b: Buffer, p: nat, t: Tag, lead: string, kids: Forest, end: nat) returns (k: nat, r: nat)
    requires ValidTag(t) && Lacks(lead, '<') && ValidForest(kids) && !kids.Nil?
    requires b.element(p, Branch(t, lead, kids), end)
    ensures b.from(p) == TagCallbacks(t) + b.from(k) && b.forest(k, kids, r) && b.closes(r, t, end)
  {
    var q;
    q, k, r := BranchParts(b, p, t, lead, kids, end);
    ForestHead(b, k, kids, r);
    TextLeads(b, q + 1, lead);
    OpenContent(b, p, t, q, [], k);
    assert [] + b.from(k) == b.from(k);
  }

  // An element with markup in it falls into its start tag, the text after it, the markup and its end tag.
  lemma BranchParts(b: Buffer, p: nat, t: Tag, lead: string, kids: Forest, end: nat) returns (q: nat, k: nat, r: nat)
    requires b.element(p, Branch(t, lead, kids), end)
    ensures q < b.end && b.opens(p, t, q) && At(b.mem, q) == '>' && b.has(q + 1, lead)
    ensures k == q + 1 + |lead| && b.forest(k, kids, r) && b.closes(r, t, end)
  {
    assert ElementAt(b.mem, b.end, p, Branch(t, lead, kids), end);
    assert Has(b.mem, b.end, p, (Open(t) + (">" + lead)) + (PrintForest(kids) + Close(t)));
    q, k, r := FourParts(b, p, Open(t), lead, PrintForest(kids), Close(t));
    assert Has(b.mem, b.end, p, Open(t)) && Has(b.mem, b.end, k, PrintForest(kids)) && Has(b.mem, b.end, r, Close(t));
    assert OpensAt(b.mem, b.end, p, t, q);
    assert ForestAt(b.mem, b.end, k, kids, r) && ClosesAt(b.mem, b.end, r, t, end);
  }

  lemma FourParts(b: Buffer, p: nat, open: string, lead: string, markup: string, close: string)
    returns (q: nat, k: nat, r: nat)
    requires b.has(p, (open + (">" + lead)) + (markup + close))
    ensures q == p + |open| < b.end && b.has(p, open) && At(b.mem, q) == '>' && b.has(q + 1, lead)
    ensures k == q + 1 + |lead| && b.has(k, markup) && r == k + |markup| && b.has(r, close)
  {
    q := p + |open|;
    k := q + 1 + |lead|;
    r := k + |markup|;
    SplitThree(b, p, open + (">" + lead), markup, close);
    SplitThree(b, p, open, ">", lead);
    First(b, q, ">");
  }

  // A piece of markup with the text behind it, which is skipped.
  lemma PieceParts(b: Buffer, p: nat, piece: string, after: string, rest: Forest, end: nat) returns (q: nat)
    requires b.has(p, piece + (after + PrintForest(rest))) && Lacks(after, '<')
    requires end == p + |piece + (after + PrintForest(rest))|
    ensures b.has(p, piece) && b.from(p + |piece|) == b.from(q) && b.forest(q, rest, end)
  {
    q := p + |piece| + |after|;
    SplitThree(b, p, piece, after, PrintForest(rest));
    TextSkipped(b, p + |piece|, after);
    assert Has(b.mem, b.end, q, PrintForest(rest));
    assert ForestAt(b.mem, b.end, q, rest, end);
  }

  lemma ElementPiece(b: Buffer, p: nat, x: Xml, after: string, rest: Forest, end: nat) returns (m: nat, q: nat)
    requires b.forest(p, Element(x, after, rest), end) && Lacks(after, '<')
    ensures b.element(p, x, m) && b.from(m) == b.from(q) && b.forest(q, rest, end)
  {
    assert ForestAt(b.mem, b.end, p, Element(x, after, rest), end);
    assert Has(b.mem, b.end, p, Print(x) + (after + PrintForest(rest)));
    m := p + |Print(x)|;
    q := PieceParts(b, p, Print(x), after, rest, end);
    assert Has(b.mem, b.end, p, Print(x));
    assert ElementAt(b.mem, b.end, p, x, m);
  }

  lemma CommentPiece(b: Buffer, p: nat, body: string, after: string, rest: Forest, end: nat) returns (q: nat)
    requires b.forest(p, Comment(body, after, rest), end) && LacksSeq(body, "-->") && Lacks(after, '<')
    ensures b.from(p) == b.from(q) && b.forest(q, rest, end)
  {
    var piece := "<!--" + (body + "-->");
    assert ForestAt(b.mem, b.end, p, Comment(body, after, rest), end);
    assert Has(b.mem, b.end, p, piece + (after + PrintForest(rest)));
    q := PieceParts(b, p, piece, after, rest, end);
    CommentSkipped(b, p, body);
  }

  lemma InstructionPiece(b: Buffer, p: nat, body: string, after: string, rest: Forest, end: nat) returns (q: nat)
    requires b.forest(p, Instruction(body, after, rest), end) && Lacks(body, '<') && Lacks(after, '<')
    ensures b.from(p) == b.from(q) && b.forest(q, rest, end)
  {
    assert ForestAt(b.mem, b.end, p, Instruction(body, after, rest), end);
    assert Has(b.mem, b.end, p, ("<?" + body) + (after + PrintForest(rest)));
    q := PieceParts(b, p, "<?" + body, after, rest, end);
    InstructionSkipped(b, p, body);
  }

  lemma {:induction false} ForestThrough(b: Buffer, p: nat, f: Forest, end: nat)
    requires ValidForest(f) && b.forest(p, f, end)
    ensures b.from(p) == ForestCallbacks(f) + b.from(end)
    decreases f, 0
  {
    match f
    case Nil => assert ForestAt(b.mem, b.end, p, f, end);
    case Element(x, after, rest) =>
      var m, q := ElementPiece(b, p, x, after, rest, end);
      ElementThrough(b, p, x, m);
      ForestThrough(b, q, rest, end);
      Assoc(Callbacks(x), ForestCallbacks(rest), b.from(end));
    case Comment(body, after, rest) =>
      var q := CommentPiece(b, p, body, after, rest, end);
      ForestThrough(b, q, rest, end);
    case Instruction(body, after, rest) =>
      var q := InstructionPiece(b, p, body, after, rest, end);
      ForestThrough(b, q, rest, end);
  }

  /** For every well-formed document, and whatever bytes follow it in memory, scanning the printed document
      makes exactly the callbacks of the document, in document order. */
  lemma PrintThenParse(d: Document, mem: string, end: nat)
    requires ValidDocument(d)
    requires end <= |mem| && mem[..end] == PrintDocument(d)
    ensures Parsed(mem, end) == ForestCallbacks(d.content)
  {
    var s := PrintDocument(d);
    var b: Buffer := ViewOf(mem, end);
    forall k | 0 <= k < |s|
      ensures At(mem, 0 + k) == s[k]
    {
      assert mem[..end][k] == s[k];
    }
    assert Has(mem, end, 0, s);
    Split(b, 0, d.lead, PrintForest(d.content));
    TextSkipped(b, 0, d.lead);
    assert Has(mem, end, |d.lead|, PrintForest(d.content));
    assert ForestAt(mem, end, |d.lead|, d.content, end);
    ForestThrough(b, |d.lead|, d.content, end);
    assert From(mem, end, end) == [];
  }
}
