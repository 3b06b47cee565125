/** Attribute values without quotes: when the scanner reads them as they are meant. */
module XmlUnquoted {
  import opened Seqs
  import opened MiniXml
  import opened XmlTree
  import opened XmlRoundTrip

  // A value as it may stand without quotes: neither begun by a quote nor interrupted by white space.
  predicate RawValue(s: string) {
    (s != "" ==> !IsQuote(s[0])) && forall k | 0 <= k < |s| :: !IsBlank(s[k])
  }

  // What the scanner takes of it.
  function Taken(s: string): (u: string)
    ensures u <= s && (forall k | 0 <= k < |u| :: !EndsName(u[k])) && (u != s ==> EndsName(s[|u|]))
  {
    if s == "" || EndsName(s[0]) then "" else [s[0]] + Taken(s[1..])
  }

  predicate PlainHead(a: Att) {
    AttName(a.name) && AllWhite(a.gap1) && AllWhite(a.gap2)
  }

  // The attribute from p on is read with the value u, and the list goes on behind the byte q that ended it.
  predicate ReadsAs(b: Buffer, p: nat, name: string, u: string, q: nat) {
    && ParseAtt(b.mem, b.end, p).at == ParseAtt(b.mem, b.end, q + 1).at
    && ReadAll(b.mem, ParseAtt(b.mem, b.end, p).events) ==
       [OnAtt(name, u)] + ReadAll(b.mem, ParseAtt(b.mem, b.end, q + 1).events)
  }

  lemma UnquotedScan(b: Buffer, p: nat, a: Att, v: nat, u: string)
    requires PlainHead(a) && v == p + |Head(a)| && b.has(p, Head(a)) && b.has(v, u)
    requires NotWhiteSpace(At(b.mem, v)) && !IsQuote(At(b.mem, v)) && forall k | 0 <= k < |u| :: !EndsName(u[k])
    requires v + |u| < b.end && EndsName(At(b.mem, v + |u|))
    ensures ScanAtt(b.mem, b.end, p).AttSpan? && ScanAtt(b.mem, b.end, p).pos == v + |u|
    ensures Read(b.mem, ScanAtt(b.mem, b.end, p).event) == OnAtt(a.name, u) && At(b.mem, p) == a.name[0] && p < b.end
  {
    UnquotedValue(b, p, p + |a.name|, v, u);
    ScanWithValue(b, p, a.name, a.gap1, a.gap2, v, v + |u|, u);
  }

  // The byte behind a value without quotes is skipped, whatever it is.
  lemma UnquotedRead(b: Buffer, p: nat, a: Att, v: nat, u: string)
    requires PlainHead(a) && v == p + |Head(a)| && b.has(p, Head(a)) && b.has(v, u)
    requires NotWhiteSpace(At(b.mem, v)) && !IsQuote(At(b.mem, v)) && forall k | 0 <= k < |u| :: !EndsName(u[k])
    requires v + |u| < b.end && EndsName(At(b.mem, v + |u|))
    ensures ReadsAs(b, p, a.name, u, v + |u|)
  {
    UnquotedScan(b, p, a, v, u);
    NameStarts(b.mem, b.end, p, a.name);
    AttRead(b.mem, b.end, p, ScanAtt(b.mem, b.end, p).event, v + |u|);
  }

  // White space up to the end of a tag, from q on, read without its first byte.
  lemma WhiteThenEnd(b: Buffer, q: nat, white: string, c: char)
    requires AllWhite(white) && (c == '>' || c == '/') && b.has(q, white + [c])
    ensures white == "" ==> ParseAtt(b.mem, b.end, q + 1).at != Go(q)
    ensures white != "" ==> ParseAtt(b.mem, b.end, q + 1) == AttRun([], Go(q + |white|))
    ensures q < b.end && EndsName(At(b.mem, q))
  {
    Split(b, q, white, [c]);
    First(b, q + |white|, [c]);
    if white != "" {
      First(b, q, white);
      PadThrough(b, q + 1, white[1..]);
    }
  }

  // The list from p on is read as the attributes cs and ends at e.
  predicate Meant(b: Buffer, p: nat, cs: seq<Callback>, e: nat) {
    ParseAtt(b.mem, b.end, p).at == Go(e) && ReadAll(b.mem, ParseAtt(b.mem, b.end, p).events) == cs
  }

  // A value with a '/' or '>' in it is cut there.
  lemma CutValue(b: Buffer, p: nat, a: Att, rest: string)
    requires PlainHead(a) && RawValue(a.value) && Taken(a.value) != a.value
    requires b.has(p, Head(a) + (a.value + rest))
    ensures forall e: nat :: !Meant(b, p, [OnAtt(a.name, a.value)], e)
  {
    var v, u := p + |Head(a)|, Taken(a.value);
    SplitThree(b, p, Head(a), a.value, rest);
    First(b, v, a.value);
    assert a.value == u + a.value[|u|..];
    Split(b, v, u, a.value[|u|..]);
    First(b, v + |u|, a.value[|u|..]);
    UnquotedRead(b, p, a, v, u);
    assert ReadAll(b.mem, ParseAtt(b.mem, b.end, p).events)[0] == OnAtt(a.name, u);
  }

  // An empty value takes the end of the tag with it.
  lemma EmptyValue(b: Buffer, p: nat, a: Att, white: string, c: char)
    requires PlainHead(a) && AllWhite(white) && (c == '>' || c == '/') && b.has(p, Head(a) + (white + [c]))
    ensures ParseAtt(b.mem, b.end, p).at != Go(p + |Head(a)| + |white|)
  {
    var d := a.(gap2 := a.gap2 + white);
    var v := p + |Head(d)|;
    assert Head(d) == Head(a) + white;
    Assoc(Head(a), white, [c]);
    Split(b, p, Head(d), [c]);
    First(b, v, [c]);
    assert Has(b.mem, b.end, v, "");
    UnquotedRead(b, p, d, v, "");
  }

  lemma PlainValueIff(b: Buffer, p: nat, a: Att, white: string, c: char, e: nat)
    requires PlainHead(a) && RawValue(a.value) && a.value != "" && Taken(a.value) == a.value
    requires AllWhite(white) && (c == '>' || c == '/') && b.has(p, Head(a) + (a.value + (white + [c])))
    requires e == p + |Head(a)| + |a.value| + |white|
    ensures Meant(b, p, [OnAtt(a.name, a.value)], e) <==> white != ""
  {
    var v := p + |Head(a)|;
    SplitThree(b, p, Head(a), a.value, white + [c]);
    First(b, v, a.value);
    WhiteThenEnd(b, v + |a.value|, white, c);
    UnquotedRead(b, p, a, v, a.value);
  }

  // The condition on a value and the white space behind it.
  predicate ReadWhole(value: string, white: string) {
    value != "" && Lacks(value, '/') && Lacks(value, '>') && white != ""
  }

  lemma TakenWhole(s: string)
    requires RawValue(s)
    ensures Taken(s) == s <==> Lacks(s, '/') && Lacks(s, '>')
  {
  }

  // The last attribute of a list.
  lemma LastIff(b: Buffer, p: nat, a: Att, white: string, c: char, e: nat)
    requires PlainHead(a) && RawValue(a.value) && AllWhite(white) && (c == '>' || c == '/')
    requires b.has(p, Head(a) + (a.value + (white + [c]))) && e == p + |Head(a)| + |a.value| + |white|
    ensures Meant(b, p, [OnAtt(a.name, a.value)], e) <==> ReadWhole(a.value, white)
  {
    TakenWhole(a.value);
    if a.value == "" {
      assert a.value + (white + [c]) == white + [c];
      EmptyValue(b, p, a, white, c);
    } else if Taken(a.value) == a.value {
      PlainValueIff(b, p, a, white, c, e);
    } else {
      CutValue(b, p, a, white + [c]);
    }
  }

  /** An attribute list, of valid attributes and a last one without quotes, is read as it is meant and ends at the '>'
      or '/' that ends the tag exactly when the last value is not empty, has neither of these in it and is followed by
      white space. */
  lemma {:induction false} UnquotedIff(b: Buffer, p: nat, atts: seq<Att>, a: Att, white: string, c: char, e: nat)
    requires (forall k | 0 <= k < |atts| :: ValidAtt(atts[k])) && AllWhite(a.pad) && PlainHead(a) && RawValue(a.value)
    requires AllWhite(white) && (c == '>' || c == '/')
    requires b.has(p, PrintAtts(atts, a.pad) + (Head(a) + (a.value + (white + [c]))))
    requires e == p + |PrintAtts(atts, a.pad)| + |Head(a)| + |a.value| + |white|
    ensures Meant(b, p, AttCallbacks(atts) + [OnAtt(a.name, a.value)], e) <==> ReadWhole(a.value, white)
    decreases |atts|
  {
    var tail := Head(a) + (a.value + (white + [c]));
    if atts == [] {
      Split(b, p, a.pad, tail);
      PadThrough(b, p, a.pad);
      LastIff(b, p + |a.pad|, a, white, c, e);
      assert AttCallbacks(atts) + [OnAtt(a.name, a.value)] == [OnAtt(a.name, a.value)];
    } else {
      var rest := PrintAtts(atts[1..], a.pad);
      Regroup(atts[0].pad, Bare(atts[0]), rest, tail);
      var q := AttThenRest(b, p, atts[0], rest + tail);
      UnquotedIff(b, q, atts[1..], a, white, c, e);
      ConsMeant(b, p, q, OnAtt(atts[0].name, atts[0].value), AttCallbacks(atts[1..]), OnAtt(a.name, a.value), e);
    }
  }

  lemma ConsMeant(b: Buffer, p: nat, q: nat, first: Callback, cs: seq<Callback>, last: Callback, e: nat)
    requires ParseAtt(b.mem, b.end, p).at == ParseAtt(b.mem, b.end, q).at
    requires ReadAll(b.mem, ParseAtt(b.mem, b.end, p).events) ==
             [first] + ReadAll(b.mem, ParseAtt(b.mem, b.end, q).events)
    ensures Meant(b, p, ([first] + cs) + [last], e) <==> Meant(b, q, cs + [last], e)
  {
    var xs := ReadAll(b.mem, ParseAtt(b.mem, b.end, q).events);
    Assoc([first], cs, [last]);
    assert ([first] + xs)[1..] == xs && ([first] + (cs + [last]))[1..] == cs + [last];
  }

  // ----- failing inputs

  lemma TagAndAtt(mem: string, end: nat, att: Event)
    requires 2 < end <= |mem| && mem[0] == '<' && mem[1] == 'a' && ScanName(mem, end, 1, 1) == Name(1, 2)
    requires ParseAtt(mem, end, 2) == AttRun([att], Stop)
    ensures Parsed(mem, end) == [OnStart("a"), Read(mem, att)]
  {
    NotLooking(mem, 0, "<!--", 1);
    assert ParseRound(mem, end, 0) == Halt([StartElt(1, 2)] + [att]);
    assert Events(mem, end, 0) == [StartElt(1, 2)] + [att];
    ReadStart(mem, 1, 2, [att]);
    assert Slice(mem, 1, 2) == "a";
    assert ReadAll(mem, [att]) == [Read(mem, att)];
  }

  lemma NoEqualsScans(mem: string)
    requires mem == "<a b=c>d</a>"
    ensures ScanAtt(mem, 12, 7) == AttStop
  {
    assert Find(mem, 11, 12, EndsAttName) == Stop;
    assert Find(mem, 10, 12, EndsAttName) == Stop;
    assert Find(mem, 9, 12, EndsAttName) == Stop;
    assert Find(mem, 8, 12, EndsAttName) == Stop;
  }

  /** Without white space behind the value, the tag's '>' is lost with what follows it. */
  lemma SwallowsEnd(mem: string)
    requires mem == "<a b=c>d</a>"
    ensures Parsed(mem, |mem|) == [OnStart("a"), OnAtt("b", "c")]
  {
    NoEqualsScans(mem);
    var att := Attribute(3, 4, 5, 6);
    assert Find(mem, 3, 12, EndsAttName) == Go(4);
    assert Find(mem, 5, 12, EndsName) == Find(mem, 6, 12, EndsName) == Go(6);
    assert ScanAtt(mem, 12, 3) == AttSpan(att, 6);
    assert ParseAtt(mem, 12, 7) == AttRun([], Stop);
    assert ParseAtt(mem, 12, 2) == ParseAtt(mem, 12, 3) == AttRun([att], Stop);
    assert Slice(mem, 3, 4) == "b" && Slice(mem, 5, 6) == "c";
    TagAndAtt(mem, 12, att);
  }

  lemma SlashScans(mem: string)
    requires mem == "<a b=c/d >e</a>"
    ensures ScanAtt(mem, 15, 7) == AttStop
  {
    assert Find(mem, 14, 15, IsEquals) == Stop;
    assert Find(mem, 13, 15, IsEquals) == Stop;
    assert Find(mem, 12, 15, IsEquals) == Stop;
    assert Find(mem, 11, 15, IsEquals) == Stop;
    assert Find(mem, 10, 15, IsEquals) == Stop;
    assert Find(mem, 9, 15, IsEquals) == Stop;
    assert Find(mem, 7, 15, EndsAttName) == Find(mem, 8, 15, EndsAttName) == Go(8);
  }

  /** A '/' in the value cuts it, and what follows loses the end of the tag. */
  lemma SlashCuts(mem: string)
    requires mem == "<a b=c/d >e</a>"
    ensures Parsed(mem, |mem|) == [OnStart("a"), OnAtt("b", "c")]
  {
    SlashScans(mem);
    var att := Attribute(3, 4, 5, 6);
    assert Find(mem, 3, 15, EndsAttName) == Go(4);
    assert Find(mem, 5, 15, EndsName) == Find(mem, 6, 15, EndsName) == Go(6);
    assert ScanAtt(mem, 15, 3) == AttSpan(att, 6);
    assert ParseAtt(mem, 15, 7) == AttRun([], Stop);
    assert ParseAtt(mem, 15, 2) == ParseAtt(mem, 15, 3) == AttRun([att], Stop);
    assert Slice(mem, 3, 4) == "b" && Slice(mem, 5, 6) == "c";
    TagAndAtt(mem, 15, att);
  }
}
