/** The callback-driven XML scanner of minixml.c.
    `mem` is the memory the scanner can see and `mem[..end]` the buffer it was given; the bytes from
    `end` on are whatever happens to follow the buffer.  Callbacks are recorded as a list of events that
    carry offsets into the memory, exactly as the C callbacks carry pointers. */
module MiniXml {
  import opened Seqs

  predicate IsWhiteSpace(c: char) {
    c == ' ' || c == '\t' || c == '\r' || c == '\n'
  }

  predicate NotWhiteSpace(c: char) { !IsWhiteSpace(c) }

  predicate IsLt(c: char) { c == '<' }

  predicate IsGt(c: char) { c == '>' }

  predicate IsEquals(c: char) { c == '=' }

  predicate EndsName(c: char) { IsWhiteSpace(c) || c == '>' || c == '/' }

  predicate EndsAttName(c: char) { c == '=' || IsWhiteSpace(c) }

  // One byte of memory; beyond the modelled memory every byte reads as NUL.
  function At(mem: string, p: nat): char {
    if p < |mem| then mem[p] else '\0'
  }

  // memcmp(p, s, |s|) == 0
  predicate Looking(mem: string, p: nat, s: string) {
    forall k | 0 <= k < |s| :: At(mem, p + k) == s[k]
  }

  datatype Event =
    | StartElt(lo: nat, hi: nat)
    | Attribute(lo: nat, hi: nat, vlo: nat, vhi: nat)
    | Text(lo: nat, hi: nat)
    | EndElt(lo: nat, hi: nat)

  // The cursor after a scan, or Stop when the scan ran into the end of the buffer.
  datatype Scan = Stop | Go(pos: nat)

  /** Move on until a byte stops the scan; give up at the limit. */
  function Find(mem: string, p: nat, lim: nat, stop: char -> bool): (r: Scan)
    ensures r.Go? ==> p <= r.pos && stop(At(mem, r.pos)) && (r.pos == p || r.pos < lim)
    decreases if p < lim then lim - p else 0
  {
    if stop(At(mem, p)) then Go(p)
    else if p + 1 >= lim then Stop
    else Find(mem, p + 1, lim, stop)
  }

  /** Move on until the text is met; give up when three bytes or fewer are left. */
  function FindSeq(mem: string, p: nat, end: nat, s: string): (r: Scan)
    ensures r.Go? ==> p <= r.pos && Looking(mem, r.pos, s) && (r.pos == p || r.pos + 3 < end)
    decreases if p < end then end - p else 0
  {
    if Looking(mem, p, s) then Go(p)
    else if p + 4 >= end then Stop
    else FindSeq(mem, p + 1, end, s)
  }

  // Where an element name starts and the byte that ended it.
  datatype NameScan = NameStop | Name(lo: nat, hi: nat)

  /** The element-name loop: a ':' restarts the name after itself, so a namespace prefix is dropped. */
  function ScanName(mem: string, end: nat, p: nat, start: nat): (r: NameScan)
    requires start <= p <= end
    requires p == end ==> start == p
    ensures r.Name? ==> start <= r.lo <= r.hi <= end && p <= r.hi && EndsName(At(mem, r.hi))
    ensures r.Name? && r.lo < r.hi ==> r.hi < end
    decreases end - p
  {
    if EndsName(At(mem, p)) then Name(start, p)
    else if p + 1 >= end then NameStop
    else if At(mem, p + 1) == ':' then ScanName(mem, end, p + 2, p + 2)
    else ScanName(mem, end, p + 1, start)
  }

  // What the attribute list reported, and where its loop stood when it returned 0 (Go) or -1 (Stop).
  datatype AttRun = AttRun(events: seq<Event>, at: Scan)

  // One attribute from its first byte: the event and the byte its value ended on.
  datatype AttScan = AttStop | AttSpan(event: Event, pos: nat)

  function ScanAttValue(mem: string, end: nat, nameLo: nat, nameHi: nat, v: nat): (r: AttScan)
    requires nameLo <= nameHi < v <= end
    ensures r.AttSpan? ==>
            r.event.Attribute? && r.event.lo == nameLo && r.event.hi == nameHi &&
            v <= r.event.vlo <= r.event.vhi == r.pos <= end
  {
    var sep := At(mem, v);
    if sep == '\'' || sep == '\"' then
      if v + 1 >= end then AttStop
      else
        match Find(mem, v + 1, end, c => c == sep)
        case Stop => AttStop
        case Go(q) => AttSpan(Attribute(nameLo, nameHi, v + 1, q), q)
    else
      match Find(mem, v, end, EndsName)
      case Stop => AttStop
      case Go(q) => AttSpan(Attribute(nameLo, nameHi, v, q), q)
  }

  function ScanAtt(mem: string, end: nat, p: nat): (r: AttScan)
    requires p < end
    ensures r.AttSpan? ==>
            r.event.Attribute? && p == r.event.lo <= r.event.hi < r.event.vlo <= r.event.vhi == r.pos <= end
  {
    match Find(mem, p, end, EndsAttName)
    case Stop => AttStop
    case Go(hi) =>
      match Find(mem, hi, end, IsEquals)
      case Stop => AttStop
      case Go(eq) =>
        match Find(mem, eq + 1, end, NotWhiteSpace)
        case Stop => AttStop
        case Go(v) => ScanAttValue(mem, end, p, hi, v)
  }

  /** parseatt */
  function ParseAtt(mem: string, end: nat, p: nat): (r: AttRun)
    ensures r.at.Go? ==> p <= r.at.pos < end && (At(mem, r.at.pos) == '/' || At(mem, r.at.pos) == '>')
    decreases if p < end then end - p else 0
  {
    if p >= end then AttRun([], Stop)
    else if At(mem, p) == '/' || At(mem, p) == '>' then AttRun([], Go(p))
    else if IsWhiteSpace(At(mem, p)) then ParseAtt(mem, end, p + 1)
    else
      match ScanAtt(mem, end, p)
      case AttStop => AttRun([], Stop)
      case AttSpan(e, q) =>
        var rest := ParseAtt(mem, end, q + 1);
        AttRun([e] + rest.events, rest.at)
  }

  // The scans that make up that of one attribute.
  lemma AttIs(mem: string, end: nat, p: nat, hi: nat, eq: nat, v: nat)
    requires p < end && Find(mem, p, end, EndsAttName) == Go(hi) && Find(mem, hi, end, IsEquals) == Go(eq)
    requires Find(mem, eq + 1, end, NotWhiteSpace) == Go(v)
    ensures v <= end && ScanAtt(mem, end, p) == ScanAttValue(mem, end, p, hi, v)
  {
  }

  predicate AtAttribute(mem: string, end: nat, p: nat) {
    p < end && At(mem, p) != '/' && At(mem, p) != '>' && !IsWhiteSpace(At(mem, p))
  }

  // One attribute, and the list behind the byte that ended it.
  lemma AttsStep(mem: string, end: nat, p: nat, e: Event, q: nat)
    requires AtAttribute(mem, end, p) && ScanAtt(mem, end, p) == AttSpan(e, q)
    ensures var r := ParseAtt(mem, end, q + 1); ParseAtt(mem, end, p) == AttRun([e] + r.events, r.at)
  {
  }

  // What one round of the outer loop reported, and whether parseelt returned or goes on at p.
  datatype Round = Halt(events: seq<Event>) | Next(events: seq<Event>, pos: nat)

  /** The character data that follows the '>' of a start tag; `d` is the byte after it. */
  function ParseContent(mem: string, end: nat, d: nat): (r: Round)
    ensures r.Next? ==> d <= r.pos
  {
    if d >= end then Halt([])
    else
      match Find(mem, d, end, NotWhiteSpace)
      case Stop => Halt([])
      case Go(w) =>
        if Looking(mem, w, "<![CDATA[") then
          match FindSeq(mem, w + 9, end, "]]>")
          case Stop => Halt([])
          case Go(q) =>
            var evs := if w + 9 < q then [Text(w + 9, q)] else [];
            (match Find(mem, q, end, IsLt)
             case Stop => Halt(evs)
             case Go(t) => Next(evs, t))
        else
          match Find(mem, w, end - 1, IsLt)
          case Stop => Halt([])
          case Go(t) => Next(if d < t && At(mem, t + 1) == '/' then [Text(d, t)] else [], t)
  }

  /** A start tag whose name is mem[lo..hi]. */
  function ParseStart(mem: string, end: nat, lo: nat, hi: nat): (r: Round)
    requires lo < hi < end
    ensures r.Next? ==> hi <= r.pos
  {
    var atts := ParseAtt(mem, end, hi);
    var evs := [StartElt(lo, hi)] + atts.events;
    if atts.at.Stop? then Halt(evs)
    else if At(mem, atts.at.pos) == '/' then Next(evs, atts.at.pos)
    else
      match ParseContent(mem, end, atts.at.pos + 1)
      case Halt(es) => Halt(evs + es)
      case Next(es, q) => Next(evs + es, q)
  }

  /** An end tag; `d` is the byte after "</". */
  function ParseEnd(mem: string, end: nat, d: nat): (r: Round)
    ensures r.Next? ==> d < r.pos
  {
    if d >= end then Halt([])
    else
      match Find(mem, d, end, IsGt)
      case Stop => Halt([])
      case Go(q) => Next([EndElt(d, q)], q + 1)
  }

  /** One round of the while loop of parseelt. */
  function ParseRound(mem: string, end: nat, p: nat): (r: Round)
    requires p + 1 < end
    ensures r.Next? ==> p < r.pos
  {
    if p + 4 <= end && Looking(mem, p, "<!--") then
      if p + 7 >= end then Halt([])
      else
        match FindSeq(mem, p + 4, end, "-->")
        case Stop => Halt([])
        case Go(q) => Next([], q + 3)
    else if At(mem, p) == '<' && At(mem, p + 1) != '?' then
      match ScanName(mem, end, p + 1, p + 1)
      case NameStop => Halt([])
      case Name(lo, hi) =>
        if lo < hi then ParseStart(mem, end, lo, hi)
        else if At(mem, hi) == '/' then ParseEnd(mem, end, hi + 1)
        else Next([], hi)
    else Next([], p + 1)
  }

  /** All events parseelt reports from cursor p on. */
  function Events(mem: string, end: nat, p: nat): (evs: seq<Event>)
    decreases if p < end then end - p else 0
  {
    if p + 1 >= end then []
    else
      match ParseRound(mem, end, p)
      case Halt(evs) => evs
      case Next(evs, q) => evs + Events(mem, end, q)
  }

  // ----- every reported span lies in the buffer, and spans come disjoint and in increasing order

  // The event's spans lie strictly above `after` and end at or below `end`.
  predicate SpansFrom(e: Event, after: int, end: nat) {
    && after < e.lo <= e.hi <= end
    && (e.Attribute? ==> e.hi < e.vlo <= e.vhi <= end)
  }

  function LastByte(e: Event): nat {
    if e.Attribute? then e.vhi else e.hi
  }

  predicate InOrder(evs: seq<Event>, after: int, end: nat) {
    evs != [] ==> SpansFrom(evs[0], after, end) && InOrder(evs[1..], LastByte(evs[0]), end)
  }

  lemma {:induction false} InOrderWeaken(evs: seq<Event>, a: int, b: int, end: nat)
    requires InOrder(evs, a, end) && b <= a
    ensures InOrder(evs, b, end)
  {
  }

  lemma {:induction false} InOrderConcat(xs: seq<Event>, ys: seq<Event>, after: int, end: nat, mid: int)
    requires InOrder(xs, after, end) && InOrder(ys, mid, end) && after <= mid
    requires forall e | e in xs :: LastByte(e) <= mid
    ensures InOrder(xs + ys, after, end)
  {
    if xs == [] {
      assert xs + ys == ys;
      InOrderWeaken(ys, mid, after, end);
    } else {
      assert (xs + ys)[1..] == xs[1..] + ys;
      InOrderConcat(xs[1..], ys, LastByte(xs[0]), end, mid);
    }
  }

  lemma {:induction false} AttSpans(mem: string, end: nat, p: nat, after: int)
    requires after <= p && (p == after ==> p >= end || EndsName(At(mem, p)))
    ensures InOrder(ParseAtt(mem, end, p).events, after, end)
    ensures ParseAtt(mem, end, p).at.Go? ==>
      forall e | e in ParseAtt(mem, end, p).events :: LastByte(e) <= ParseAtt(mem, end, p).at.pos
    decreases if p < end then end - p else 0
  {
    if p >= end || At(mem, p) == '/' || At(mem, p) == '>' {
    } else if IsWhiteSpace(At(mem, p)) {
      AttSpans(mem, end, p + 1, after);
    } else {
      match ScanAtt(mem, end, p)
      case AttStop =>
      case AttSpan(e, q) => AttSpans(mem, end, q + 1, q);
    }
  }

  lemma ContentSpans(mem: string, end: nat, d: nat)
    ensures InOrder(ParseContent(mem, end, d).events, d as int - 1, end)
    ensures ParseContent(mem, end, d).Next? ==>
      forall e | e in ParseContent(mem, end, d).events :: LastByte(e) <= ParseContent(mem, end, d).pos
  {
  }

  lemma TagSpans(mem: string, end: nat, lo: nat, hi: nat, p: nat)
    requires p < lo < hi < end && EndsName(At(mem, hi))
    ensures InOrder([StartElt(lo, hi)] + ParseAtt(mem, end, hi).events, p, end)
    ensures ParseAtt(mem, end, hi).at.Go? ==>
      forall e | e in [StartElt(lo, hi)] + ParseAtt(mem, end, hi).events :: LastByte(e) <= ParseAtt(mem, end, hi).at.pos
  {
    AttSpans(mem, end, hi, hi);
    assert ([StartElt(lo, hi)] + ParseAtt(mem, end, hi).events)[1..] == ParseAtt(mem, end, hi).events;
  }

  lemma StartSpans(mem: string, end: nat, lo: nat, hi: nat, p: nat)
    requires p < lo < hi < end && EndsName(At(mem, hi))
    ensures InOrder(ParseStart(mem, end, lo, hi).events, p, end)
    ensures ParseStart(mem, end, lo, hi).Next? ==>
      forall e | e in ParseStart(mem, end, lo, hi).events :: LastByte(e) <= ParseStart(mem, end, lo, hi).pos
  {
    TagSpans(mem, end, lo, hi, p);
    var at := ParseAtt(mem, end, hi).at;
    if at.Go? && At(mem, at.pos) != '/' {
      ContentSpans(mem, end, at.pos + 1);
      InOrderConcat([StartElt(lo, hi)] + ParseAtt(mem, end, hi).events, ParseContent(mem, end, at.pos + 1).events, p,
        end, at.pos);
    }
  }

  lemma RoundSpans(mem: string, end: nat, p: nat)
    requires p + 1 < end
    ensures InOrder(ParseRound(mem, end, p).events, p, end)
    ensures ParseRound(mem, end, p).Next? ==>
      forall e | e in ParseRound(mem, end, p).events :: LastByte(e) <= ParseRound(mem, end, p).pos
  {
    var name := ScanName(mem, end, p + 1, p + 1);
    if name.Name? && name.lo < name.hi {
      StartSpans(mem, end, name.lo, name.hi, p);
    }
  }

  lemma {:induction false} EventSpans(mem: string, end: nat, p: nat)
    ensures InOrder(Events(mem, end, p), p, end)
    decreases if p < end then end - p else 0
  {
    if p + 1 < end {
      RoundSpans(mem, end, p);
      var r := ParseRound(mem, end, p);
      if r.Next? {
        EventSpans(mem, end, r.pos);
        InOrderConcat(r.events, Events(mem, end, r.pos), p, end, r.pos);
      }
    }
  }

  lemma {:induction false} InOrderIndexed(evs: seq<Event>, after: int, end: nat, i: nat, j: nat)
    requires InOrder(evs, after, end) && i <= j < |evs|
    ensures SpansFrom(evs[i], after, end)
    ensures i < j ==> LastByte(evs[i]) < evs[j].lo
    decreases j
  {
    if j > 0 {
      InOrderIndexed(evs[1..], LastByte(evs[0]), end, if i == 0 then j - 1 else i - 1, j - 1);
    }
  }

  /** For every memory and every buffer length: every span the scan reports lies inside the buffer, and
      all the spans are disjoint and in increasing order. */
  lemma EventSpansDisjoint(mem: string, end: nat)
    ensures forall i | 0 <= i < |Events(mem, end, 0)| :: SpansFrom(Events(mem, end, 0)[i], 0, end)
    ensures forall i, j | 0 <= i < j < |Events(mem, end, 0)| ::
      LastByte(Events(mem, end, 0)[i]) < Events(mem, end, 0)[j].lo
  {
    var evs := Events(mem, end, 0);
    EventSpans(mem, end, 0);
    forall i | 0 <= i < |evs|
      ensures SpansFrom(evs[i], 0, end)
    {
      InOrderIndexed(evs, 0, end, i, i);
    }
    forall i, j | 0 <= i < j < |evs|
      ensures LastByte(evs[i]) < evs[j].lo
    {
      InOrderIndexed(evs, 0, end, i, j);
    }
  }

  // ----- the scanner itself

  /** struct xmlparser: the cursor `xml` moves through the buffer and callbacks append to `events`. */
  class Parser {
    const mem: string
    const xmlend: nat
    var xml: nat
    var events: seq<Event>

    constructor (mem: string, size: nat)
      ensures this.mem == mem && xmlend == size && xml == 0 && events == []
    {
      this.mem, this.xmlend := mem, size;
      xml, events := 0, [];
    }

    // The scanning loops of parseatt and parseelt all have this shape.
    method SkipUntil(stop: char -> bool, lim: nat) returns (found: bool)
      modifies this`xml
      ensures Find(mem, old(xml), lim, stop) == if found then Go(xml) else Stop
    {
      while !stop(At(mem, xml))
        invariant Find(mem, xml, lim, stop) == Find(mem, old(xml), lim, stop)
        decreases if xml < lim then lim - xml else 0
      {
        xml := xml + 1;
        if xml >= lim {
          return false;
        }
      }
      return true;
    }

    method SkipUntilSeq(s: string) returns (found: bool)
      modifies this`xml
      ensures FindSeq(mem, old(xml), xmlend, s) == if found then Go(xml) else Stop
    {
      while !Looking(mem, xml, s)
        invariant FindSeq(mem, xml, xmlend, s) == FindSeq(mem, old(xml), xmlend, s)
        decreases if xml < xmlend then xmlend - xml else 0
      {
        xml := xml + 1;
        if xml + 3 >= xmlend {
          return false;
        }
      }
      return true;
    }

    /** The value of an attribute whose name is mem[lo..hi]. */
    method AttValue(lo: nat, hi: nat) returns (ok: bool)
      requires lo <= hi < xml <= xmlend
      modifies this
      ensures ok == ScanAttValue(mem, xmlend, lo, hi, old(xml)).AttSpan?
      ensures ok ==> xml == ScanAttValue(mem, xmlend, lo, hi, old(xml)).pos
      ensures events == old(events) + if ok then [ScanAttValue(mem, xmlend, lo, hi, old(xml)).event] else []
    {
      var sep := At(mem, xml);
      var attvalue := xml;
      if sep == '\'' || sep == '\"' {
        xml := xml + 1;
        if xml >= xmlend { return false; }
        attvalue := xml;
        ok := SkipUntil(c => c == sep, xmlend);
      } else {
        ok := SkipUntil(EndsName, xmlend);
      }
      if ok {
        events := events + [Attribute(lo, hi, attvalue, xml)];
      }
    }

    /** One attribute, from the first byte of its name to the byte that ends its value. */
    method OneAtt() returns (ok: bool)
      requires xml < xmlend
      modifies this
      ensures ok == ScanAtt(mem, xmlend, old(xml)).AttSpan?
      ensures ok ==> xml == ScanAtt(mem, xmlend, old(xml)).pos
      ensures events == old(events) + if ok then [ScanAtt(mem, xmlend, old(xml)).event] else []
    {
      var attname := xml;
      ok := SkipUntil(EndsAttName, xmlend);
      if !ok { return; }
      var attend := xml;
      ok := SkipUntil(IsEquals, xmlend);
      if !ok { return; }
      xml := xml + 1;
      ok := SkipUntil(NotWhiteSpace, xmlend);
      if !ok { return; }
      ok := AttValue(attname, attend);
    }

    // One turn of the loop of parseatt, as a step of `ParseAtt`.
    method AttTurn() returns (ok: bool, ghost reported: seq<Event>)
      requires xml < xmlend && At(mem, xml) != '/' && At(mem, xml) != '>'
      modifies this
      ensures ok ==> old(xml) < xml
      ensures events == old(events) + reported
      ensures ParseAtt(mem, xmlend, old(xml)) ==
              if ok then AttRun(reported + ParseAtt(mem, xmlend, xml).events, ParseAtt(mem, xmlend, xml).at)
              else AttRun(reported, Stop)
    {
      ok, reported := true, [];
      if !IsWhiteSpace(At(mem, xml)) {
        ghost var att := ScanAtt(mem, xmlend, xml);
        ok := OneAtt();
        if !ok { return; }
        reported := [att.event];
      }
      xml := xml + 1;
    }

    /** parseatt; true when it returned 0, with the cursor on the '/' or '>' that ends the list. */
    method Attributes() returns (ok: bool)
      modifies this
      ensures ok == ParseAtt(mem, xmlend, old(xml)).at.Go?
      ensures ok ==> xml == ParseAtt(mem, xmlend, old(xml)).at.pos
      ensures events == old(events) + ParseAtt(mem, xmlend, old(xml)).events
    {
      ghost var all, done := ParseAtt(mem, xmlend, xml), [];
      while xml < xmlend
        invariant events == old(events) + done
        invariant all == AttRun(done + ParseAtt(mem, xmlend, xml).events, ParseAtt(mem, xmlend, xml).at)
        decreases if xml < xmlend then xmlend - xml else 0
      {
        if At(mem, xml) == '/' || At(mem, xml) == '>' {
          return true;
        }
        var more;
        ghost var reported;
        more, reported := AttTurn();
        Assoc(old(events), done, reported);
        Assoc(done, reported, ParseAtt(mem, xmlend, xml).events);
        done := done + reported;
        if !more { return false; }
      }
      return false;
    }

    /** The character data after a start tag; true when the outer loop goes on. */
    method Content() returns (more: bool)
      modifies this
      ensures more == ParseContent(mem, xmlend, old(xml)).Next?
      ensures more ==> xml == ParseContent(mem, xmlend, old(xml)).pos
      ensures events == old(events) + ParseContent(mem, xmlend, old(xml)).events
    {
      var data := xml;
      if xml >= xmlend { return false; }
      more := SkipUntil(NotWhiteSpace, xmlend);
      if !more { return; }
      if Looking(mem, xml, "<![CDATA[") {
        xml := xml + 9;
        data := xml;
        more := SkipUntilSeq("]]>");
        if !more { return; }
        if data < xml {
          events := events + [Text(data, xml)];
        }
        more := SkipUntil(IsLt, xmlend);
      } else {
        more := SkipUntil(IsLt, xmlend - 1);
        if more && data < xml && At(mem, xml + 1) == '/' {
          events := events + [Text(data, xml)];
        }
      }
    }

    /** The element-name loop. */
    method ElementName() returns (ok: bool, lo: nat)
      requires xml < xmlend
      modifies this`xml
      ensures ok == ScanName(mem, xmlend, old(xml), old(xml)).Name?
      ensures ok ==> ScanName(mem, xmlend, old(xml), old(xml)) == Name(lo, xml)
    {
      lo := xml;
      while !EndsName(At(mem, xml))
        invariant lo <= xml <= xmlend && (xml == xmlend ==> lo == xml)
        invariant ScanName(mem, xmlend, xml, lo) == ScanName(mem, xmlend, old(xml), old(xml))
        decreases xmlend - xml
      {
        xml := xml + 1;
        if xml >= xmlend {
          return false, lo;
        }
        if At(mem, xml) == ':' {
          xml := xml + 1;
          lo := xml;
        }
      }
      ok := true;
    }

    /** The rest of a start tag whose name is mem[lo..xml]. */
    method StartTag(lo: nat) returns (more: bool)
      requires lo < xml < xmlend
      modifies this
      ensures more == ParseStart(mem, xmlend, lo, old(xml)).Next?
      ensures more ==> xml == ParseStart(mem, xmlend, lo, old(xml)).pos
      ensures events == old(events) + ParseStart(mem, xmlend, lo, old(xml)).events
    {
      ghost var before, reported := events, [StartElt(lo, xml)] + ParseAtt(mem, xmlend, xml).events;
      events := events + [StartElt(lo, xml)];
      more := Attributes();
      Assoc(before, [StartElt(lo, old(xml))], ParseAtt(mem, xmlend, old(xml)).events);
      if more && At(mem, xml) != '/' {
        xml := xml + 1;
        ghost var content := ParseContent(mem, xmlend, xml).events;
        more := Content();
        Assoc(before, reported, content);
      }
    }

    /** The rest of an end tag, the cursor being on its '/'. */
    method EndTag() returns (more: bool)
      modifies this
      ensures more == ParseEnd(mem, xmlend, old(xml) + 1).Next?
      ensures more ==> xml == ParseEnd(mem, xmlend, old(xml) + 1).pos
      ensures events == old(events) + ParseEnd(mem, xmlend, old(xml) + 1).events
    {
      xml := xml + 1;
      var elementname := xml;
      if xml >= xmlend { return false; }
      more := SkipUntil(IsGt, xmlend);
      if more {
        events := events + [EndElt(elementname, xml)];
        xml := xml + 1;
      }
    }

    /** One round of the loop of parseelt; false when the C function returns. */
    method Round() returns (more: bool)
      requires xml + 1 < xmlend
      modifies this
      ensures more == ParseRound(mem, xmlend, old(xml)).Next?
      ensures more ==> xml == ParseRound(mem, xmlend, old(xml)).pos
      ensures events == old(events) + ParseRound(mem, xmlend, old(xml)).events
    {
      if xml + 4 <= xmlend && Looking(mem, xml, "<!--") {
        xml := xml + 4;
        if xml + 3 >= xmlend { return false; }
        more := SkipUntilSeq("-->");
        if more { xml := xml + 3; }
      } else if At(mem, xml) == '<' && At(mem, xml + 1) != '?' {
        xml := xml + 1;
        var ok, elementname := ElementName();
        if !ok { return false; }
        if elementname < xml {
          more := StartTag(elementname);
        } else if At(mem, xml) == '/' {
          more := EndTag();
        } else {
          more := true;
        }
      } else {
        xml := xml + 1;
        more := true;
      }
    }

    // A round as a step of `Events`.
    method NextRound() returns (more: bool, ghost reported: seq<Event>)
      requires xml + 1 < xmlend
      modifies this
      ensures events == old(events) + reported
      ensures Events(mem, xmlend, old(xml)) == reported + if more then Events(mem, xmlend, xml) else []
      ensures more ==> old(xml) < xml
    {
      reported := ParseRound(mem, xmlend, xml).events;
      more := Round();
    }

    /** parseelt */
    method Elements()
      modifies this
      ensures events == old(events) + Events(mem, xmlend, old(xml))
    {
      ghost var all, done := Events(mem, xmlend, xml), [];
      while xml + 1 < xmlend
        invariant events == old(events) + done
        invariant all == done + Events(mem, xmlend, xml)
        decreases if xml < xmlend then xmlend - xml else 0
      {
        var more;
        ghost var reported;
        more, reported := NextRound();
        Assoc(old(events), done, reported);
        Assoc(done, reported, if more then Events(mem, xmlend, xml) else []);
        done := done + reported;
        if !more { return; }
      }
    }
  }

  /** parsexml */
  method ParseXml(mem: string, size: nat) returns (events: seq<Event>)
    ensures events == Events(mem, size, 0)
  {
    var parser := new Parser(mem, size);
    parser.Elements();
    events := parser.events;
  }
}
