/** The scanner on texts that are cut short. */
module XmlCut {
  import opened Seqs
  import opened MiniXml
  import opened XmlTree
  import XmlRoundTrip

  /** A text by itself, and the buffer mem[..end] it is the beginning of. */
  datatype Pieces = Pieces(part: string, mem: string, end: nat)
  {
    predicate Valid() {
      part <= mem && |part| <= end
    }
  }

  type Cut = c: Pieces | c.Valid() witness Pieces("", "", 0)

  lemma AtPart(c: Cut, p: nat)
    ensures At(c.part, p) == if p < |c.part| then At(c.mem, p) else '\0'
  {
  }

  lemma {:induction false} FindPart(c: Cut, p: nat, lim: nat, lim': nat, stop: char -> bool)
    requires lim <= lim' && lim <= |c.part|
    ensures var r := Find(c.part, p, lim, stop);
            && (r.Go? && !stop('\0') ==> r.pos < |c.part|)
            && (r.Go? && r.pos < |c.part| ==> Find(c.mem, p, lim', stop) == r)
    decreases if p < lim then lim - p else 0
  {
    AtPart(c, p);
    if !stop(At(c.part, p)) && p + 1 < lim {
      FindPart(c, p + 1, lim, lim', stop);
    }
  }

  // A text without NUL bytes.
  predicate Solid(s: string) {
    forall k | 0 <= k < |s| :: s[k] != '\0'
  }

  lemma LookingPart(c: Cut, p: nat, s: string)
    requires Solid(s) && s != ""
    ensures Looking(c.part, p, s) <==> Looking(c.mem, p, s) && p + |s| <= |c.part|
  {
    forall k | 0 <= k < |s|
      ensures At(c.part, p + k) == s[k] <==> At(c.mem, p + k) == s[k] && p + k < |c.part|
    {
      AtPart(c, p + k);
    }
    if Looking(c.part, p, s) {
      assert At(c.part, p + (|s| - 1)) == s[|s| - 1];
    }
  }

  lemma {:induction false} FindSeqPart(c: Cut, p: nat, s: string)
    requires Solid(s) && |s| == 3
    ensures var r := FindSeq(c.part, p, |c.part|, s);
            r.Go? ==> r.pos < |c.part| && FindSeq(c.mem, p, c.end, s) == r
    decreases if p < |c.part| then |c.part| - p else 0
  {
    LookingPart(c, p, s);
    if !Looking(c.part, p, s) && p + 4 < |c.part| {
      FindSeqPart(c, p + 1, s);
    }
  }

  lemma {:induction false} NamePart(c: Cut, p: nat, start: nat)
    requires start <= p <= |c.part| && (p == |c.part| ==> start == p)
    ensures var r := ScanName(c.part, |c.part|, p, start);
            r.Name? ==> r.hi < |c.part| && (p == c.end ==> start == p) && ScanName(c.mem, c.end, p, start) == r
    decreases |c.part| - p
  {
    AtPart(c, p);
    if !EndsName(At(c.part, p)) && p + 1 < |c.part| {
      AtPart(c, p + 1);
      if At(c.part, p + 1) == ':' {
        NamePart(c, p + 2, p + 2);
      } else {
        NamePart(c, p + 1, start);
      }
    }
  }

  lemma AttValuePart(c: Cut, lo: nat, hi: nat, v: nat)
    requires lo <= hi < v <= |c.part|
    ensures var r := ScanAttValue(c.part, |c.part|, lo, hi, v);
            r.AttSpan? ==> r.pos < |c.part| && ScanAttValue(c.mem, c.end, lo, hi, v) == r
  {
    AtPart(c, v);
    var sep := At(c.part, v);
    if sep == '\'' || sep == '\"' {
      FindPart(c, v + 1, |c.part|, c.end, x => x == sep);
    } else {
      FindPart(c, v, |c.part|, c.end, EndsName);
    }
  }

  // From the '=' on.
  lemma AfterEqualsPart(c: Cut, p: nat, hi: nat, eq: nat)
    requires p <= hi <= eq < |c.part|
    ensures var v := Find(c.part, eq + 1, |c.part|, NotWhiteSpace);
            v.Go? ==> (var r := ScanAttValue(c.part, |c.part|, p, hi, v.pos);
                       r.AttSpan? ==> r.pos < |c.part| && Find(c.mem, eq + 1, c.end, NotWhiteSpace) == v &&
                                      ScanAttValue(c.mem, c.end, p, hi, v.pos) == r)
  {
    FindPart(c, eq + 1, |c.part|, c.end, NotWhiteSpace);
    var v := Find(c.part, eq + 1, |c.part|, NotWhiteSpace);
    if v.Go? {
      AttValuePart(c, p, hi, v.pos);
      if v.pos == |c.part| {
        AtPart(c, v.pos);
      }
    }
  }

  lemma AttPart(c: Cut, p: nat)
    requires p < |c.part|
    ensures var r := ScanAtt(c.part, |c.part|, p);
            r.AttSpan? ==> r.pos < |c.part| && ScanAtt(c.mem, c.end, p) == r
  {
    if ScanAtt(c.part, |c.part|, p).AttSpan? {
      var hi := Find(c.part, p, |c.part|, EndsAttName).pos;
      var eq := Find(c.part, hi, |c.part|, IsEquals).pos;
      var v := Find(c.part, eq + 1, |c.part|, NotWhiteSpace).pos;
      AttIs(c.part, |c.part|, p, hi, eq, v);
      FindPart(c, p, |c.part|, c.end, EndsAttName);
      FindPart(c, hi, |c.part|, c.end, IsEquals);
      AfterEqualsPart(c, p, hi, eq);
      AttIs(c.mem, c.end, p, hi, eq, v);
    }
  }

  predicate Shorter(r: AttRun, r': AttRun) {
    r.events <= r'.events && (r.at.Go? ==> r == r')
  }

  lemma OneMore(e: Event, r: AttRun, r': AttRun)
    requires Shorter(r, r')
    ensures Shorter(AttRun([e] + r.events, r.at), AttRun([e] + r'.events, r'.at))
  {
  }

  lemma AttributePart(c: Cut, p: nat, e: Event, q: nat)
    requires AtAttribute(c.part, |c.part|, p) && ScanAtt(c.part, |c.part|, p) == AttSpan(e, q)
    requires Shorter(ParseAtt(c.part, |c.part|, q + 1), ParseAtt(c.mem, c.end, q + 1))
    ensures Shorter(ParseAtt(c.part, |c.part|, p), ParseAtt(c.mem, c.end, p))
  {
    AtPart(c, p);
    AttPart(c, p);
    AttsStep(c.part, |c.part|, p, e, q);
    AttsStep(c.mem, c.end, p, e, q);
    OneMore(e, ParseAtt(c.part, |c.part|, q + 1), ParseAtt(c.mem, c.end, q + 1));
  }

  lemma AttributeCut(c: Cut, p: nat)
    requires AtAttribute(c.part, |c.part|, p) && ScanAtt(c.part, |c.part|, p) == AttStop
    ensures Shorter(ParseAtt(c.part, |c.part|, p), ParseAtt(c.mem, c.end, p))
  {
    assert ParseAtt(c.part, |c.part|, p) == AttRun([], Stop);
  }

  lemma NoAttribute(c: Cut, p: nat)
    requires !AtAttribute(c.part, |c.part|, p)
    requires p < |c.part| && IsWhiteSpace(At(c.part, p)) ==>
               Shorter(ParseAtt(c.part, |c.part|, p + 1), ParseAtt(c.mem, c.end, p + 1))
    ensures Shorter(ParseAtt(c.part, |c.part|, p), ParseAtt(c.mem, c.end, p))
  {
    AtPart(c, p);
  }

  /** The attributes found in the part are the first of the whole, and all of them if the list ends in the part. */
  lemma {:induction false} AttsPart(c: Cut, p: nat)
    ensures Shorter(ParseAtt(c.part, |c.part|, p), ParseAtt(c.mem, c.end, p))
    decreases if p < |c.part| then |c.part| - p else 0
  {
    if !AtAttribute(c.part, |c.part|, p) {
      if p < |c.part| { AttsPart(c, p + 1); }
      NoAttribute(c, p);
    } else {
      match ScanAtt(c.part, |c.part|, p)
      case AttStop => AttributeCut(c, p);
      case AttSpan(e, q) =>
        AttsPart(c, q + 1);
        AttributePart(c, p, e, q);
    }
  }

  // ----- rounds

  // A round on the part is that on the whole, or reports no more than it and ends the scan.
  predicate Less(part: string, r: Round, r': Round) {
    r == r' || (r.events <= r'.events && (r.Halt? || Events(part, |part|, r.pos) == []))
  }

  lemma {:induction false} NoName(mem: string, end: nat, p: nat, start: nat)
    requires start <= p < end && forall k | p <= k < end :: !EndsName(At(mem, k)) && At(mem, k) != ':'
    ensures ScanName(mem, end, p, start) == NameStop
    decreases end - p
  {
    if p + 1 < end {
      NoName(mem, end, p + 1, start);
    }
  }

  // A markup declaration that is cut before it is told from a tag ends the scan.
  lemma DeclarationCut(c: Cut, p: nat, s: string)
    requires Looking(c.mem, p, s) && p < |c.part| < p + |s| && |s| >= 2 && s[..2] == "<!"
    requires forall k | 0 < k < |s| :: !EndsName(s[k]) && s[k] != ':'
    requires |s| >= 4 && s[..4] == "<!--" ==> |c.part| < p + 4
    ensures Events(c.part, |c.part|, p) == []
  {
    if p + 1 < |c.part| {
      forall k | p + 1 <= k < |c.part|
        ensures !EndsName(At(c.part, k)) && At(c.part, k) != ':'
      {
        assert At(c.mem, p + (k - p)) == s[k - p];
        AtPart(c, k);
      }
      NoName(c.part, |c.part|, p + 1, p + 1);
      AtPart(c, p);
      AtPart(c, p + 1);
      assert At(c.mem, p + 0) == s[0] == s[..2][0] == '<' && At(c.mem, p + 1) == s[1] == s[..2][1] == '!';
      if p + 4 <= |c.part| && Looking(c.part, p, "<!--") {
        assert false;
      }
    }
  }

  lemma {:induction false} NoEvents(part: string, p: nat)
    requires p + 1 >= |part|
    ensures Events(part, |part|, p) == []
  {
  }

  // The content from a CDATA section at w on.
  function FromCData(mem: string, end: nat, w: nat): Round {
    match FindSeq(mem, w + 9, end, "]]>")
    case Stop => Halt([])
    case Go(q) =>
      var evs := if w + 9 < q then [Text(w + 9, q)] else [];
      (match Find(mem, q, end, IsLt)
       case Stop => Halt(evs)
       case Go(t) => Next(evs, t))
  }

  lemma FromCDataPart(c: Cut, w: nat)
    ensures Less(c.part, FromCData(c.part, |c.part|, w), FromCData(c.mem, c.end, w))
  {
    FindSeqPart(c, w + 9, "]]>");
    match FindSeq(c.part, w + 9, |c.part|, "]]>")
    case Stop =>
    case Go(q) => FindPart(c, q, |c.part|, c.end, IsLt);
  }

  lemma ContentIsCData(mem: string, end: nat, d: nat, w: nat)
    requires d < end && Find(mem, d, end, NotWhiteSpace) == Go(w) && Looking(mem, w, "<![CDATA[")
    ensures ParseContent(mem, end, d) == FromCData(mem, end, w)
  {
  }

  lemma CDataPart(c: Cut, d: nat, w: nat)
    requires d <= w < |c.part| && Looking(c.part, w, "<![CDATA[")
    requires Find(c.part, d, |c.part|, NotWhiteSpace) == Go(w) == Find(c.mem, d, c.end, NotWhiteSpace)
    ensures Less(c.part, ParseContent(c.part, |c.part|, d), ParseContent(c.mem, c.end, d))
  {
    LookingPart(c, w, "<![CDATA[");
    ContentIsCData(c.part, |c.part|, d, w);
    ContentIsCData(c.mem, c.end, d, w);
    FromCDataPart(c, w);
  }

  // The content from w on, where there is no CDATA section.
  function FromText(mem: string, end: nat, d: nat, w: nat): Round
    requires end > 0
  {
    match Find(mem, w, end - 1, IsLt)
    case Stop => Halt([])
    case Go(t) => Next(if d < t && At(mem, t + 1) == '/' then [Text(d, t)] else [], t)
  }

  lemma ContentIsText(mem: string, end: nat, d: nat, w: nat)
    requires d < end && Find(mem, d, end, NotWhiteSpace) == Go(w) && !Looking(mem, w, "<![CDATA[")
    ensures ParseContent(mem, end, d) == FromText(mem, end, d, w)
  {
  }

  lemma FromTextPart(c: Cut, d: nat, w: nat)
    requires w < |c.part|
    ensures Less(c.part, FromText(c.part, |c.part|, d, w), FromText(c.mem, c.end, d, w))
  {
    FindPart(c, w, |c.part| - 1, c.end - 1, IsLt);
    match Find(c.part, w, |c.part| - 1, IsLt)
    case Stop =>
    case Go(t) =>
      AtPart(c, t + 1);
      if t + 1 >= |c.part| {
        NoEvents(c.part, t);
      }
  }

  lemma TextPart(c: Cut, d: nat, w: nat)
    requires d <= w < |c.part| && !Looking(c.part, w, "<![CDATA[") && !Looking(c.mem, w, "<![CDATA[")
    requires Find(c.part, d, |c.part|, NotWhiteSpace) == Go(w) == Find(c.mem, d, c.end, NotWhiteSpace)
    ensures Less(c.part, ParseContent(c.part, |c.part|, d), ParseContent(c.mem, c.end, d))
  {
    ContentIsText(c.part, |c.part|, d, w);
    ContentIsText(c.mem, c.end, d, w);
    FromTextPart(c, d, w);
  }

  lemma MarkCut(c: Cut, w: nat, mark: string)
    requires mark == "<![CDATA[" && w < |c.part| && !Looking(c.part, w, mark) && Looking(c.mem, w, mark)
    ensures At(c.part, w) == '<' && At(c.part, w + 1) != '/' && Events(c.part, |c.part|, w) == []
  {
    LookingPart(c, w, mark);
    assert mark[0] == '<' && mark[1] == '!' && mark[2] == '[';
    assert At(c.mem, w + 0) == mark[0] && At(c.mem, w + 1) == mark[1];
    AtPart(c, w);
    AtPart(c, w + 1);
    assert mark[..4][2] != "<!--"[2];
    DeclarationCut(c, w, mark);
  }

  lemma FromTag(mem: string, end: nat, d: nat, w: nat)
    requires w < end && At(mem, w) == '<' && At(mem, w + 1) != '/'
    ensures FromText(mem, end, d, w) == Next([], w)
  {
    assert Find(mem, w, end - 1, IsLt) == Go(w);
  }

  lemma CDataCut(c: Cut, d: nat, w: nat)
    requires d <= w < |c.part| && !Looking(c.part, w, "<![CDATA[") && Looking(c.mem, w, "<![CDATA[")
    requires Find(c.part, d, |c.part|, NotWhiteSpace) == Go(w)
    ensures ParseContent(c.part, |c.part|, d) == Next([], w) && Events(c.part, |c.part|, w) == []
  {
    MarkCut(c, w, "<![CDATA[");
    ContentIsText(c.part, |c.part|, d, w);
    FromTag(c.part, |c.part|, d, w);
  }

  lemma ContentPart(c: Cut, d: nat)
    ensures Less(c.part, ParseContent(c.part, |c.part|, d), ParseContent(c.mem, c.end, d))
  {
    if d < |c.part| {
      FindPart(c, d, |c.part|, c.end, NotWhiteSpace);
      match Find(c.part, d, |c.part|, NotWhiteSpace)
      case Stop =>
      case Go(w) =>
        if Looking(c.part, w, "<![CDATA[") {
          CDataPart(c, d, w);
        } else if Looking(c.mem, w, "<![CDATA[") {
          CDataCut(c, d, w);
        } else {
          TextPart(c, d, w);
        }
    }
  }

  function Behind(evs: seq<Event>, r: Round): Round {
    match r
    case Halt(es) => Halt(evs + es)
    case Next(es, q) => Next(evs + es, q)
  }

  lemma LessBehind(part: string, evs: seq<Event>, r: Round, r': Round)
    requires Less(part, r, r')
    ensures Less(part, Behind(evs, r), Behind(evs, r'))
  {
  }

  // A start tag whose attributes end at `at`, with its content.
  function FromAtts(mem: string, evs: seq<Event>, at: Scan, content: Round): Round {
    if at.Stop? then Halt(evs) else if At(mem, at.pos) == '/' then Next(evs, at.pos) else Behind(evs, content)
  }

  function ContentAt(mem: string, end: nat, at: Scan): Round {
    if at.Stop? then Halt([]) else ParseContent(mem, end, at.pos + 1)
  }

  lemma ContentAtPart(c: Cut, at: Scan)
    ensures Less(c.part, ContentAt(c.part, |c.part|, at), ContentAt(c.mem, c.end, at))
  {
    if at.Go? { ContentPart(c, at.pos + 1); }
  }

  lemma StartIs(mem: string, end: nat, lo: nat, hi: nat)
    requires lo < hi < end
    ensures var atts := ParseAtt(mem, end, hi);
            ParseStart(mem, end, lo, hi) ==
            FromAtts(mem, [StartElt(lo, hi)] + atts.events, atts.at, ContentAt(mem, end, atts.at))
  {
  }

  lemma FromAttsPart(c: Cut, e: Event, r: AttRun, r': AttRun, x: Round, x': Round)
    requires Shorter(r, r') && (r.at.Go? ==> r.at.pos < |c.part| && Less(c.part, x, x'))
    ensures Less(c.part, FromAtts(c.part, [e] + r.events, r.at, x), FromAtts(c.mem, [e] + r'.events, r'.at, x'))
  {
    if r.at == Stop {
      assert [e] + r.events <= [e] + r'.events <= FromAtts(c.mem, [e] + r'.events, r'.at, x').events;
    } else {
      AtPart(c, r.at.pos);
      LessBehind(c.part, [e] + r.events, x, x');
    }
  }

  lemma StartPart(c: Cut, lo: nat, hi: nat)
    requires lo < hi < |c.part|
    ensures Less(c.part, ParseStart(c.part, |c.part|, lo, hi), ParseStart(c.mem, c.end, lo, hi))
  {
    AttsPart(c, hi);
    StartIs(c.part, |c.part|, lo, hi);
    StartIs(c.mem, c.end, lo, hi);
    var r, r' := ParseAtt(c.part, |c.part|, hi), ParseAtt(c.mem, c.end, hi);
    ContentAtPart(c, r.at);
    FromAttsPart(c, StartElt(lo, hi), r, r', ContentAt(c.part, |c.part|, r.at), ContentAt(c.mem, c.end, r'.at));
  }

  lemma EndPart(c: Cut, d: nat)
    ensures Less(c.part, ParseEnd(c.part, |c.part|, d), ParseEnd(c.mem, c.end, d))
  {
    if d < |c.part| {
      FindPart(c, d, |c.part|, c.end, IsGt);
    }
  }

  lemma CommentPart(c: Cut, p: nat)
    requires p + 1 < |c.part| && Looking(c.mem, p, "<!--")
    ensures Less(c.part, ParseRound(c.part, |c.part|, p), ParseRound(c.mem, c.end, p))
  {
    LookingPart(c, p, "<!--");
    if p + 4 <= |c.part| {
      FindSeqPart(c, p + 4, "-->");
    } else {
      DeclarationCut(c, p, "<!--");
    }
  }

  // A tag at p, behind its '<'.
  function FromTagName(mem: string, end: nat, p: nat): Round
    requires p + 1 < end
  {
    match ScanName(mem, end, p + 1, p + 1)
    case NameStop => Halt([])
    case Name(lo, hi) =>
      if lo < hi then ParseStart(mem, end, lo, hi)
      else if At(mem, hi) == '/' then ParseEnd(mem, end, hi + 1)
      else Next([], hi)
  }

  lemma RoundIs(mem: string, end: nat, p: nat)
    requires p + 1 < end && !(p + 4 <= end && Looking(mem, p, "<!--"))
    ensures ParseRound(mem, end, p) ==
            if At(mem, p) == '<' && At(mem, p + 1) != '?' then FromTagName(mem, end, p) else Next([], p + 1)
  {
  }

  lemma FromTagNamePart(c: Cut, p: nat)
    requires p + 1 < |c.part|
    ensures Less(c.part, FromTagName(c.part, |c.part|, p), FromTagName(c.mem, c.end, p))
  {
    NamePart(c, p + 1, p + 1);
    match ScanName(c.part, |c.part|, p + 1, p + 1)
    case NameStop =>
    case Name(lo, hi) =>
      AtPart(c, hi);
      if lo < hi {
        StartPart(c, lo, hi);
      } else {
        EndPart(c, hi + 1);
      }
  }

  lemma TagPart(c: Cut, p: nat)
    requires p + 1 < |c.part| && !Looking(c.mem, p, "<!--")
    ensures Less(c.part, ParseRound(c.part, |c.part|, p), ParseRound(c.mem, c.end, p))
  {
    LookingPart(c, p, "<!--");
    AtPart(c, p);
    AtPart(c, p + 1);
    RoundIs(c.part, |c.part|, p);
    RoundIs(c.mem, c.end, p);
    FromTagNamePart(c, p);
  }

  lemma {:induction false} EventsPart(c: Cut, p: nat)
    ensures Events(c.part, |c.part|, p) <= Events(c.mem, c.end, p)
    decreases if p < |c.part| then |c.part| - p else 0
  {
    if p + 1 < |c.part| {
      var r, r' := ParseRound(c.part, |c.part|, p), ParseRound(c.mem, c.end, p);
      if Looking(c.mem, p, "<!--") { CommentPart(c, p); } else { TagPart(c, p); }
      if r.Next? && r == r' {
        EventsPart(c, r.pos);
      }
    }
  }

  // ----- texts

  lemma {:induction false} ReadPrefix(mem: string, evs: seq<Event>, evs': seq<Event>)
    requires evs <= evs'
    ensures ReadAll(mem, evs) <= ReadAll(mem, evs')
    decreases |evs|
  {
    if evs != [] {
      ReadPrefix(mem, evs[1..], evs'[1..]);
    }
  }

  lemma {:induction false} ReadSame(c: Cut, evs: seq<Event>)
    requires forall i | 0 <= i < |evs| :: SpansFrom(evs[i], 0, |c.part|)
    ensures ReadAll(c.part, evs) == ReadAll(c.mem, evs)
    decreases |evs|
  {
    if evs != [] {
      var e := evs[0];
      assert SpansFrom(e, 0, |c.part|);
      SliceSame(c, e.lo, e.hi);
      if e.Attribute? { SliceSame(c, e.vlo, e.vhi); }
      ReadSame(c, evs[1..]);
    }
  }

  lemma SliceSame(c: Cut, lo: nat, hi: nat)
    requires lo <= hi <= |c.part|
    ensures Slice(c.part, lo, hi) == Slice(c.mem, lo, hi)
  {
    assert c.part[lo..hi] == c.mem[lo..hi];
  }

  /** Whatever the text and wherever it is cut: scanned by itself, the part before the cut makes the first callbacks of
      the whole, and no others. */
  lemma PartMakesFirst(part: string, mem: string, end: nat)
    requires part <= mem && |part| <= end
    ensures Parsed(part, |part|) <= Parsed(mem, end)
  {
    var c: Cut := Pieces(part, mem, end);
    EventsPart(c, 0);
    EventSpansDisjoint(part, |part|);
    ReadSame(c, Events(part, |part|, 0));
    ReadPrefix(mem, Events(part, |part|, 0), Events(mem, end, 0));
  }

  /** A document cut short makes a beginning of its callbacks. */
  lemma CutDocument(d: Document, part: string)
    requires ValidDocument(d) && part <= PrintDocument(d)
    ensures Parsed(part, |part|) <= ForestCallbacks(d.content)
    ensures part == PrintDocument(d) ==> Parsed(part, |part|) == ForestCallbacks(d.content)
  {
    var s := PrintDocument(d);
    assert s[..|s|] == s;
    XmlRoundTrip.PrintThenParse(d, s, |s|);
    PartMakesFirst(part, s, |s|);
  }
}
