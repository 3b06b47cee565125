/** Responses that are not received as they are meant. */
module HttpExamples {
  import opened Seqs
  import opened Text
  import opened HttpHeaders
  import opened HttpChunks
  import opened ChunkExtensions
  import opened HttpResponse
  import opened HttpTestServer

  function BothHeaders(): seq<Header> {
    [Header("Transfer-" + "Encoding", " ", "chunked"), Header("Content-" + "Length", " ", "1")]
  }

  function TwoBytes(): seq<Parts> {
    [Parts("2", "", "ab"), Parts("0", "", "")]
  }

  lemma ContentLowered(a: string, b: string)
    requires a == "Content-" && b == "Length"
    ensures Lower(a) == "content-" && Lower(b) == "length" && InName(a) && InName(b)
  {
  }

  lemma LengthMatches(name: string)
    requires name == "Content-" + "Length"
    ensures NameMatches(name, LENGTH) && InName(name)
  {
    ContentLowered("Content-", "Length");
    LowerAppend(name, "Content-", "Length");
    assert "content-" + "length" == LENGTH;
    WholeWord(name, LENGTH);
  }

  lemma LengthSays(info: Info, h: Header, n: nat)
    requires n < 2 && h == Header("Content-" + "Length", " ", if n == 0 then "0" else "1")
    ensures Says(h, info, info.(contentLength := n))
  {
    LengthMatches(h.name);
    assert h.value[1..] == "";
    if n == 0 { assert Atoi("0") == 0; } else { assert Atoi("1") == 1; }
    assert !IsSpace(h.value[0]);
  }

  lemma BothSay()
    ensures Printable(STATUS, BothHeaders()) && Announces(BothHeaders()) == Info(1, true)
  {
    CodingSaysIt(Info(-1, false), BothHeaders()[0]);
    LengthSays(Info(-1, true), BothHeaders()[1], 1);
    StatusIsLine();
    TwoHeaders(STATUS, BothHeaders(), Info(-1, true), Info(1, true));
  }

  lemma LineEndPassed(c: Chunker, t: string)
    requires c.Valid() && c.status == Running && c.digits != "" && c.phase == Size
    ensures Segment(c, CRLF + t) == Segment(Finish(c), t)
  {
    var s := "\n" + t;
    assert (CRLF + t)[1..] == s && s[1..] == t;
    assert Segment(c, CRLF + t) == Segment(c.(phase := Cr), s);
    assert Step(c.(phase := Cr), s[0]) == Finish(c);
  }

  lemma ByteStored(c: Chunker)
    requires c == Chunker(Data, "", 2, "", Running)
    ensures Segment(c, "a") == Chunker(Data, "", 1, "a", Running)
  {
    assert Step(c, 'a') == Chunker(Data, "", 1, "a", Running) by { assert "" + ['a'] == "a"; }
    assert "a"[1..] == "";
  }

  lemma OneByteDecoded(s: string)
    requires s == "2\r\na"
    ensures Segment(START, s) == Chunker(Data, "", 1, "a", Running)
  {
    var c := START.(phase := Size, digits := "2");
    assert s == "2" + (CRLF + "a") && "" + "2" == "2";
    assert HexValue("2") == 2 by { assert "2"[..0] == ""; }
    DigitsRun(START, "2", CRLF + "a");
    LineEndPassed(c, "a");
    ByteStored(Finish(c));
  }

  lemma TwoBytesEncoded()
    ensures Encode(TwoBytes()) == "2\r\nab\r\n0\r\n" && Payload(TwoBytes()) == "ab"
  {
    var cs := TwoBytes();
    var last := cs[1..];
    assert last == [Parts("0", "", "")] && last[1..] == [];
    assert Encode(last) == "0" + ("" + (CRLF + "")) == "0\r\n";
    assert After(cs) == "ab" + (CRLF + Encode(last)) == "ab\r\n0\r\n";
    assert Payload(last) == "" + Payload([]) == "";
  }

  lemma FirstSegmentEnds(status: string, hs: seq<Header>, s: string, t: string)
    requires Printable(status, hs) && Announces(hs) == Info(1, true) &&
             Segment(START, s) == Chunker(Data, "", 1, "a", Running)
    ensures Content(Receive(BEGIN, [PrintHeaders(status, hs) + s, t])) == "a"
  {
    var buf := PrintHeaders(status, hs) + s;
    assert buf + "" == buf && "" + buf == buf;
    EndReached(status, hs, s, buf, "");
    assert buf[|PrintHeaders(status, hs)|..] == s;
    var r := OnSegment(BEGIN, buf);
    assert r == Reply(Body(Info(1, true), Chunker(Data, "", 1, "a", Running)), true);
    assert Receive(BEGIN, [buf, t]) == Receive(r, [buf, t][1..]);
  }

  /** A failing input: a chunked response with a Content-Length of 1 and two bytes of data, cut between them, is
      received as its first byte. */
  lemma LengthCutsChunks(segments: seq<string>)
    requires segments == [PrintHeaders(STATUS, BothHeaders()) + "2\r\na", "b\r\n0\r\n"]
    ensures Flatten(segments) == PrintHeaders(STATUS, BothHeaders()) + Encode(TwoBytes())
    ensures Payload(TwoBytes()) == "ab" && Content(Receive(BEGIN, segments)) == "a"
  {
    var text, s, t := PrintHeaders(STATUS, BothHeaders()), "2\r\na", "b\r\n0\r\n";
    TwoBytesEncoded();
    assert s + t == "2\r\nab\r\n0\r\n";
    TwoSegments(text, s, t);
    BothSay();
    OneByteDecoded(s);
    FirstSegmentEnds(STATUS, BothHeaders(), s, t);
  }

  function ZeroLength(): seq<Header> {
    [Header("Content-" + "Length", " ", "0")]
  }

  lemma OneHeader(status: string, h: Header, info: Info)
    requires OneLine(status) && Says(h, Info(-1, false), info)
    ensures Printable(status, [h]) && Announces([h]) == info
  {
    assert [h][1..] == [];
    assert InfoOf(OnHeader, Info(-1, false), [h]) == InfoOf(OnHeader, info, []);
  }

  /** A failing input: a response with a Content-Length of 0 and a byte behind it delivers the byte. */
  lemma ZeroLengthReadsOn(text: string)
    requires text == PrintHeaders(STATUS, ZeroLength()) + "x"
    ensures Content(Receive(BEGIN, [text])) == "x"
  {
    StatusIsLine();
    LengthSays(Info(-1, false), ZeroLength()[0], 0);
    OneHeader(STATUS, ZeroLength()[0], Info(0, false));
    WholeBody(STATUS, ZeroLength(), "x");
  }

  /** A failing input: a blank Content-Length takes the length from the body. */
  lemma BlankLengthIsSeven(h: Header)
    requires h == Header("Content-" + "Length", "", "")
    ensures var text := PrintHeaders(STATUS, [h]); ParseHeaders(text + "7", |text|).contentLength == 7
  {
    StatusIsLine();
    LengthMatches(h.name);
    assert ValidHeader(h);
    BlankLengthTakesBody(STATUS, h, "7");
    assert "7"[1..] == "" && Atoi("7") == 7;
  }

  lemma TwoSegments(text: string, s: string, t: string)
    ensures Flatten([text + s, t]) == text + (s + t)
  {
    assert [text + s, t][1..] == [t] && [t][1..] == [];
    assert Flatten([t]) == t + Flatten([]) == t;
    Assoc(text, s, t);
  }
}
