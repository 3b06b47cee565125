/** Receiving an HTTP response: its headers and its body, segment by segment. */
module HttpResponse {
  import opened Seqs
  import opened Text
  import opened HttpHeaders
  import opened HttpMeaning
  import opened HttpChunks

  // ----- the receiver

  /** Collecting the headers, or past them.  A body that is not chunked only uses the body of the chunker. */
  datatype Stage = Head(held: string) | Body(info: Info, c: Chunker)

  datatype Reply = Reply(stage: Stage, over: bool)
  {
    ghost predicate Valid() {
      !over ==> match stage
                case Head(held) => EndOfHeaders(held) == 0
                case Body(info, c) => Open(info, c)
    }
  }

  ghost predicate Open(info: Info, c: Chunker) {
    c.status == Running && c.Valid() && (info.contentLength <= 0 || |c.body| < info.contentLength)
  }

  const BEGIN: Reply := Reply(Head(""), false)

  // What of a segment belongs to a body of the announced length.
  function Taken(info: Info, used: nat, s: string): string
    requires info.contentLength > 0 ==> used <= info.contentLength
  {
    if info.contentLength > 0 && used + |s| > info.contentLength then s[..info.contentLength - used] else s
  }

  function OnBody(info: Info, c: Chunker, s: string): (r: Reply)
    requires Open(info, c)
    ensures r.Valid()
  {
    var c' := if info.chunked then Segment(c, s) else c.(body := c.body + Taken(info, |c.body|, s));
    Reply(Body(info, c'), c'.status != Running || (info.contentLength > 0 && |c'.body| >= info.contentLength))
  }

  /** One received segment. */
  function OnSegment(r: Reply, s: string): (r': Reply)
    requires r.Valid() && !r.over
    ensures r'.Valid()
  {
    match r.stage
    case Head(held) =>
      var buf := held + s;
      var end := EndOfHeaders(buf);
      if end == 0 then Reply(Head(buf), false) else OnBody(ParseHeaders(buf, end), START, buf[end..])
    case Body(info, c) => OnBody(info, c, s)
  }

  /** All segments up to the close of the connection. */
  function Receive(r: Reply, segments: seq<string>): (r': Reply)
    requires r.Valid()
    ensures r'.Valid()
    decreases |segments|
  {
    if r.over || segments == [] then r else Receive(OnSegment(r, segments[0]), segments[1..])
  }

  /** What getHTTPResponse returns, NULL being the empty content. */
  function Content(r: Reply): string {
    match r.stage
    case Head(_) => ""
    case Body(_, c) => c.body
  }

  // ----- the headers do not depend on the segmentation

  ghost predicate Printable(status: string, hs: seq<Header>) {
    OneLine(status) && forall k | 0 <= k < |hs| :: ValidHeader(hs[k]) && CountsAlone(hs[k])
  }

  ghost function Announces(hs: seq<Header>): Info {
    InfoOf(OnHeader, Info(-1, false), hs)
  }

  lemma NoEndBefore(status: string, hs: seq<Header>, body: string, held: string, rest: string)
    requires Printable(status, hs) && held + rest == PrintHeaders(status, hs) + body &&
             |held| < |PrintHeaders(status, hs)|
    ensures EndOfHeaders(held) == 0
  {
    EndOfPrinted(status, hs, body);
    EndIsStable(held, rest);
  }

  lemma EndReached(status: string, hs: seq<Header>, body: string, buf: string, rest: string)
    requires Printable(status, hs) && buf + rest == PrintHeaders(status, hs) + body &&
             |buf| >= |PrintHeaders(status, hs)|
    ensures var end := |PrintHeaders(status, hs)|;
            EndOfHeaders(buf) == end && ParseHeaders(buf, end) == Announces(hs) && buf[end..] + rest == body
  {
    var text := PrintHeaders(status, hs);
    var b := buf[|text|..];
    Cut(buf, rest, text, body);
    EndOfPrinted(status, hs, b);
    HeadersReadBack(status, hs, b);
  }

  lemma Cut(buf: string, rest: string, text: string, body: string)
    requires buf + rest == text + body && |buf| >= |text|
    ensures buf == text + buf[|text|..] && buf[|text|..] + rest == body
  {
    assert buf[..|text|] == (buf + rest)[..|text|] == text;
    assert (buf + rest)[|text|..] == buf[|text|..] + rest;
    assert (text + body)[|text|..] == body;
  }

  /** The segments behind the headers: whatever the segmentation, the body is received as if it had come alone,
      in some segmentation of its own. */
  lemma {:induction false} HeadersReceived(status: string, hs: seq<Header>, body: string, held: string,
                                           segments: seq<string>, rest: string)
    returns (tail: seq<string>)
    requires Printable(status, hs) && held + (Flatten(segments) + rest) == PrintHeaders(status, hs) + body
    requires |held| < |PrintHeaders(status, hs)|
    ensures var n := |held| + |Flatten(segments)|; var r := Reply(Head(held), false);
            && r.Valid() &&
               (n < |PrintHeaders(status, hs)| ==> Receive(r, segments) == Reply(Head(held + Flatten(segments)), false))
            && (n >= |PrintHeaders(status, hs)| ==>
                  Flatten(tail) + rest == body
                  && (Open(Announces(hs), START) ==>
                     Receive(r, segments) == Receive(Reply(Body(Announces(hs), START), false), tail)))
    decreases |segments|
  {
    NoEndBefore(status, hs, body, held, Flatten(segments) + rest);
    tail := [];
    if segments == [] {
      assert held + Flatten(segments) == held;
    } else {
      var s, t := segments[0], Flatten(segments[1..]);
      Assoc(s, t, rest);
      Assoc(held, s, t + rest);
      Assoc(held, s, t);
      if |held + s| < |PrintHeaders(status, hs)| {
        NoEndBefore(status, hs, body, held + s, t + rest);
        tail := HeadersReceived(status, hs, body, held + s, segments[1..], rest);
      } else {
        EndReached(status, hs, body, held + s, t + rest);
        var b := (held + s)[|PrintHeaders(status, hs)|..];
        tail := [b] + segments[1..];
        assert tail[1..] == segments[1..];
        Assoc(b, t, rest);
      }
    }
  }

  // ----- chunked bodies

  // A Content-Length that does not cut the data short.
  predicate Roomy(info: Info, whole: string) {
    info.contentLength <= 0 || info.contentLength >= |whole|
  }

  lemma {:induction false} ChunkedBody(info: Info, c: Chunker, p: Spot, whole: string, segments: seq<string>,
                                       rest: string, extra: string)
    requires info.chunked && Roomy(info, whole) && Open(info, c)
    requires At(c, p, whole) && Flatten(segments) + rest == Left(p) + extra
    ensures var r := Receive(Reply(Body(info, c), false), segments);
            && Content(r) <= whole && (r.over ==> Content(r) == whole)
            && (|Flatten(segments)| >= |Left(p)| ==> r.over)
    decreases |segments|
  {
    if segments == [] {
      LeftStep(p);
    } else {
      var s, t := segments[0], Flatten(segments[1..]);
      Assoc(s, t, rest);
      SegmentKeeps(c, p, whole, s, t + rest, extra);
      var c', q := Segment(c, s), Advance(p, |s|);
      assert c'.body <= whole && (q.Over? ==> c'.body == whole);
      if Open(info, c') {
        AdvanceLeft(p, |s|);
        ChunkedBody(info, c', q, whole, segments[1..], rest, extra);
      }
    }
  }

  /** A chunked response delivers the data of its chunks, however it is cut into segments: all of it once the
      last size line has come, whatever follows, and a beginning of it before. */
  lemma ChunkedResponse(status: string, hs: seq<Header>, cs: seq<Parts>, extra: string, segments: seq<string>,
                        rest: string)
    requires Printable(status, hs) && Announces(hs).chunked && Roomy(Announces(hs), Payload(cs)) && Chunked(cs)
    requires Flatten(segments) + rest == PrintHeaders(status, hs) + (Encode(cs) + extra)
    ensures var r := Receive(BEGIN, segments);
            && Content(r) <= Payload(cs) && (r.over ==> Content(r) == Payload(cs))
            && (|Flatten(segments)| >= |PrintHeaders(status, hs)| + |Encode(cs)| ==> r.over)
  {
    var body := Encode(cs) + extra;
    assert "" + (Flatten(segments) + rest) == Flatten(segments) + rest;
    var tail := HeadersReceived(status, hs, body, "", segments, rest);
    if |Flatten(segments)| >= |PrintHeaders(status, hs)| {
      AllSendable(cs);
      ChunkedIsMessage(cs);
      assert START.body + Due(BeforeSize(cs)) == Payload(cs);
      ChunkedBody(Announces(hs), START, BeforeSize(cs), Payload(cs), tail, rest, extra);
    }
  }

  // ----- chunked bodies with a Content-Length beside

  lemma {:induction false} SingleGrows(c: Chunker, s: string)
    requires c.status == Running && c.Valid() && |s| == 1
    ensures |Segment(c, s).body| <= |c.body| + 1
  {
    assert s[1..] == "";
    assert Segment(c, s) == Segment(Step(c, s[0]), "");
  }

  lemma {:induction false} SinglesStop(r: Reply, segments: seq<string>, n: nat)
    requires r.Valid() && forall k | 0 <= k < |segments| :: |segments[k]| == 1
    requires r.stage.Body? ==> r.stage.info.contentLength == n && |r.stage.c.body| <= n
    requires r.stage.Head? && !Receive(r, segments).stage.Head? ==> Receive(r, segments).stage.info.contentLength == n
    requires n > 0
    ensures |Content(Receive(r, segments))| <= n
    decreases |segments|
  {
    if !r.over && segments != [] {
      var r', s := OnSegment(r, segments[0]), segments[0];
      match r.stage {
        case Head(held) =>
          if EndOfHeaders(held + s) > 0 {
            EndIsInLatestReceive(held, s);
            assert (held + s)[EndOfHeaders(held + s)..] == "";
            InfoStays(r', segments[1..]);
          }
        case Body(info, c) => if info.chunked { SingleGrows(c, s); }
      }
      SinglesStop(r', segments[1..], n);
    }
  }

  lemma {:induction false} InfoStays(r: Reply, segments: seq<string>)
    requires r.Valid() && r.stage.Body?
    ensures Receive(r, segments).stage.Body? && Receive(r, segments).stage.info == r.stage.info
    decreases |segments|
  {
    if !r.over && segments != [] { InfoStays(OnSegment(r, segments[0]), segments[1..]); }
  }

  /** With a Content-Length beside, which is looked at after every segment, a chunked response delivers the data
      of its chunks for every segmentation exactly when the Content-Length is not short of them. */
  lemma ChunkedWithLengthIff(status: string, hs: seq<Header>, cs: seq<Parts>, extra: string)
    requires Printable(status, hs) && Announces(hs).chunked && Announces(hs).contentLength > 0 && Chunked(cs)
    ensures (forall segments | Flatten(segments) == PrintHeaders(status, hs) + (Encode(cs) + extra) ::
               Content(Receive(BEGIN, segments)) == Payload(cs))
            <==> Announces(hs).contentLength >= |Payload(cs)|
  {
    var n, text := Announces(hs).contentLength, PrintHeaders(status, hs) + (Encode(cs) + extra);
    if n >= |Payload(cs)| {
      forall segments | Flatten(segments) == text
        ensures Content(Receive(BEGIN, segments)) == Payload(cs)
      {
        assert Flatten(segments) + "" == text;
        ChunkedResponse(status, hs, cs, extra, segments, "");
      }
    } else {
      var segments := Singles(text);
      assert Flatten(segments) + "" == text && "" + (Flatten(segments) + "") == text;
      var tail := HeadersReceived(status, hs, Encode(cs) + extra, "", segments, "");
      InfoStays(Reply(Body(Announces(hs), START), false), tail);
      SinglesStop(BEGIN, segments, n);
    }
  }

  // ----- bodies of a given length, and bodies up to the close

  // The first bytes of a body of the announced length, or the body as it is.
  function Limited(info: Info, s: string): string {
    if info.contentLength > 0 && |s| > info.contentLength then s[..info.contentLength] else s
  }

  lemma {:induction false} PlainBody(info: Info, c: Chunker, segments: seq<string>)
    requires !info.chunked && Open(info, c)
    ensures var r := Receive(Reply(Body(info, c), false), segments); var all := c.body + Flatten(segments);
            && r.stage == Body(info, c.(body := Limited(info, all)))
            && r.over == (info.contentLength > 0 && |all| >= info.contentLength)
    decreases |segments|
  {
    if segments == [] {
      assert c.body + Flatten(segments) == c.body;
    } else {
      var s, t := segments[0], Flatten(segments[1..]);
      Assoc(c.body, s, t);
      var c' := c.(body := c.body + Taken(info, |c.body|, s));
      if info.contentLength > 0 && |c'.body| >= info.contentLength {
        assert c'.body == Limited(info, c.body + (s + t));
      } else {
        PlainBody(info, c', segments[1..]);
      }
    }
  }

  /** A response that is not chunked delivers exactly the first Content-Length bytes of its body when that is
      positive, and everything up to the close of the connection otherwise, however it is cut into segments. */
  lemma PlainResponse(status: string, hs: seq<Header>, body: string, segments: seq<string>, rest: string)
    requires Printable(status, hs) && !Announces(hs).chunked
    requires Flatten(segments) + rest == PrintHeaders(status, hs) + body
    ensures var r := Receive(BEGIN, segments); var n := |Flatten(segments)| - |PrintHeaders(status, hs)|;
            && Content(r) == (if n < 0 then "" else Limited(Announces(hs), body[..n]))
            && r.over == (Announces(hs).contentLength > 0 && n >= Announces(hs).contentLength)
  {
    assert "" + (Flatten(segments) + rest) == Flatten(segments) + rest;
    var tail := HeadersReceived(status, hs, body, "", segments, rest);
    var n := |Flatten(segments)| - |PrintHeaders(status, hs)|;
    if n >= 0 {
      PlainBody(Announces(hs), START, tail);
      assert START.body + Flatten(tail) == Flatten(tail);
      assert |Flatten(tail)| == n;
      assert body[..n] == Flatten(tail);
    }
  }

  // ----- in terms of what the headers declare

  lemma AnnouncesDeclared(status: string, hs: seq<Header>)
    requires Printable(status, hs) && Clear(hs)
    ensures Announces(hs) == Declared(hs)
  {
    assert forall k | 0 <= k < |hs| :: ValidHeader(hs[k]);
    ClearIsMeant(hs);
  }

  /** With a Transfer-Encoding that says chunked and no Content-Length, in headers whose names are clear, the data of
      the chunks is delivered. */
  lemma ChunkedAsDeclared(status: string, hs: seq<Header>, k: nat, cs: seq<Parts>, segments: seq<string>, rest: string,
                          extra: string)
    requires Printable(status, hs) && Clear(hs) && Chunked(cs) && NoLength(IsLength, hs)
    requires k < |hs| && IsCoding(hs[k].name) && StartsChunked(hs[k].value)
    requires Flatten(segments) + rest == PrintHeaders(status, hs) + (Encode(cs) + extra)
    ensures var r := Receive(BEGIN, segments);
            && Content(r) <= Payload(cs) && (r.over ==> Content(r) == Payload(cs))
            && (|Flatten(segments)| >= |PrintHeaders(status, hs)| + |Encode(cs)| ==> r.over)
  {
    AnnouncesDeclared(status, hs);
    DeclaredIs(hs);
    ChunkedResponse(status, hs, cs, extra, segments, rest);
  }

  // The headers declare a length of n, the k-th of them last, and no chunked coding.
  ghost predicate DeclareLength(status: string, hs: seq<Header>, k: nat, n: nat) {
    && Printable(status, hs) && Clear(hs) && LastLength(IsLength, hs, k) && hs[k].value == Decimal(n)
    && forall j | 0 <= j < |hs| && IsCoding(hs[j].name) :: !StartsChunked(hs[j].value)
  }

  lemma LengthAnnounced(status: string, hs: seq<Header>, k: nat, n: nat)
    requires DeclareLength(status, hs, k, n)
    ensures Announces(hs) == Info(n, false)
  {
    AnnouncesDeclared(status, hs);
    DeclaredIs(hs);
    AtoiOfDecimal(n, "");
    assert Decimal(n) + "" == Decimal(n);
  }

  // For such headers the first n bytes of the body are delivered once they have come; but everything when n is 0.
  lemma LengthDelivered(status: string, hs: seq<Header>, n: nat, body: string, segments: seq<string>, rest: string)
    requires Printable(status, hs) && Announces(hs) == Info(n, false)
    requires Flatten(segments) + rest == PrintHeaders(status, hs) + body
    requires |Flatten(segments)| >= |PrintHeaders(status, hs)| + n
    ensures n <= |body| && (n > 0 <==> Receive(BEGIN, segments).over)
    ensures Content(Receive(BEGIN, segments)) ==
            if n > 0 then body[..n] else body[..|body| - |rest|]
  {
    PlainResponse(status, hs, body, segments, rest);
    var m := |Flatten(segments)| - |PrintHeaders(status, hs)|;
    assert |Flatten(segments) + rest| == |PrintHeaders(status, hs) + body|;
    assert body[..m][..n] == body[..n];
  }

  // The segments bring the headers and at least n bytes of the body.
  ghost predicate Bring(segments: seq<string>, headers: string, body: string, n: nat) {
    Flatten(segments) <= headers + body && |Flatten(segments)| >= |headers| + n
  }

  /** A declared Content-Length of n is what is delivered of a body, for every segmentation that brings that much,
      exactly when n is positive or there is no body. */
  lemma PlainAsDeclared(status: string, hs: seq<Header>, k: nat, n: nat, body: string)
    requires DeclareLength(status, hs, k, n) && n <= |body|
    ensures (forall segments | Bring(segments, PrintHeaders(status, hs), body, n) ::
               Content(Receive(BEGIN, segments)) == body[..n])
            <==> n > 0 || body == ""
  {
    var headers := PrintHeaders(status, hs);
    LengthAnnounced(status, hs, k, n);
    forall segments | Bring(segments, headers, body, n)
      ensures n > 0 || body == "" ==> Content(Receive(BEGIN, segments)) == body[..n]
    {
      var rest := (headers + body)[|Flatten(segments)|..];
      LengthDelivered(status, hs, n, body, segments, rest);
    }
    if n == 0 && body != "" {
      WholeBody(status, hs, body);
    }
  }

  lemma WholeBody(status: string, hs: seq<Header>, body: string)
    requires Printable(status, hs) && Announces(hs) == Info(0, false)
    ensures Bring([PrintHeaders(status, hs) + body], PrintHeaders(status, hs), body, 0)
    ensures Content(Receive(BEGIN, [PrintHeaders(status, hs) + body])) == body
  {
    var text := PrintHeaders(status, hs) + body;
    assert Flatten([text]) == text + Flatten([]) == text && text + "" == text;
    LengthDelivered(status, hs, 0, body, [text], "");
    assert body[..|body|] == body;
  }
}
