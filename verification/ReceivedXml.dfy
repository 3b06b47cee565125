/** Documents that come as the body of a response. */
module ReceivedXml {
  import opened Seqs
  import opened XmlTree
  import opened XmlCut
  import opened HttpHeaders
  import opened HttpChunks
  import opened HttpResponse

  /** At every point of a chunked response that carries a document, and however it is cut into segments, scanning what
      has been received makes a beginning of the document's callbacks, and all of them once it is complete. */
  lemma ChunkedDocument(status: string, hs: seq<Header>, cs: seq<Parts>, extra: string, segments: seq<string>,
                        rest: string, d: Document)
    requires Printable(status, hs) && Announces(hs).chunked && Roomy(Announces(hs), Payload(cs)) && Chunked(cs)
    requires Flatten(segments) + rest == PrintHeaders(status, hs) + (Encode(cs) + extra)
    requires ValidDocument(d) && Payload(cs) == PrintDocument(d)
    ensures var r := Receive(BEGIN, segments); var s := Content(r);
            && Parsed(s, |s|) <= ForestCallbacks(d.content)
            && (|Flatten(segments)| >= |PrintHeaders(status, hs)| + |Encode(cs)| ==>
                  Parsed(s, |s|) == ForestCallbacks(d.content))
  {
    ChunkedResponse(status, hs, cs, extra, segments, rest);
    CutDocument(d, Content(Receive(BEGIN, segments)));
  }

  /** The same without chunked coding, with a Content-Length that is not short of the document or without one. */
  lemma PlainDocument(status: string, hs: seq<Header>, segments: seq<string>, rest: string, d: Document)
    requires Printable(status, hs) && !Announces(hs).chunked && Roomy(Announces(hs), PrintDocument(d))
    requires Flatten(segments) + rest == PrintHeaders(status, hs) + PrintDocument(d)
    requires ValidDocument(d)
    ensures var r := Receive(BEGIN, segments); var s := Content(r);
            && Parsed(s, |s|) <= ForestCallbacks(d.content)
            && (rest == "" ==> Parsed(s, |s|) == ForestCallbacks(d.content))
  {
    var body := PrintDocument(d);
    PlainResponse(status, hs, body, segments, rest);
    assert body[..|body|] == body;
    CutDocument(d, Content(Receive(BEGIN, segments)));
  }
}
