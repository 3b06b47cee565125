/** The test server's chunked response, and its way through getHTTPResponse. */
module HttpTestServer {
  import opened Seqs
  import opened Text
  import opened HttpHeaders
  import opened HttpChunks
  import opened HttpResponse

  const STATUS: string := "HTTP/1.1 200 OK"

  function HeaderList(): seq<Header> {
    [Header("Content-Type", " ", "text/plain"), Header("Transfer-" + "Encoding", " ", "chunked")]
  }

  // The size of the k-th chunk: 1 to 199 bytes, and no more than are left.
  function ChunkSize(draw: nat -> nat, k: nat, left: nat): (n: nat)
    requires left > 0
    ensures 0 < n <= left
  {
    var n := draw(k) % 199 + 1;
    if n > left then left else n
  }

  /** With enough content left, the sizes that can be drawn are those from 1 to 199. */
  lemma SizesDrawn(k: nat, left: nat, n: nat)
    requires left >= 199
    ensures (exists draw: nat -> nat :: ChunkSize(draw, k, left) == n) <==> 1 <= n <= 199
  {
    if 1 <= n <= 199 {
      var draw := (j: nat) => (n - 1) as nat;
      assert ChunkSize(draw, k, left) == n;
    }
  }

  /** The chunks a content is cut into, draw giving the results of rand(). */
  function ChunksOf(content: string, draw: nat -> nat, k: nat): (cs: seq<Parts>)
    ensures cs != [] && Payload(cs) == content
    decreases |content|
  {
    if content == "" then [Parts("0", "", "")]
    else
      var n := ChunkSize(draw, k, |content|);
      var cs := [Parts(Hex(n), "", content[..n])] + ChunksOf(content[n..], draw, k + 1);
      assert cs[1..] == ChunksOf(content[n..], draw, k + 1);
      assert content[..n] + content[n..] == content;
      cs
  }

  lemma ChunkIsProper(n: nat, data: string)
    requires |data| == n < 200
    ensures Proper(Parts(Hex(n), "", data))
  {
    HexWrites(n);
    HexFits(n);
  }

  lemma {:induction false} ChunksAreProper(content: string, draw: nat -> nat, k: nat)
    ensures Chunked(ChunksOf(content, draw, k))
    decreases |content|
  {
    if content == "" {
      assert Hex(0) == "0";
      ChunkIsProper(0, "");
    } else {
      var n := ChunkSize(draw, k, |content|);
      var cs, rest := ChunksOf(content, draw, k), ChunksOf(content[n..], draw, k + 1);
      ChunksAreProper(content[n..], draw, k + 1);
      ChunkIsProper(n, content[..n]);
      assert forall j | 0 < j < |cs| :: cs[j] == rest[j - 1];
    }
  }

  lemma EncodeFirst(content: string, draw: nat -> nat, k: nat, end: string)
    requires content != ""
    ensures var n := ChunkSize(draw, k, |content|);
            Encode(ChunksOf(content, draw, k)) + end ==
            (Hex(n) + CRLF) + ((content[..n] + CRLF) + (Encode(ChunksOf(content[n..], draw, k + 1)) + end))
  {
    var n := ChunkSize(draw, k, |content|);
    var cs, rest := ChunksOf(content, draw, k), ChunksOf(content[n..], draw, k + 1);
    assert cs[1..] == rest && cs[0] == Parts(Hex(n), "", content[..n]);
    var more := content[..n] + (CRLF + Encode(rest));
    assert After(cs) == more;
    assert Encode(cs) == Hex(n) + (CRLF + more) by {
      assert "" + (CRLF + more) == CRLF + more;
    }
    Assoc(Hex(n), CRLF, more);
    Assoc(content[..n], CRLF, Encode(rest));
    Assoc(content[..n] + CRLF, Encode(rest), end);
    Assoc(Hex(n) + CRLF, more, end);
  }

  lemma EndWritten(draw: nat -> nat, k: nat)
    ensures Encode(ChunksOf("", draw, k)) + CRLF == "0\r\n\r\n"
  {
    var cs := ChunksOf("", draw, k);
    assert Hex(0) == "0" && After(cs) == "";
    assert Encode(cs) == "0" + ("" + (CRLF + ""));
  }

  // What the loop writes for the content that is left.
  function Written(content: string, draw: nat -> nat, k: nat): string
    decreases |content|
  {
    if content == "" then "0\r\n\r\n"
    else
      var n := ChunkSize(draw, k, |content|);
      (Hex(n) + CRLF) + ((content[..n] + CRLF) + Written(content[n..], draw, k + 1))
  }

  function Response(content: string, draw: nat -> nat): string {
    PrintHeaders(STATUS, HeaderList()) + Written(content, draw, 0)
  }

  lemma {:induction false} WrittenIsEncoded(content: string, draw: nat -> nat, k: nat)
    ensures Written(content, draw, k) == Encode(ChunksOf(content, draw, k)) + CRLF
    decreases |content|
  {
    if content == "" {
      EndWritten(draw, k);
    } else {
      EncodeFirst(content, draw, k, CRLF);
      WrittenIsEncoded(content[ChunkSize(draw, k, |content|)..], draw, k + 1);
    }
  }

  // A name for what is left to write from i on, the k-th chunk being next.
  ghost predicate Names(w: (nat, nat) -> string, content: string, draw: nat -> nat) {
    forall i: nat, k: nat {:trigger Written(content[i..], draw, k)} | i <= |content| ::
      w(i, k) == Written(content[i..], draw, k)
  }

  // One chunk moves from what is to be written to what is written.
  lemma Moved(w: (nat, nat) -> string, response: string, content: string, draw: nat -> nat, i: nat, k: nat)
    requires Names(w, content, draw) && i < |content|
    ensures var n := ChunkSize(draw, k, |content| - i);
            response + w(i, k) == (response + (Hex(n) + CRLF) + (content[i..i + n] + CRLF)) + w(i + n, k + 1)
  {
    var n := ChunkSize(draw, k, |content| - i);
    var line, data := Hex(n) + CRLF, content[i..i + n] + CRLF;
    assert w(i, k) == Written(content[i..], draw, k) && w(i + n, k + 1) == Written(content[i + n..], draw, k + 1);
    assert content[i..][..n] == content[i..i + n] && content[i..][n..] == content[i + n..];
    Assoc(response, line, data + w(i + n, k + 1));
    Assoc(response + line, data, w(i + n, k + 1));
  }

  lemma Ends(w: (nat, nat) -> string, content: string, draw: nat -> nat, k: nat)
    requires Names(w, content, draw)
    ensures w(|content|, k) == "0\r\n\r\n"
  {
    assert w(|content|, k) == Written(content[|content|..], draw, k);
  }

  // The loop that cuts the content into chunks.
  method ChunkIt(ghost w: (nat, nat) -> string, headers: string, content: string, draw: nat -> nat)
    returns (response: string)
    requires Names(w, content, draw)
    ensures response == headers + w(0, 0)
  {
    response := headers;
    var i, k := 0, 0;
    while i < |content|
      invariant 0 <= i <= |content| && 0 <= k
      invariant response + w(i, k) == headers + w(0, 0)
    {
      var n := ChunkSize(draw, k, |content| - i);
      Moved(w, response, content, draw, i, k);
      response := response + (Hex(n) + CRLF) + (content[i..i + n] + CRLF);
      i := i + n;
      k := k + 1;
    }
    Ends(w, content, draw, k);
    response := response + "0\r\n\r\n";
  }

  /** build_chunked_response */
  method BuildChunkedResponse(content: string, draw: nat -> nat) returns (response: string)
    ensures response == Response(content, draw)
    ensures response == PrintHeaders(STATUS, HeaderList()) + (Encode(ChunksOf(content, draw, 0)) + CRLF)
  {
    ghost var w := (i: nat, k: nat) => if i <= |content| then Written(content[i..], draw, k) else "";
    response := ChunkIt(w, PrintHeaders(STATUS, HeaderList()), content, draw);
    WrittenIsEncoded(content, draw, 0);
    assert content[0..] == content;
  }

  // ----- the buffer

  // What is allocated for a response, by the length of its content.
  function BufferLength(contentLength: nat): nat {
    256 + contentLength + contentLength / 16
  }

  lemma HexLength(n: nat)
    requires 0 < n < 256
    ensures |Hex(n)| == if n < 16 then 1 else 2
  {
    if n >= 16 { assert n / 16 < 16; }
  }

  lemma ChunkLength(content: string, draw: nat -> nat, k: nat)
    requires content != ""
    ensures var n := ChunkSize(draw, k, |content|);
            |Written(content, draw, k)| == |Hex(n)| + 4 + n + |Written(content[n..], draw, k + 1)|
  {
  }

  // Six bytes are the most that are written for a byte of content.
  lemma {:induction false} WrittenBelow(content: string, draw: nat -> nat, k: nat)
    ensures |Written(content, draw, k)| <= 5 + 6 * |content|
    decreases |content|
  {
    if content != "" {
      var n := ChunkSize(draw, k, |content|);
      ChunkLength(content, draw, k);
      HexLength(n);
      WrittenBelow(content[n..], draw, k + 1);
    }
  }

  lemma {:induction false} OnesWritten(content: string, k: nat)
    ensures |Written(content, _ => 0, k)| == 5 + 6 * |content|
    decreases |content|
  {
    if content != "" {
      var draw := _ => 0;
      assert ChunkSize(draw, k, |content|) == 1;
      ChunkLength(content, draw, k);
      HexLength(1);
      OnesWritten(content[1..], k + 1);
    }
  }

  lemma HeaderLength()
    ensures |PrintHeaders(STATUS, HeaderList())| == 73
  {
    var hs := HeaderList();
    assert hs[1..] == [hs[1]] && hs[1..][1..] == [];
    assert |LineText(hs[0])| == 24 && |LineText(hs[1])| == 26;
    assert |Lines(hs[1..])| == 28 + |Lines([])|;
    assert |Lines(hs)| == 26 + |Lines(hs[1..])|;
  }

  /** The response fits the buffer, whatever sizes are drawn, exactly when the content has at most 36 bytes. */
  lemma FitsIff(content: string)
    ensures (forall draw: nat -> nat :: |Response(content, draw)| <= BufferLength(|content|)) <==> |content| <= 36
  {
    HeaderLength();
    if |content| <= 36 {
      forall draw: nat -> nat
        ensures |Response(content, draw)| <= BufferLength(|content|)
      {
        WrittenBelow(content, draw, 0);
      }
    } else {
      OnesDoNotFit(content);
    }
  }

  /** A failing draw: chunks of one byte each. */
  lemma OnesDoNotFit(content: string)
    requires |content| > 36
    ensures |Response(content, _ => 0)| > BufferLength(|content|)
  {
    HeaderLength();
    OnesWritten(content, 0);
  }

  // ----- what the headers say

  lemma Mismatch(name: string, word: string, k: nat)
    requires k < |name| && k < |word| && ToLower(name[k]) != word[k]
    ensures !NameMatches(name, word)
  {
    if |name| <= |word| {
      assert Lower(name)[k] != word[..|name|][k];
    } else {
      assert Lower(name[..|word|])[k] != word[k];
    }
  }

  lemma TypeSaysNothing(info: Info, value: string)
    ensures OnHeader(info, "Content-Type", value) == info
  {
    var name := "Content-Type";
    Mismatch(name, LENGTH, 8);
    Mismatch(name, CODING, 0);
  }

  lemma LowerAppend(s: string, a: string, b: string)
    requires s == a + b
    ensures Lower(s) == Lower(a) + Lower(b)
  {
  }

  lemma TransferLowered(a: string)
    requires a == "Transfer-"
    ensures Lower(a) == "transfer-"
  {
  }

  lemma EncodingLowered(b: string)
    requires b == "Encoding"
    ensures Lower(b) == "encoding"
  {
  }

  lemma CodingLowered(name: string, word: string)
    requires name == "Transfer-" + "Encoding" && word == "transfer-" + "encoding"
    ensures Lower(name) == word
  {
    var a, b := "Transfer-", "Encoding";
    TransferLowered(a);
    EncodingLowered(b);
    LowerAppend(name, a, b);
  }

  lemma ChunkedLowered()
    ensures StartsChunked("chunked")
  {
    assert "chunked"[..7] == "chunked";
  }

  lemma WholeWord(name: string, word: string)
    requires Lower(name) == word
    ensures NameMatches(name, word)
  {
    assert word[..|name|] == word;
  }

  lemma CodingSays(info: Info, name: string, word: string, value: string)
    requires NameMatches(name, word) && word == CODING && StartsChunked(value) && !NameMatches(name, LENGTH)
    ensures OnHeader(info, name, value) == info.(chunked := true)
  {
  }

  lemma CodingMatches(name: string, word: string)
    requires name == "Transfer-" + "Encoding" && word == "transfer-" + "encoding"
    ensures NameMatches(name, word) && !NameMatches(name, LENGTH)
  {
    Mismatch(name, LENGTH, 0);
    CodingLowered(name, word);
    WholeWord(name, word);
  }

  lemma CodingSaysChunked(info: Info)
    ensures OnHeader(info, "Transfer-" + "Encoding", "chunked") == info.(chunked := true)
  {
    var name, word := "Transfer-" + "Encoding", "transfer-" + "encoding";
    CodingMatches(name, word);
    ChunkedLowered();
    CodingSays(info, name, word, "chunked");
  }

  lemma TypeIsValid(h: Header)
    requires h == Header("Content-Type", " ", "text/plain")
    ensures ValidHeader(h)
  {
  }

  predicate InName(s: string) {
    OneLine(s) && forall k | 0 <= k < |s| :: s[k] != ':'
  }

  lemma TransferInName(a: string, b: string)
    requires a == "Transfer-" && b == "Encoding"
    ensures InName(a) && InName(b)
  {
  }

  lemma CodingIsValid(h: Header)
    requires h == Header("Transfer-" + "Encoding", " ", "chunked")
    ensures ValidHeader(h)
  {
    TransferInName("Transfer-", "Encoding");
  }

  // A header that can be read from its line, and what it changes.
  ghost predicate Says(h: Header, before: Info, after: Info) {
    ValidHeader(h) && CountsAlone(h) && OnHeader(before, h.name, h.value) == after
  }

  lemma TypeSays(info: Info, h: Header)
    requires h == Header("Content-Type", " ", "text/plain")
    ensures Says(h, info, info)
  {
    TypeIsValid(h);
    Mismatch(h.name, LENGTH, 8);
    TypeSaysNothing(info, h.value);
  }

  lemma CodingSaysIt(info: Info, h: Header)
    requires h == Header("Transfer-" + "Encoding", " ", "chunked")
    ensures Says(h, info, info.(chunked := true))
  {
    CodingIsValid(h);
    Mismatch(h.name, LENGTH, 0);
    CodingSaysChunked(info);
  }

  lemma TwoHeaders(status: string, hs: seq<Header>, one: Info, both: Info)
    requires OneLine(status) && |hs| == 2 && Says(hs[0], Info(-1, false), one) && Says(hs[1], one, both)
    ensures Printable(status, hs) && Announces(hs) == both
  {
    assert hs[1..][1..] == [];
    assert InfoOf(OnHeader, one, hs[1..]) == InfoOf(OnHeader, both, []);
  }

  lemma StatusIsLine()
    ensures OneLine(STATUS)
  {
  }

  lemma HeadersSay()
    ensures Printable(STATUS, HeaderList()) && Announces(HeaderList()) == Info(-1, true)
  {
    TypeSays(Info(-1, false), HeaderList()[0]);
    CodingSaysIt(Info(-1, false), HeaderList()[1]);
    StatusIsLine();
    TwoHeaders(STATUS, HeaderList(), Info(-1, false), Info(-1, true));
  }

  lemma ChunksComeBack(status: string, hs: seq<Header>, content: string, draw: nat -> nat, segments: seq<string>)
    requires Printable(status, hs) && Announces(hs) == Info(-1, true)
    requires Flatten(segments) == PrintHeaders(status, hs) + (Encode(ChunksOf(content, draw, 0)) + CRLF)
    ensures Content(Receive(BEGIN, segments)) == content
  {
    var cs := ChunksOf(content, draw, 0);
    ChunksAreProper(content, draw, 0);
    assert Flatten(segments) + "" == Flatten(segments);
    ChunkedResponse(status, hs, cs, CRLF, segments, "");
  }

  /** The test: whatever the content, the chunk sizes drawn and the pieces in which the response is written and
      received, getHTTPResponse returns the content. */
  lemma ServedContentComesBack(content: string, draw: nat -> nat, segments: seq<string>)
    requires Flatten(segments) == PrintHeaders(STATUS, HeaderList()) + (Encode(ChunksOf(content, draw, 0)) + CRLF)
    ensures Content(Receive(BEGIN, segments)) == content
  {
    HeadersSay();
    ChunksComeBack(STATUS, HeaderList(), content, draw, segments);
  }
}
