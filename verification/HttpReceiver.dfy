/** getHTTPResponse over its buffers. */
module HttpReceiver {
  import opened Seqs
  import opened HttpBuffer
  import opened HttpHeaders
  import opened HttpChunks
  import opened HttpChunkReader
  import opened HttpResponse

  // The size of the receive buffer.
  const RECEIVE: nat := 2048

  class Receiver {
    const header: Buffer
    const content: Buffer
    const reader: ChunkReader
    var endofheaders: nat
    var info: Info

    ghost function Repr(): set<object>
      reads this, header, content
    {
      {this, header, header.mem, content, content.mem, reader, reader.digits}
    }

    ghost predicate Apart()
      reads this, header, content
    {
      header != content && header.mem != content.mem && reader.digits != content.mem && reader.digits != header.mem
    }

    ghost predicate Valid()
      reads this, header, content, reader, reader.digits
    {
      Apart() && header.Valid() && content.Valid() && reader.Valid() && reader.size < SIGN &&
        (reader.size > 0 ==> reader.index == 0)
    }

    // The reader has not been used, or is the one that decodes the body.
    ghost function Stage(): Stage
      requires Valid()
      reads this, header, header.mem, content, content.mem, reader, reader.digits
    {
      if endofheaders == 0 then Head(header.Contents())
      else Body(info, reader.State(PhaseOf(reader.size), content.Contents()))
    }

    ghost predicate Fresh()
      requires Valid()
      reads this, content, content.mem, reader, reader.digits, header
    {
      reader.State(PhaseOf(reader.size), content.Contents()) == START
    }

    constructor ()
      ensures Holds(BEGIN) && fresh(Repr())
    {
      header := new Buffer();
      content := new Buffer();
      reader := new ChunkReader();
      endofheaders, info := 0, Info(-1, false);
    }

    // The body of a response that is not chunked.
    method Plain(buf: string)
      requires Valid() && endofheaders > 0 && (info.contentLength > 0 ==> content.used <= info.contentLength)
      modifies content, content.mem
      ensures Valid() && (content.mem == old(content.mem) || fresh(content.mem))
      ensures content.Contents() == old(content.Contents()) + Taken(info, old(|content.Contents()|), buf)
    {
      var n := |buf|;
      if info.contentLength > 0 && content.used + n > info.contentLength {
        n := info.contentLength - content.used;
      }
      assert buf[..|buf|] == buf;
      content.Append(buf[..n], info.contentLength);
    }

    method OnBody(buf: string) returns (over: bool)
      requires Valid() && endofheaders > 0 && Stage().Body? && Open(info, Stage().c)
      modifies reader, reader.digits, content, content.mem
      ensures header.mem == old(header.mem) && (content.mem == old(content.mem) || fresh(content.mem))
      ensures content.Valid() && header.Valid() && reader.Valid()
      ensures var r := HttpResponse.OnBody(info, old(Stage().c), buf);
              over == r.over && content.Contents() == Content(r) && (!over ==> Valid() && Stage() == r.stage)
    {
      if info.chunked {
        assert buf[0..] == buf;
        var status := reader.Feed(buf, content, info.contentLength);
        if status != Running { return true; }
      } else {
        Plain(buf);
      }
      over := info.contentLength > 0 && content.used >= info.contentLength;
    }

    /** The receiver stands where the reply does. */
    ghost predicate Holds(r: Reply)
      reads this, header, header.mem, content, content.mem, reader, reader.digits
    {
      && content.Valid() && content.Contents() == Content(r) && r.Valid()
      && (!r.over ==> Valid() && Stage() == r.stage && (endofheaders == 0 ==> Fresh()))
    }

    /** One received segment. */
    method OnSegment(buf: string, ghost r: Reply) returns (over: bool)
      requires Holds(r) && !r.over && |buf| <= RECEIVE
      modifies Repr()
      ensures header.mem == old(header.mem) || fresh(header.mem)
      ensures content.mem == old(content.mem) || fresh(content.mem)
      ensures Holds(HttpResponse.OnSegment(r, buf)) && over == HttpResponse.OnSegment(r, buf).over
    {
      if endofheaders == 0 {
        over := OnHeaders(buf, r);
      } else {
        over := OnBody(buf);
      }
    }

    method Result(ghost r: Reply) returns (text: string)
      requires Holds(r)
      ensures text == Content(r)
    {
      text := content.mem[..content.used];
    }

    method OnHeaders(buf: string, ghost r: Reply) returns (over: bool)
      requires Holds(r) && !r.over && |buf| <= RECEIVE && endofheaders == 0
      modifies Repr()
      ensures header.mem == old(header.mem) || fresh(header.mem)
      ensures content.mem == old(content.mem) || fresh(content.mem)
      ensures Holds(HttpResponse.OnSegment(r, buf)) && over == HttpResponse.OnSegment(r, buf).over
    {
      header.Append(buf, -1);
      var text := header.mem[..header.used];
      var end := FindEndOfHeaders(text);
      if end == 0 { return false; }
      info := ReadHeaders(text, end);
      endofheaders := end;
      // what is left over goes back into the receive buffer
      EndIsInLatestReceive(r.stage.held, buf);
      assert |text[end..]| <= RECEIVE;
      over := OnBody(text[end..]);
    }
  }

  lemma ReceiveStep(r: Reply, segments: seq<string>, k: nat)
    requires r.Valid() && !r.over && k < |segments|
    ensures Receive(r, segments[k..]) == Receive(HttpResponse.OnSegment(r, segments[k]), segments[k + 1..])
  {
    assert segments[k..][0] == segments[k] && segments[k..][1..] == segments[k + 1..];
  }

  lemma ReceiveEnd(r: Reply, segments: seq<string>, k: nat)
    requires r.Valid() && k <= |segments| && (k == |segments| || r.over)
    ensures Receive(r, segments[k..]) == r
  {
  }

  // One turn of the loop, as a step of `Receive`.
  method NextSegment(receiver: Receiver, segments: seq<string>, k: nat, ghost r: Reply)
    returns (over: bool, ghost after: Reply)
    requires receiver.Holds(r) && !r.over && k < |segments| && |segments[k]| <= RECEIVE
    modifies receiver.Repr()
    ensures receiver.Holds(after) && over == after.over
    ensures receiver.header.mem == old(receiver.header.mem) || fresh(receiver.header.mem)
    ensures receiver.content.mem == old(receiver.content.mem) || fresh(receiver.content.mem)
    ensures Receive(r, segments[k..]) == Receive(after, segments[k + 1..])
  {
    ReceiveStep(r, segments, k);
    over := receiver.OnSegment(segments[k], r);
    after := HttpResponse.OnSegment(r, segments[k]);
  }

  // The receiving loop.
  method ReceiveAll(receiver: Receiver, segments: seq<string>) returns (ghost r: Reply)
    requires receiver.Holds(BEGIN) && forall k | 0 <= k < |segments| :: |segments[k]| <= RECEIVE
    modifies receiver.Repr()
    ensures r == Receive(BEGIN, segments) && receiver.Holds(r)
  {
    var k, over := 0, false;
    r := BEGIN;
    while k < |segments| && !over
      invariant 0 <= k <= |segments| && receiver.Holds(r)
      invariant over == r.over && Receive(BEGIN, segments) == Receive(r, segments[k..])
      invariant receiver.header.mem == old(receiver.header.mem) || fresh(receiver.header.mem)
      invariant receiver.content.mem == old(receiver.content.mem) || fresh(receiver.content.mem)
    {
      over, r := NextSegment(receiver, segments, k, r);
      k := k + 1;
    }
    ReceiveEnd(r, segments, k);
  }

  /** The segments come from the socket, none of them empty, until the peer closes or enough has come. */
  method GetHttpResponse(segments: seq<string>) returns (content: string)
    requires forall k | 0 <= k < |segments| :: 0 < |segments[k]| <= 2048
    ensures content == Content(Receive(BEGIN, segments))
  {
    var receiver := new Receiver();
    ghost var r := ReceiveAll(receiver, segments);
    content := receiver.Result(r);
  }
}
