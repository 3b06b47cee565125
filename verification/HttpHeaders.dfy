/** Finding the end of the headers of an HTTP response, and reading the two headers that govern the body. */
module HttpHeaders {
  import opened Text

  predicate IsEol(c: char) {
    c == '\r' || c == '\n'
  }

  predicate IsBlank(c: char) {
    c == ' ' || c == '\t'
  }

  // ----- the end of the headers

  // An end found k bytes further on.
  function Later(k: nat, r: nat): nat {
    if r == 0 then 0 else k + r
  }

  /** How many bytes up to and including the empty line that ends the headers, or 0 when it is not there: CR LF
      CR LF or LF LF.  The loop steps over the byte after a line end without looking at it. */
  function EndOfHeaders(s: string): (r: nat)
    ensures r <= |s|
  {
    if |s| < 2 then 0
    else if s[0] == '\r' then
      if s[1] != '\n' then Later(2, EndOfHeaders(s[2..]))
      else if |s| < 3 || s[2] != '\r' then (if |s| < 3 then 0 else Later(3, EndOfHeaders(s[3..])))
      else if |s| < 4 || s[3] != '\n' then (if |s| < 4 then 0 else Later(4, EndOfHeaders(s[4..])))
      else 4
    else if s[0] == '\n' then
      if s[1] == '\n' then 2 else Later(2, EndOfHeaders(s[2..]))
    else Later(1, EndOfHeaders(s[1..]))
  }

  // The end of the headers in the whole buffer, when none has been found before i.
  function EndFrom(buf: string, i: nat): nat {
    if i <= |buf| then Later(i, EndOfHeaders(buf[i..])) else 0
  }

  lemma EndFromStep(buf: string, i: nat)
    requires i + 1 < |buf|
    ensures EndFrom(buf, i) ==
            if buf[i] == '\r' then
              if buf[i + 1] != '\n' then EndFrom(buf, i + 2)
              else if i + 2 >= |buf| || buf[i + 2] != '\r' then EndFrom(buf, i + 3)
              else if i + 3 >= |buf| || buf[i + 3] != '\n' then EndFrom(buf, i + 4)
              else i + 4
            else if buf[i] == '\n' then
              if buf[i + 1] == '\n' then i + 2 else EndFrom(buf, i + 2)
            else EndFrom(buf, i + 1)
  {
    var s := buf[i..];
    assert s[0] == buf[i] && s[1] == buf[i + 1];
    assert s[1..] == buf[i + 1..] && s[2..] == buf[i + 2..];
    assert |s| > 2 ==> s[2] == buf[i + 2] && s[3..] == buf[i + 3..];
    assert |s| > 3 ==> s[3] == buf[i + 3] && s[4..] == buf[i + 4..];
  }

  /** The search loop of getHTTPResponse. */
  method FindEndOfHeaders(buf: string) returns (endofheaders: nat)
    ensures endofheaders == EndOfHeaders(buf)
  {
    endofheaders := 0;
    var i := 0;
    while i + 1 < |buf| && endofheaders == 0
      invariant endofheaders == 0 ==> EndOfHeaders(buf) == EndFrom(buf, i)
      invariant endofheaders != 0 ==> endofheaders == EndOfHeaders(buf)
    {
      EndFromStep(buf, i);
      if buf[i] == '\r' {
        i := i + 1;
        if buf[i] == '\n' {
          i := i + 1;
          if i < |buf| && buf[i] == '\r' {
            i := i + 1;
            if i < |buf| && buf[i] == '\n' {
              endofheaders := i + 1;
            }
          }
        }
      } else if buf[i] == '\n' {
        i := i + 1;
        if buf[i] == '\n' {
          endofheaders := i + 1;
        }
      }
      i := i + 1;
    }
  }

  /** Once found, the end is the same in every longer buffer; and an end that lies within a shorter buffer is
      found in it. */
  lemma {:induction false} EndIsStable(s: string, t: string)
    ensures EndOfHeaders(s) > 0 ==> EndOfHeaders(s + t) == EndOfHeaders(s)
    ensures 0 < EndOfHeaders(s + t) <= |s| ==> EndOfHeaders(s) == EndOfHeaders(s + t)
    decreases |s|
  {
    if |s| < 2 {
      EndAfterTwo(s + t);
    } else {
      var u := s + t;
      if s[0] == '\r' {
        if s[1] != '\n' {
          assert u[2..] == s[2..] + t;
          EndIsStable(s[2..], t);
        } else if |s| == 2 {
          EndBeyond(u);
        } else if s[2] != '\r' {
          assert u[3..] == s[3..] + t;
          EndIsStable(s[3..], t);
        } else if |s| == 3 {
          EndBeyond(u);
        } else if s[3] != '\n' {
          assert u[4..] == s[4..] + t;
          EndIsStable(s[4..], t);
        }
      } else if s[0] == '\n' {
        assert u[2..] == s[2..] + t;
        EndIsStable(s[2..], t);
      } else {
        assert u[1..] == s[1..] + t;
        EndIsStable(s[1..], t);
      }
    }
  }

  lemma {:induction false} EndAfterTwo(s: string)
    ensures EndOfHeaders(s) > 0 ==> EndOfHeaders(s) >= 2
    decreases |s|
  {
    if |s| >= 2 {
      EndAfterTwo(s[1..]);
      EndAfterTwo(s[2..]);
    }
  }

  // After CR LF the end is at least four bytes away.
  lemma EndBeyond(s: string)
    requires |s| >= 2 && s[0] == '\r' && s[1] == '\n'
    ensures EndOfHeaders(s) > 0 ==> EndOfHeaders(s) >= 4
  {
    if |s| >= 3 {
      EndAfterTwo(s[3..]);
    }
  }

  /** When the latest receive completes the headers, their end lies beyond everything held before, so what is
      left over is shorter than that receive and fits the receive buffer. */
  lemma EndIsInLatestReceive(held: string, seg: string)
    requires EndOfHeaders(held) == 0 && EndOfHeaders(held + seg) > 0
    ensures |held| < EndOfHeaders(held + seg) <= |held| + |seg|
    ensures |(held + seg)[EndOfHeaders(held + seg)..]| < |seg|
  {
    EndIsStable(held, seg);
  }

  // ----- the header lines

  /** What the headers say about the body: content_length is -1 until a Content-Length is met. */
  datatype Info = Info(contentLength: int, chunked: bool)

  function ToLower(c: char): char {
    if 'A' <= c <= 'Z' then (c as int + 32) as char else c
  }

  function Lower(s: string): (r: string)
    ensures |r| == |s|
    ensures forall k | 0 <= k < |s| :: r[k] == ToLower(s[k])
  {
    if s == "" then "" else [ToLower(s[0])] + Lower(s[1..])
  }

  /** strncasecmp finds no difference over the length of the name, so every beginning of the word matches. */
  predicate NameMatches(name: string, word: string) {
    if |name| <= |word| then Lower(name) == word[..|name|]
    else Lower(name[..|word|]) == word && name[|word|] == '\0'
  }

  const LENGTH: string := "content-length"
  const CODING: string := "transfer-encoding"

  // strncasecmp finds no difference to "chunked" over its length.
  predicate StartsChunked(s: string) {
    |s| >= 7 && Lower(s[..7]) == "chunked"
  }

  /** A header line, its name and everything from its value on. */
  function OnHeader(info: Info, name: string, fromValue: string): Info {
    if NameMatches(name, LENGTH) then info.(contentLength := Atoi(fromValue))
    else if NameMatches(name, CODING) && StartsChunked(fromValue) then info.(chunked := true)
    else info
  }

  // The last blank of the run of blanks after i.
  function SkipBlanks(buf: string, endofheaders: nat, i: nat): (r: nat)
    requires i < endofheaders <= |buf|
    ensures i <= r < endofheaders
    decreases endofheaders - i
  {
    if i + 1 < endofheaders && IsBlank(buf[i + 1]) then SkipBlanks(buf, endofheaders, i + 1) else i
  }

  // The first byte from i on that does not end a line.
  function SkipEols(buf: string, i: nat): (r: nat)
    requires i <= |buf|
    ensures i <= r <= |buf|
    decreases |buf| - i
  {
    if i < |buf| && IsEol(buf[i]) then SkipEols(buf, i + 1) else i
  }

  // What a line does, given its name and everything from its value on; in the end OnHeader.
  type OnLine = (Info, string, string) -> Info

  /** The loop over the header lines; the bytes of buf after the headers are those of the body already received. */
  function ParseFrom(buf: string, end: nat, on: OnLine, i: nat, linestart: nat, colon: nat, valuestart: nat,
                     info: Info): (r: Info)
    requires 0 < end <= |buf| && linestart <= |buf| && colon <= |buf| && valuestart <= |buf|
    decreases if i < end then end - i else 0
  {
    if i >= end - 1 then info
    else if linestart > 0 && colon <= linestart && buf[i] == ':' then
      var j := SkipBlanks(buf, end, i);
      ParseFrom(buf, end, on, j + 1, linestart, i, j + 1, info)
    else if IsEol(buf[i]) then
      var info' := if linestart > 0 && colon > linestart && valuestart > colon
                   then on(info, buf[linestart..colon], buf[valuestart..]) else info;
      var j := SkipEols(buf, i);
      ParseFrom(buf, end, on, j + 1, j, j, 0, info')
    else ParseFrom(buf, end, on, i + 1, linestart, colon, valuestart, info)
  }

  function ParseHeaders(buf: string, endofheaders: nat): Info
    requires 0 < endofheaders <= |buf|
  {
    ParseFrom(buf, endofheaders, OnHeader, 0, 0, 0, 0, Info(-1, false))
  }

  /** The for loop of getHTTPResponse. */
  method ReadHeaders(buf: string, endofheaders: nat) returns (info: Info)
    requires 0 < endofheaders <= |buf|
    ensures info == ParseHeaders(buf, endofheaders)
  {
    info := Info(-1, false);
    var i, linestart, colon, valuestart := 0, 0, 0, 0;
    while i < endofheaders - 1
      invariant 0 <= i && linestart <= |buf| && colon <= |buf| && valuestart <= |buf|
      invariant ParseFrom(buf, endofheaders, OnHeader, i, linestart, colon, valuestart, info) ==
                ParseHeaders(buf, endofheaders)
    {
      if linestart > 0 && colon <= linestart && buf[i] == ':' {
        colon := i;
        while i < endofheaders - 1 && IsBlank(buf[i + 1])
          invariant colon <= i < endofheaders
          invariant SkipBlanks(buf, endofheaders, i) == SkipBlanks(buf, endofheaders, colon)
        {
          i := i + 1;
        }
        valuestart := i + 1;
      } else if IsEol(buf[i]) {
        if linestart > 0 && colon > linestart && valuestart > colon {
          if NameMatches(buf[linestart..colon], LENGTH) {
            info := info.(contentLength := Atoi(buf[valuestart..]));
          } else if NameMatches(buf[linestart..colon], CODING) && StartsChunked(buf[valuestart..]) {
            info := info.(chunked := true);
          }
        }
        var j := i;
        while j < |buf| && IsEol(buf[j])
          invariant i <= j <= |buf| && SkipEols(buf, j) == SkipEols(buf, i)
        {
          j := j + 1;
        }
        i, linestart, colon, valuestart := j, j, j, 0;
      }
      i := i + 1;
    }
  }

  // ----- printing headers and reading them back

  datatype Header = Header(name: string, blanks: string, value: string)

  predicate OneLine(s: string) {
    forall k | 0 <= k < |s| :: s[k] != '\r' && s[k] != '\n'
  }

  predicate ValidHeader(h: Header) {
    && h.name != "" && OneLine(h.name) && OneLine(h.value)
    && (forall k | 0 <= k < |h.name| :: h.name[k] != ':')
    && (forall k | 0 <= k < |h.blanks| :: h.blanks[k] == ' ' || h.blanks[k] == '\t')
    && (h.value == "" || (h.value[0] != ' ' && h.value[0] != '\t'))
  }

  // A Content-Length whose value is not blank; a blank one makes atoi run on into what follows.
  predicate CountsAlone(h: Header) {
    NameMatches(h.name, LENGTH) ==> exists k :: 0 <= k < |h.value| && !IsSpace(h.value[k])
  }

  function LineText(h: Header): string {
    h.name + (":" + (h.blanks + h.value))
  }

  function Lines(hs: seq<Header>): string {
    if hs == [] then "" else LineText(hs[0]) + (CRLF + Lines(hs[1..]))
  }

  /** A status line, header lines and the empty line. */
  function PrintHeaders(status: string, hs: seq<Header>): string {
    status + (CRLF + (Lines(hs) + CRLF))
  }

  /** What a list of headers says, the last Content-Length counting. */
  function InfoOf(on: OnLine, info: Info, hs: seq<Header>): Info
    decreases |hs|
  {
    if hs == [] then info else InfoOf(on, on(info, hs[0].name, hs[0].value), hs[1..])
  }

  /** The header is read from its own line, whatever follows the line. */
  ghost predicate ReadAlone(on: OnLine, h: Header) {
    forall info, t :: on(info, h.name, h.value + (CRLF + t)) == on(info, h.name, h.value)
  }

  lemma LineOneLine(h: Header)
    requires ValidHeader(h)
    ensures OneLine(LineText(h)) && |LineText(h)| >= 2
  {
  }

  // -- the end of printed headers

  lemma {:induction false} EndAfterText(s: string, t: string)
    requires OneLine(s)
    ensures EndOfHeaders(s + t) == Later(|s|, EndOfHeaders(t))
    decreases |s|
  {
    if s == "" {
      assert s + t == t;
    } else {
      assert (s + t)[1..] == s[1..] + t;
      EndAfterText(s[1..], t);
    }
  }

  lemma {:induction false} EndOfLines(hs: seq<Header>, body: string)
    requires forall k | 0 <= k < |hs| :: ValidHeader(hs[k])
    ensures EndOfHeaders(CRLF + (Lines(hs) + (CRLF + body))) == |CRLF + (Lines(hs) + CRLF)|
    decreases |hs|
  {
    if hs == [] {
      var s := CRLF + (Lines(hs) + (CRLF + body));
      assert s[0] == '\r' && s[1] == '\n' && s[2] == '\r' && s[3] == '\n';
    } else {
      assert ValidHeader(hs[0]);
      var line := LineText(hs[0]);
      LineOneLine(hs[0]);
      var next := CRLF + (Lines(hs[1..]) + (CRLF + body));
      assert Lines(hs) + (CRLF + body) == line + next;
      EndOfLines(hs[1..], body);
      EndAfterText(line[1..], next);
      EndSkipsLine(line, next);
    }
  }

  lemma EndSkipsLine(line: string, next: string)
    requires OneLine(line) && line != ""
    ensures EndOfHeaders(CRLF + (line + next)) == Later(3, EndOfHeaders(line[1..] + next))
  {
    var s := CRLF + (line + next);
    assert s[0] == '\r' && s[1] == '\n' && s[2] == line[0];
    assert s[3..] == line[1..] + next;
  }

  /** Printed headers end where their text ends, whatever body follows. */
  lemma EndOfPrinted(status: string, hs: seq<Header>, body: string)
    requires OneLine(status) && forall k | 0 <= k < |hs| :: ValidHeader(hs[k])
    ensures EndOfHeaders(PrintHeaders(status, hs) + body) == |PrintHeaders(status, hs)|
  {
    EndOfLines(hs, body);
    assert PrintHeaders(status, hs) + body == status + (CRLF + (Lines(hs) + (CRLF + body)));
    EndAfterText(status, CRLF + (Lines(hs) + (CRLF + body)));
  }

  // -- headers with bare LF line ends

  function LinesLf(hs: seq<Header>): string {
    if hs == [] then "" else LineText(hs[0]) + ("\n" + LinesLf(hs[1..]))
  }

  function PrintLf(status: string, hs: seq<Header>): string {
    status + ("\n" + (LinesLf(hs) + "\n"))
  }

  lemma {:induction false} EndOfLinesLf(hs: seq<Header>, body: string)
    requires forall k | 0 <= k < |hs| :: ValidHeader(hs[k])
    ensures EndOfHeaders("\n" + (LinesLf(hs) + ("\n" + body))) == |"\n" + (LinesLf(hs) + "\n")|
    decreases |hs|
  {
    var s := "\n" + (LinesLf(hs) + ("\n" + body));
    if hs == [] {
      assert s[0] == '\n' && s[1] == '\n';
    } else {
      assert ValidHeader(hs[0]);
      var line, next := LineText(hs[0]), "\n" + (LinesLf(hs[1..]) + ("\n" + body));
      LineOneLine(hs[0]);
      assert s == "\n" + (line + next);
      assert s[0] == '\n' && s[1] == line[0] && s[2..] == line[1..] + next;
      EndOfLinesLf(hs[1..], body);
      EndAfterText(line[1..], next);
    }
  }

  /** Headers whose lines end in LF alone end where their text ends, too. */
  lemma EndOfPrintedLf(status: string, hs: seq<Header>, body: string)
    requires OneLine(status) && forall k | 0 <= k < |hs| :: ValidHeader(hs[k])
    ensures EndOfHeaders(PrintLf(status, hs) + body) == |PrintLf(status, hs)|
  {
    EndOfLinesLf(hs, body);
    assert PrintLf(status, hs) + body == status + ("\n" + (LinesLf(hs) + ("\n" + body)));
    EndAfterText(status, "\n" + (LinesLf(hs) + ("\n" + body)));
  }

  // -- the loop over one line

  lemma {:induction false} PlainSkipped(buf: string, end: nat, on: OnLine, i: nat, j: nat, ls: nat, colon: nat,
                                        vs: nat, info: Info)
    requires 0 < end <= |buf| && ls <= |buf| && colon <= |buf| && vs <= |buf| && i <= j < end
    requires forall k | i <= k < j :: !IsEol(buf[k]) && (buf[k] != ':' || ls == 0 || colon > ls)
    ensures ParseFrom(buf, end, on, i, ls, colon, vs, info) == ParseFrom(buf, end, on, j, ls, colon, vs, info)
    decreases j - i
  {
    if i < j {
      PlainSkipped(buf, end, on, i + 1, j, ls, colon, vs, info);
    }
  }

  lemma {:induction false} BlanksSkipped(buf: string, end: nat, i: nat, j: nat)
    requires i <= j && j + 1 < end <= |buf|
    requires (forall k | i < k <= j :: IsBlank(buf[k])) && !IsBlank(buf[j + 1])
    ensures SkipBlanks(buf, end, i) == j
    decreases j - i
  {
    if i < j {
      BlanksSkipped(buf, end, i + 1, j);
    }
  }

  // A line that starts at p, has its colon at c and its value from v to r.
  lemma LineParsed(buf: string, end: nat, on: OnLine, p: nat, c: nat, v: nat, r: nat, info: Info)
    requires 0 < p < c < v <= r && r + 1 < end <= |buf|
    requires forall k | p <= k < c :: !IsEol(buf[k]) && buf[k] != ':'
    requires buf[c] == ':' && (forall k | c < k < v :: IsBlank(buf[k])) && !IsBlank(buf[v])
    requires (forall k | v <= k < r :: !IsEol(buf[k])) && IsEol(buf[r])
    ensures ParseFrom(buf, end, on, p + 1, p, p, 0, info) ==
            var j := SkipEols(buf, r); ParseFrom(buf, end, on, j + 1, j, j, 0, on(info, buf[p..c], buf[v..]))
  {
    PlainSkipped(buf, end, on, p + 1, c, p, p, 0, info);
    BlanksSkipped(buf, end, c, v - 1);
    PlainSkipped(buf, end, on, v, r, p, c, v, info);
  }

  // -- the value of a header is read from the header alone

  lemma {:induction false} NumberStops(s: string, t: string, r: nat)
    requires t != "" && !IsDigit(t[0])
    ensures LeadingNumber(s + t, r) == LeadingNumber(s, r)
    decreases |s|
  {
    if s == "" {
      assert s + t == t;
    } else {
      assert (s + t)[1..] == s[1..] + t;
      if IsDigit(s[0]) {
        NumberStops(s[1..], t, r * 10 + DigitOf(s[0]));
      }
    }
  }

  lemma {:induction false} AtoiStops(s: string, t: string, k: nat)
    requires t != "" && !IsDigit(t[0]) && k < |s| && !IsSpace(s[k])
    ensures Atoi(s + t) == Atoi(s)
    decreases |s|
  {
    assert (s + t)[1..] == s[1..] + t;
    if IsSpace(s[0]) {
      AtoiStops(s[1..], t, k - 1);
    } else {
      NumberStops(s[1..], t, 0);
      NumberStops(s, t, 0);
    }
  }

  lemma ChunkedStops(s: string, t: string)
    ensures StartsChunked(s + (CRLF + t)) == StartsChunked(s)
  {
    var u := s + (CRLF + t);
    if |s| >= 7 {
      assert u[..7] == s[..7];
    } else {
      assert u[|s|] == '\r';
      assert |u| >= 7 ==> Lower(u[..7])[|s|] == '\r';
      assert "chunked"[|s|] != '\r';
    }
  }

  lemma ValueAlone(info: Info, h: Header, t: string)
    requires CountsAlone(h)
    ensures OnHeader(info, h.name, h.value + (CRLF + t)) == OnHeader(info, h.name, h.value)
  {
    ChunkedStops(h.value, t);
    if NameMatches(h.name, LENGTH) {
      var k :| 0 <= k < |h.value| && !IsSpace(h.value[k]);
      AtoiStops(h.value, CRLF + t, k);
    }
  }

  // -- all lines

  lemma Split(buf: string, p: nat, a: string, b: string)
    requires p <= |buf| && buf[p..] == a + b
    ensures p + |a| <= |buf| && buf[p..p + |a|] == a && buf[p + |a|..] == b
    ensures forall k | p <= k < p + |a| :: buf[k] == a[k - p]
  {
    assert buf[p..][..|a|] == a && buf[p..][|a|..] == b;
    assert forall k | p <= k < p + |a| :: buf[k] == buf[p..][k - p];
  }

  lemma Nest(a: string, b: string, c: string, d: string, e: string)
    ensures (a + (b + (c + d))) + e == a + (b + (c + (d + e)))
    ensures (a + (b + c)) + e == a + (b + (c + e))
  {
  }

  // The value of a printed line starts at v and its line end is at r.
  lemma ValueAt(buf: string, v: nat, value: string, t: string)
    requires v <= |buf| && buf[v..] == value + (CRLF + t) && OneLine(value) && (value == "" || !IsBlank(value[0]))
    ensures v + |value| + 2 <= |buf| && buf[v + |value| + 2..] == t
    ensures buf[v + |value|] == '\r' && buf[v + |value| + 1] == '\n' && !IsBlank(buf[v])
    ensures forall k | v <= k < v + |value| :: !IsEol(buf[k])
  {
    Split(buf, v, value, CRLF + t);
    Split(buf, v + |value|, CRLF, t);
  }

  // The name of a printed line starts at p, and the blanks after its colon lead to the value.
  lemma NameAt(buf: string, p: nat, name: string, blanks: string, rest: string)
    requires p <= |buf| && buf[p..] == name + (":" + (blanks + rest))
    requires OneLine(name) && ':' !in name && forall k | 0 <= k < |blanks| :: IsBlank(blanks[k])
    ensures var c := p + |name|; var v := c + 1 + |blanks|;
            && v <= |buf| && buf[p..c] == name && buf[c] == ':' && buf[v..] == rest
            && (forall k | p <= k < c :: !IsEol(buf[k]) && buf[k] != ':')
            && (forall k | c < k < v :: IsBlank(buf[k]))
  {
    var c := p + |name|;
    Split(buf, p, name, ":" + (blanks + rest));
    Split(buf, c, ":", blanks + rest);
    Split(buf, c + 1, blanks, rest);
  }

  // Where a printed line lies in the buffer: its colon at c, its value from v, its end at r.
  lemma LineAt(buf: string, p: nat, h: Header, t: string) returns (c: nat, v: nat, r: nat)
    requires ValidHeader(h) && p <= |buf| && buf[p..] == LineText(h) + (CRLF + t)
    ensures p < c < v <= r && r == p + |LineText(h)| && r + 2 <= |buf|
    ensures buf[p..c] == h.name && buf[v..] == h.value + (CRLF + t) && buf[r + 2..] == t
    ensures buf[c] == ':' && buf[r] == '\r' && buf[r + 1] == '\n' && !IsBlank(buf[v])
    ensures forall k | p <= k < c :: !IsEol(buf[k]) && buf[k] != ':'
    ensures forall k | c < k < v :: IsBlank(buf[k])
    ensures forall k | v <= k < r :: !IsEol(buf[k])
  {
    c := p + |h.name|;
    v := c + 1 + |h.blanks|;
    r := v + |h.value|;
    Nest(h.name, ":", h.blanks, h.value, CRLF + t);
    NameAt(buf, p, h.name, h.blanks, h.value + (CRLF + t));
    ValueAt(buf, v, h.value, t);
  }

  // The line end at r is followed by another header line, or by the empty line that ends the headers.
  lemma NextLine(buf: string, r: nat, hs: seq<Header>, body: string)
    requires r + 2 <= |buf| && buf[r] == '\r' && buf[r + 1] == '\n' && buf[r + 2..] == Lines(hs) + (CRLF + body)
    requires forall k | 0 <= k < |hs| :: ValidHeader(hs[k])
    ensures hs != [] ==> SkipEols(buf, r) == r + 2
    ensures hs == [] ==> SkipEols(buf, r) >= r + 4
  {
    var s := Lines(hs) + (CRLF + body);
    assert forall k | 0 <= k < |s| :: s[k] == buf[r + 2 + k];
    if hs == [] {
      assert s[0] == '\r' && s[1] == '\n';
      assert SkipEols(buf, r) == SkipEols(buf, r + 2) == SkipEols(buf, r + 4);
    } else {
      assert ValidHeader(hs[0]);
      assert s[0] == hs[0].name[0];
      assert SkipEols(buf, r) == SkipEols(buf, r + 2);
    }
  }

  // One printed line, up to its line end at r.
  lemma HeaderParsed(buf: string, end: nat, on: OnLine, p: nat, h: Header, t: string, info: Info)
    requires ValidHeader(h) && ReadAlone(on, h) && 0 < p <= |buf| && buf[p..] == LineText(h) + (CRLF + t)
    requires p + |LineText(h)| + 1 < end <= |buf|
    ensures var r := p + |LineText(h)|; var j := SkipEols(buf, r);
            && ParseFrom(buf, end, on, p + 1, p, p, 0, info) ==
               ParseFrom(buf, end, on, j + 1, j, j, 0, on(info, h.name, h.value))
            && buf[r] == '\r' && buf[r + 1] == '\n' && buf[r + 2..] == t
  {
    var c, v, r := LineAt(buf, p, h, t);
    LineParsed(buf, end, on, p, c, v, r, info);
    assert on(info, h.name, buf[v..]) == on(info, h.name, h.value);
  }

  lemma LinesFirst(hs: seq<Header>, t: string)
    requires hs != []
    ensures Lines(hs) + t == LineText(hs[0]) + (CRLF + (Lines(hs[1..]) + t))
    ensures |Lines(hs)| == |LineText(hs[0])| + 2 + |Lines(hs[1..])|
  {
    Nest(LineText(hs[0]), CRLF, Lines(hs[1..]), "", t);
  }

  /** What is read from the start of a line at p on. */
  function LineFrom(buf: string, end: nat, on: OnLine, p: nat, info: Info): Info
    requires 0 < end <= |buf| && p <= |buf|
  {
    ParseFrom(buf, end, on, p + 1, p, p, 0, info)
  }

  // A name for LineFrom that keeps the loop folded.
  ghost predicate Faithful(at: (nat, Info) -> Info, buf: string, end: nat, on: OnLine) {
    && 0 < end <= |buf|
    && forall p: nat, info {:trigger LineFrom(buf, end, on, p, info)} | p <= |buf| ::
       at(p, info) == LineFrom(buf, end, on, p, info)
  }

  lemma HeaderAt(at: (nat, Info) -> Info, buf: string, end: nat, on: OnLine, p: nat, h: Header, t: string, info: Info)
    requires Faithful(at, buf, end, on) && ValidHeader(h) && ReadAlone(on, h)
    requires 0 < p <= |buf| && buf[p..] == LineText(h) + (CRLF + t) && p + |LineText(h)| + 1 < end
    ensures var r := p + |LineText(h)|;
            && at(p, info) == at(SkipEols(buf, r), on(info, h.name, h.value))
            && buf[r] == '\r' && buf[r + 1] == '\n' && buf[r + 2..] == t
  {
    HeaderParsed(buf, end, on, p, h, t, info);
    var j := SkipEols(buf, p + |LineText(h)|);
    assert at(p, info) == LineFrom(buf, end, on, p, info);
    assert at(j, on(info, h.name, h.value)) == LineFrom(buf, end, on, j, on(info, h.name, h.value));
  }

  lemma EndAt(at: (nat, Info) -> Info, buf: string, end: nat, on: OnLine, p: nat, info: Info)
    requires Faithful(at, buf, end, on) && end <= p + 2 && p <= |buf|
    ensures at(p, info) == info
  {
    assert at(p, info) == LineFrom(buf, end, on, p, info);
  }

  lemma FirstParsed(at: (nat, Info) -> Info, buf: string, end: nat, on: OnLine, p: nat, hs: seq<Header>, body: string,
                    info: Info)
    requires Faithful(at, buf, end, on) && hs != [] && ValidHeader(hs[0]) && ReadAlone(on, hs[0])
    requires 0 < p <= |buf| && buf[p..] == Lines(hs) + (CRLF + body) && end == p + |Lines(hs)| + 2
    ensures var r := p + |LineText(hs[0])|;
            && at(p, info) == at(SkipEols(buf, r), on(info, hs[0].name, hs[0].value))
            && buf[r] == '\r' && buf[r + 1] == '\n' && buf[r + 2..] == Lines(hs[1..]) + (CRLF + body)
            && end == r + 2 + |Lines(hs[1..])| + 2
  {
    var t := Lines(hs[1..]) + (CRLF + body);
    LinesFirst(hs, CRLF + body);
    assert buf[p..] == LineText(hs[0]) + (CRLF + t);
    HeaderAt(at, buf, end, on, p, hs[0], t, info);
  }

  lemma {:induction false} LinesParsed(at: (nat, Info) -> Info, buf: string, end: nat, on: OnLine, p: nat,
                                       hs: seq<Header>, body: string, info: Info)
    requires Faithful(at, buf, end, on)
    requires 0 < p <= |buf| && hs != [] && (forall k | 0 <= k < |hs| :: ValidHeader(hs[k]) && ReadAlone(on, hs[k]))
    requires buf[p..] == Lines(hs) + (CRLF + body) && end == p + |Lines(hs)| + 2
    ensures at(p, info) == InfoOf(on, info, hs)
    decreases |hs|
  {
    var r, told := p + |LineText(hs[0])|, on(info, hs[0].name, hs[0].value);
    FirstParsed(at, buf, end, on, p, hs, body, info);
    NextLine(buf, r, hs[1..], body);
    if |hs| == 1 {
      EndAt(at, buf, end, on, SkipEols(buf, r), told);
    } else {
      LinesParsed(at, buf, end, on, r + 2, hs[1..], body, told);
    }
  }

  lemma StatusParsed(at: (nat, Info) -> Info, buf: string, end: nat, on: OnLine, n: nat, info: Info)
    requires Faithful(at, buf, end, on)
    requires n + 1 < end <= |buf| && (forall k | 0 <= k < n :: !IsEol(buf[k])) && IsEol(buf[n])
    ensures ParseFrom(buf, end, on, 0, 0, 0, 0, info) == at(SkipEols(buf, n), info)
  {
    PlainSkipped(buf, end, on, 0, n, 0, 0, 0, info);
    var j := SkipEols(buf, n);
    assert at(j, info) == LineFrom(buf, end, on, j, info);
  }

  // The same for the whole of the printed headers, n being the length of the status line.
  lemma PrintedAt(at: (nat, Info) -> Info, buf: string, end: nat, on: OnLine, n: nat, hs: seq<Header>, body: string,
                  info: Info)
    requires Faithful(at, buf, end, on) && forall k | 0 <= k < |hs| :: ValidHeader(hs[k]) && ReadAlone(on, hs[k])
    requires n + 2 <= |buf| && buf[n] == '\r' && buf[n + 1] == '\n' && buf[n + 2..] == Lines(hs) + (CRLF + body)
    requires end == n + 2 + |Lines(hs)| + 2
    ensures at(SkipEols(buf, n), info) == InfoOf(on, info, hs)
  {
    NextLine(buf, n, hs, body);
    if hs == [] {
      EndAt(at, buf, end, on, SkipEols(buf, n), info);
    } else {
      LinesParsed(at, buf, end, on, n + 2, hs, body, info);
    }
  }

  lemma PrintedParsed(on: OnLine, status: string, hs: seq<Header>, body: string, info: Info)
    requires OneLine(status) && forall k | 0 <= k < |hs| :: ValidHeader(hs[k]) && ReadAlone(on, hs[k])
    ensures ParseFrom(PrintHeaders(status, hs) + body, |PrintHeaders(status, hs)|, on, 0, 0, 0, 0, info) ==
            InfoOf(on, info, hs)
  {
    var buf, end, n := PrintHeaders(status, hs) + body, |PrintHeaders(status, hs)|, |status|;
    var t := Lines(hs) + (CRLF + body);
    assert buf == status + (CRLF + t);
    assert buf[0..] == buf;
    Split(buf, 0, status, CRLF + t);
    Split(buf, n, CRLF, t);
    var at := (p: nat, i: Info) => if p <= |buf| then LineFrom(buf, end, on, p, i) else i;
    StatusParsed(at, buf, end, on, n, info);
    PrintedAt(at, buf, end, on, n, hs, body, info);
  }

  /** Printed headers are read back as what they say, whatever part of the body has come with them. */
  lemma HeadersReadBack(status: string, hs: seq<Header>, body: string)
    requires OneLine(status) && forall k | 0 <= k < |hs| :: ValidHeader(hs[k]) && CountsAlone(hs[k])
    ensures ParseHeaders(PrintHeaders(status, hs) + body, |PrintHeaders(status, hs)|) ==
            InfoOf(OnHeader, Info(-1, false), hs)
  {
    forall k | 0 <= k < |hs|
      ensures ReadAlone(OnHeader, hs[k])
    {
      ReadAloneIff(hs[k]);
    }
    PrintedParsed(OnHeader, status, hs, body, Info(-1, false));
  }

  lemma {:induction false} AtoiSkips(s: string, t: string)
    requires forall k | 0 <= k < |s| :: IsSpace(s[k])
    ensures Atoi(s + t) == Atoi(t)
    decreases |s|
  {
    if s == "" {
      assert s + t == t;
    } else {
      assert (s + t)[1..] == s[1..] + t;
      AtoiSkips(s[1..], t);
    }
  }

  /** A header is read from its own line, whatever follows the line, exactly when it is not a Content-Length
      with a blank value: atoi runs over the line end into the next line, or into the body. */
  lemma ReadAloneIff(h: Header)
    ensures ReadAlone(OnHeader, h) <==> CountsAlone(h)
  {
    if CountsAlone(h) {
      forall info, t
        ensures OnHeader(info, h.name, h.value + (CRLF + t)) == OnHeader(info, h.name, h.value)
      {
        ValueAlone(info, h, t);
      }
    } else {
      var info, on: OnLine := Info(-1, false), OnHeader;
      BlankLengthReadsOn(info, h, "7");
      AtoiSkips(h.value, "");
      assert h.value + "" == h.value;
      assert Atoi("7") == 7 && Atoi("") == 0;
      assert on(info, h.name, h.value + (CRLF + "7")) != on(info, h.name, h.value);
    }
  }

  lemma BlankLengthReadsOn(info: Info, h: Header, t: string)
    requires NameMatches(h.name, LENGTH) && forall k | 0 <= k < |h.value| :: IsSpace(h.value[k])
    ensures OnHeader(info, h.name, h.value + (CRLF + t)).contentLength == Atoi(t)
  {
    AtoiSkips(CRLF, t);
    AtoiSkips(h.value, CRLF + t);
  }

  /** A response whose only header is a blank Content-Length takes the length from its body. */
  lemma BlankLengthTakesBody(status: string, h: Header, body: string)
    requires OneLine(status) && ValidHeader(h)
    requires NameMatches(h.name, LENGTH) && forall k | 0 <= k < |h.value| :: IsSpace(h.value[k])
    ensures var text := PrintHeaders(status, [h]); ParseHeaders(text + body, |text|).contentLength == Atoi(body)
  {
    var n, info, on: OnLine := |status|, Info(-1, false), OnHeader;
    var buf, end, t := PrintHeaders(status, [h]) + body, |PrintHeaders(status, [h])|, CRLF + body;
    OneLineText(status, h, body);
    Split(buf, 0, status, CRLF + (LineText(h) + (CRLF + t)));
    Split(buf, n, CRLF, LineText(h) + (CRLF + t));
    var at := (p: nat, i: Info) => if p <= |buf| then LineFrom(buf, end, on, p, i) else i;
    StatusParsed(at, buf, end, on, n, info);
    OnlyLine(at, buf, end, on, n, h, body, info);
    AtoiSkips(CRLF, body);
    BlankLengthReadsOn(info, h, t);
  }

  lemma OneLineText(status: string, h: Header, body: string)
    ensures var buf := PrintHeaders(status, [h]) + body;
            buf[0..] == status + (CRLF + (LineText(h) + (CRLF + (CRLF + body))))
    ensures |PrintHeaders(status, [h])| == |status| + 2 + |LineText(h)| + 4
  {
    assert Lines([h]) == LineText(h) + (CRLF + "");
  }

  lemma OnlyLine(at: (nat, Info) -> Info, buf: string, end: nat, on: OnLine, n: nat, h: Header, body: string,
                 info: Info)
    requires Faithful(at, buf, end, on) && ValidHeader(h) && n + 2 <= |buf| && buf[n] == '\r' && buf[n + 1] == '\n'
    requires buf[n + 2..] == LineText(h) + (CRLF + (CRLF + body)) && end == n + 2 + |LineText(h)| + 4
    ensures at(SkipEols(buf, n), info) == on(info, h.name, h.value + (CRLF + (CRLF + body)))
  {
    var c, v, r := LineAt(buf, n + 2, h, CRLF + body);
    assert buf[n + 2] == buf[n + 2..][0] == h.name[0];
    assert SkipEols(buf, n) == SkipEols(buf, n + 2) == n + 2;
    LineParsed(buf, end, on, n + 2, c, v, r, info);
    var told := on(info, h.name, buf[v..]);
    var j := SkipEols(buf, r);
    NextLine(buf, r, [], body);
    assert at(n + 2, info) == LineFrom(buf, end, on, n + 2, info);
    assert at(j, told) == LineFrom(buf, end, on, j, told);
    EndAt(at, buf, end, on, j, told);
  }
}
