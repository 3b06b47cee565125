/** The chunked transfer coding, section 4.1 of RFC 7230: the decoder, one received segment after another. */
module HttpChunks {
  import opened Seqs
  import opened Text

  // ----- hexadecimal sizes

  predicate IsHex(b: char) {
    '0' <= b <= '9' || 'a' <= b <= 'f' || 'A' <= b <= 'F'
  }

  function HexOf(b: char): (d: nat)
    requires IsHex(b)
    ensures d < 16
  {
    if '0' <= b <= '9' then b as int - '0' as int
    else if 'a' <= b <= 'f' then b as int - 'a' as int + 10
    else b as int - 'A' as int + 10
  }

  function HexChar(d: nat): (b: char)
    requires d < 16
    ensures IsHex(b) && HexOf(b) == d
  {
    if d < 10 then (d + '0' as int) as char else (d - 10 + 'a' as int) as char
  }

  predicate AllHex(s: string) {
    forall k | 0 <= k < |s| :: IsHex(s[k])
  }

  /** printf("%x", n) */
  function Hex(n: nat): (s: string)
    ensures s != "" && AllHex(s)
  {
    if n < 16 then [HexChar(n)] else Hex(n / 16) + [HexChar(n % 16)]
  }

  function HexValue(s: string): nat
    requires AllHex(s)
  {
    if s == "" then 0 else HexValue(s[..|s| - 1]) * 16 + HexOf(s[|s| - 1])
  }

  lemma {:induction false} HexRoundTrip(n: nat)
    ensures HexValue(Hex(n)) == n
  {
    if n >= 16 {
      var s := Hex(n);
      assert s[..|s| - 1] == Hex(n / 16);
      HexRoundTrip(n / 16);
    }
  }

  // The hexadecimal digits in their order.
  const LOWER_DIGITS: string := "0123456789abcdef"
  const UPPER_DIGITS: string := "0123456789ABCDEF"

  /** The text writes n in hexadecimal digits, in any capitalisation and with any leading zeros. */
  predicate Writes(s: string, n: nat) {
    if s == "" then n == 0
    else
      var c := s[|s| - 1];
      (c == LOWER_DIGITS[n % 16] || c == UPPER_DIGITS[n % 16]) && Writes(s[..|s| - 1], n / 16)
  }

  /** Every digit has its value, in either case. */
  lemma DigitValues(d: nat)
    requires d < 16
    ensures IsHex(LOWER_DIGITS[d]) && HexOf(LOWER_DIGITS[d]) == d
    ensures IsHex(UPPER_DIGITS[d]) && HexOf(UPPER_DIGITS[d]) == d
    ensures HexChar(d) == LOWER_DIGITS[d]
  {
    if d < 4 {
      assert d == 0 || d == 1 || d == 2 || d == 3;
    } else if d < 8 {
      assert d == 4 || d == 5 || d == 6 || d == 7;
    } else if d < 12 {
      assert d == 8 || d == 9 || d == 10 || d == 11;
    } else {
      assert d == 12 || d == 13 || d == 14 || d == 15;
    }
  }

  /** Whatever writes n is read as n. */
  lemma {:induction false} WrittenIsRead(s: string, n: nat)
    requires Writes(s, n)
    ensures AllHex(s) && HexValue(s) == n
  {
    if s != "" {
      var t := s[..|s| - 1];
      WrittenIsRead(t, n / 16);
      DigitValues(n % 16);
      assert s == t + [s[|s| - 1]];
    }
  }

  lemma {:induction false} HexWrites(n: nat)
    ensures Writes(Hex(n), n)
  {
    var s := Hex(n);
    DigitValues(n % 16);
    if n >= 16 {
      HexWrites(n / 16);
      assert s[..|s| - 1] == Hex(n / 16);
    } else {
      assert s[..0] == "";
    }
  }

  function Power16(e: nat): (p: nat)
    ensures p >= 1
  {
    if e == 0 then 1 else 16 * Power16(e - 1)
  }

  lemma {:induction false} HexShort(n: nat, e: nat)
    requires 1 <= e && n < Power16(e)
    ensures |Hex(n)| <= e
    decreases e
  {
    if n >= 16 {
      HexShort(n / 16, e - 1);
    }
  }

  // chunksize is an unsigned int
  const WORD: nat := 0x1_0000_0000
  const SIGN: nat := 0x8000_0000

  lemma HexFits(n: nat)
    requires n < WORD
    ensures |Hex(n)| <= 8
  {
    assert Power16(2) == 256;
    assert Power16(4) == 65536;
    assert Power16(6) == 16777216;
    assert Power16(8) == WORD;
    HexShort(n, 8);
  }

  // ----- the decoder as an automaton over bytes

  /** Where the decoder is: at the top of its loop, behind the CR of a leading line end, among the digits of a
      size, in a chunk extension, behind the CR that ends a size line, or in the data of a chunk. */
  datatype Phase = Top | Lead | Size | Ext | Cr | Data

  /** Undefined: a size of 2^31 or more, which the copying code takes for a negative number. */
  datatype Status = Running | Finished | Undefined

  datatype Chunker = Chunker(phase: Phase, digits: string, size: nat, body: string, status: Status)
  {
    predicate Valid() {
      AllHex(digits) && (phase == Data <==> size > 0)
    }
  }

  const START: Chunker := Chunker(Top, "", 0, "", Running)

  // The size line is over.
  function Finish(c: Chunker): (r: Chunker)
    requires c.Valid() && c.phase != Data
    ensures r.status == Running ==> r.Valid()
  {
    var k := HexValue(c.digits) % WORD;
    if k == 0 then Chunker(Top, "", 0, c.body, Finished)
    else if k >= SIGN then Chunker(Top, "", 0, c.body, Undefined)
    else Chunker(Data, "", k, c.body, c.status)
  }

  function ExtStep(c: Chunker, b: char): (r: Chunker)
    requires c.Valid() && c.phase != Data
    ensures r.status == Running ==> r.Valid()
  {
    if b == '\r' then c.(phase := Cr) else if b == '\n' then Finish(c) else c.(phase := Ext)
  }

  // chunksize_buf holds 31 digits and a NUL
  const DIGITS: nat := 31

  function SizeStep(c: Chunker, b: char): (r: Chunker)
    requires c.Valid() && c.phase != Data
    ensures r.status == Running ==> r.Valid()
  {
    if IsHex(b) && |c.digits| < DIGITS then c.(phase := Size, digits := c.digits + [b]) else ExtStep(c, b)
  }

  function TopStep(c: Chunker, b: char): (r: Chunker)
    requires c.Valid() && c.phase != Data
    ensures r.status == Running ==> r.Valid()
  {
    if c.digits == "" && b == '\r' then c.(phase := Lead)
    else if c.digits == "" && b == '\n' then c.(phase := Size)
    else SizeStep(c, b)
  }

  /** One byte. */
  function Step(c: Chunker, b: char): (r: Chunker)
    requires c.Valid()
    ensures r.status == Running ==> r.Valid()
  {
    match c.phase
    case Top => TopStep(c, b)
    case Lead => if b == '\n' then c.(phase := Size) else SizeStep(c, b)
    case Size => SizeStep(c, b)
    case Ext => ExtStep(c, b)
    case Cr => if b == '\n' then Finish(c) else TopStep(c, b)
    case Data =>
      var d := c.(size := c.size - 1, body := c.body + [b]);
      if d.size == 0 then d.(phase := Top) else d
  }

  /** The end of a received segment: unless it is inside the data of a chunk, the decoder starts again at the
      top of its loop when the next segment comes. */
  function Boundary(c: Chunker): (r: Chunker)
    requires c.Valid()
    ensures r.Valid()
  {
    if c.phase == Data then c else c.(phase := Top)
  }

  /** One received segment. */
  function Segment(c: Chunker, s: string): (r: Chunker)
    requires c.status == Running ==> c.Valid()
    ensures r.status == Running ==> r.Valid() && r == Boundary(r)
    decreases |s|
  {
    if c.status != Running then c
    else if s == "" then Boundary(c)
    else Segment(Step(c, s[0]), s[1..])
  }

  /** All received segments. */
  function Decode(c: Chunker, segments: seq<string>): (r: Chunker)
    requires c.status == Running ==> c.Valid()
    ensures r.status == Running ==> r.Valid()
    decreases |segments|
  {
    if segments == [] then c else Decode(Segment(c, segments[0]), segments[1..])
  }

  // ----- the encoding

  /** The text of a size, the chunk extension on its line, and data. */
  datatype Parts = Parts(size: string, ext: string, data: string)

  predicate NoEol(s: string) {
    forall k | 0 <= k < |s| :: s[k] != '\r' && s[k] != '\n'
  }

  predicate NoHex(s: string) {
    forall k | 0 <= k < |s| :: !IsHex(s[k])
  }

  // What the decoder needs of a chunk.
  predicate Sendable(c: Parts) {
    && 1 <= |c.size| <= DIGITS && AllHex(c.size) && HexValue(c.size) == |c.data| < SIGN
    && NoEol(c.ext) && (|c.size| < DIGITS ==> NoHex(c.ext))
  }

  type Chunk = c: Parts | Sendable(c) ghost witness Parts("0", "", "")

  /** Chunks with data, then the last chunk, which has none. */
  predicate Message(cs: seq<Chunk>)
    decreases |cs|
  {
    && cs != []
    && if |cs| == 1 then cs[0].data == "" else cs[0].data != "" && Message(cs[1..])
  }

  // What follows the size line of the first chunk.
  function After(cs: seq<Parts>): string
    requires cs != []
    decreases |cs|, 0
  {
    if |cs| == 1 then "" else cs[0].data + (CRLF + Encode(cs[1..]))
  }

  /** The chunks up to the size line of the last one; trailers and the final line end are not looked at. */
  function Encode(cs: seq<Parts>): string
    requires cs != []
    decreases |cs|, 1
  {
    cs[0].size + (cs[0].ext + (CRLF + After(cs)))
  }

  function Payload(cs: seq<Parts>): string
    decreases |cs|
  {
    if cs == [] then "" else cs[0].data + Payload(cs[1..])
  }

  // ----- where a decoder is in an encoding

  /** A place in an encoding; the chunks are those whose size line is not over. */
  datatype Place =
    | InData(data: string, cs: seq<Chunk>)
    | BeforeCr(cs: seq<Chunk>)
    | BeforeLf(cs: seq<Chunk>)
    | BeforeSize(cs: seq<Chunk>)
    | InSize(left: string, cs: seq<Chunk>)
    | InExt(left: string, cs: seq<Chunk>)
    | SizeLf(cs: seq<Chunk>)
    | Over

  predicate ValidPlace(p: Place) {
    match p
    case InData(data, cs) => data != "" && Message(cs)
    case InSize(left, cs) => Message(cs)
    case InExt(left, cs) => Message(cs) && NoEol(left) && (|cs[0].size| < DIGITS ==> NoHex(left))
    case Over => true
    case _ => Message(p.cs)
  }

  type Spot = p: Place | ValidPlace(p) ghost witness Over

  // The bytes still to come.
  function Left(p: Spot): string {
    match p
    case InData(data, cs) => data + (CRLF + Encode(cs))
    case BeforeCr(cs) => CRLF + Encode(cs)
    case BeforeLf(cs) => "\n" + Encode(cs)
    case BeforeSize(cs) => Encode(cs)
    case InSize(left, cs) => left + (cs[0].ext + (CRLF + After(cs)))
    case InExt(left, cs) => left + (CRLF + After(cs))
    case SizeLf(cs) => "\n" + After(cs)
    case Over => ""
  }

  // The data still to come.
  function Due(p: Spot): string {
    match p
    case InData(data, cs) => data + Payload(cs)
    case Over => ""
    case _ => Payload(p.cs)
  }

  function Head(p: Spot): char
    requires !p.Over?
  {
    match p
    case InData(data, cs) => data[0]
    case BeforeCr(cs) => '\r'
    case BeforeLf(cs) => '\n'
    case BeforeSize(cs) => cs[0].size[0]
    case InSize(left, cs) => if left != "" then left[0] else if cs[0].ext != "" then cs[0].ext[0] else '\r'
    case InExt(left, cs) => if left != "" then left[0] else '\r'
    case SizeLf(cs) => '\n'
  }

  // The place after one more byte.
  function Next(p: Spot): Spot
    requires !p.Over?
  {
    match p
    case InData(data, cs) => if |data| == 1 then BeforeCr(cs) else InData(data[1..], cs)
    case BeforeCr(cs) => BeforeLf(cs)
    case BeforeLf(cs) => BeforeSize(cs)
    case BeforeSize(cs) => InSize(cs[0].size[1..], cs)
    case InSize(left, cs) =>
      if left != "" then InSize(left[1..], cs) else if cs[0].ext != "" then InExt(cs[0].ext[1..], cs) else SizeLf(cs)
    case InExt(left, cs) => if left != "" then InExt(left[1..], cs) else SizeLf(cs)
    case SizeLf(cs) => if |cs| == 1 then Over else InData(cs[0].data, cs[1..])
  }

  /** The decoder is at that place, and what it has together with what is due is the whole payload. */
  ghost predicate At(c: Chunker, p: Spot, whole: string) {
    && c.body + Due(p) == whole
    && if p.Over? then c.status == Finished else
       && c.status == Running && c.Valid()
       && match p
          case InData(data, cs) => c.phase == Data && c.size == |data| && c.digits == ""
          case BeforeCr(cs) => c.phase == Top && c.digits == ""
          case BeforeLf(cs) => (c.phase == Lead || c.phase == Top) && c.digits == ""
          case BeforeSize(cs) => (c.phase == Size || c.phase == Top) && c.digits == ""
          case InSize(left, cs) => (c.phase == Size || c.phase == Top) && c.digits != "" &&
            c.digits + left == cs[0].size
          case InExt(left, cs) => (c.phase == Ext || c.phase == Top) && c.digits == cs[0].size
          case SizeLf(cs) => (c.phase == Cr || c.phase == Top) && c.digits == cs[0].size
          case Over => true
  }

  lemma Uncons(s: string, t: string)
    requires s != ""
    ensures s + t == [s[0]] + (s[1..] + t)
  {
    assert s == [s[0]] + s[1..];
    Assoc([s[0]], s[1..], t);
  }

  lemma LeftStep(p: Spot)
    requires !p.Over?
    ensures Left(p) == [Head(p)] + Left(Next(p))
  {
    match p
    case InData(data, cs) => DataLeft(data, cs);
    case BeforeCr(cs) => Uncons(CRLF, Encode(cs));
    case BeforeSize(cs) => Uncons(cs[0].size, cs[0].ext + (CRLF + After(cs)));
    case InSize(left, cs) => SizeLeft(left, cs);
    case InExt(left, cs) => if left == "" { Uncons(CRLF, After(cs)); } else { Uncons(left, CRLF + After(cs)); }
    case SizeLf(cs) =>
    case BeforeLf(cs) =>
  }

  lemma DataLeft(data: string, cs: seq<Chunk>)
    requires ValidPlace(InData(data, cs))
    ensures Left(InData(data, cs)) == [data[0]] + Left(Next(InData(data, cs)))
  {
    var rest := CRLF + Encode(cs);
    Uncons(data, rest);
    assert |data| == 1 ==> data[1..] + rest == rest;
  }

  lemma SizeLeft(left: string, cs: seq<Chunk>)
    requires ValidPlace(InSize(left, cs))
    ensures Left(InSize(left, cs)) == [Head(InSize(left, cs))] + Left(Next(InSize(left, cs)))
  {
    var ext, rest := cs[0].ext, CRLF + After(cs);
    if left != "" {
      Uncons(left, ext + rest);
    } else if ext != "" {
      Uncons(ext, rest);
    } else {
      Uncons(CRLF, After(cs));
    }
  }

  // Every byte of an encoding takes the decoder to the next place.
  lemma StepKeeps(c: Chunker, p: Spot, whole: string)
    requires At(c, p, whole) && !p.Over?
    ensures At(Step(c, Head(p)), Next(p), whole)
  {
    match p
    case InData(data, cs) => DataStep(c, data, cs, whole);
    case BeforeCr(cs) =>
    case BeforeLf(cs) =>
    case BeforeSize(cs) => FirstDigit(c, cs, whole);
    case InSize(left, cs) => DigitStep(c, left, cs, whole);
    case InExt(left, cs) =>
    case SizeLf(cs) => LineEndStep(c, cs, whole);
  }

  lemma DataStep(c: Chunker, data: string, cs: seq<Chunk>, whole: string)
    requires ValidPlace(InData(data, cs)) && At(c, InData(data, cs), whole)
    ensures At(Step(c, data[0]), Next(InData(data, cs)), whole)
  {
    var d := c.body + [data[0]];
    ByteMoves(c.body, data, Payload(cs));
    assert d + (data[1..] + Payload(cs)) == whole;
    if |data| == 1 {
      assert data[1..] + Payload(cs) == Payload(cs);
      assert Step(c, data[0]) == Chunker(Top, "", 0, d, Running);
    } else {
      assert Step(c, data[0]) == Chunker(Data, "", |data| - 1, d, Running);
    }
  }

  // A byte due becomes a byte delivered.
  lemma ByteMoves(body: string, data: string, due: string)
    requires data != ""
    ensures body + (data + due) == (body + [data[0]]) + (data[1..] + due)
  {
    Uncons(data, due);
    Assoc(body, [data[0]], data[1..] + due);
  }

  lemma FirstDigit(c: Chunker, cs: seq<Chunk>, whole: string)
    requires Message(cs) && At(c, BeforeSize(cs), whole)
    ensures At(Step(c, Head(BeforeSize(cs))), Next(BeforeSize(cs)), whole)
  {
    var h := cs[0].size;
    assert c.digits + [h[0]] + h[1..] == h;
  }

  lemma DigitStep(c: Chunker, left: string, cs: seq<Chunk>, whole: string)
    requires ValidPlace(InSize(left, cs)) && At(c, InSize(left, cs), whole)
    ensures At(Step(c, Head(InSize(left, cs))), Next(InSize(left, cs)), whole)
  {
    var h := cs[0].size;
    if left != "" {
      Assoc(c.digits, [left[0]], left[1..]);
      assert left == [left[0]] + left[1..];
      assert left[0] == h[|c.digits|];
    }
  }

  lemma FinishReads(c: Chunker, n: nat)
    requires c.Valid() && c.phase != Data && HexValue(c.digits) == n < SIGN
    ensures Finish(c) == if n == 0 then Chunker(Top, "", 0, c.body, Finished)
            else Chunker(Data, "", n, c.body, c.status)
  {
    SmallRemains(n);
  }

  lemma SmallRemains(n: nat)
    requires n < SIGN
    ensures n % WORD == n
  {
  }

  lemma LineEndStep(c: Chunker, cs: seq<Chunk>, whole: string)
    requires Message(cs) && At(c, SizeLf(cs), whole)
    ensures At(Step(c, '\n'), Next(SizeLf(cs)), whole)
  {
    var n := |cs[0].data|;
    assert Step(c, '\n') == Finish(c);
    FinishReads(c, n);
    if |cs| == 1 {
      assert Payload(cs[1..]) == "";
    }
  }

  // So does the end of a segment, wherever it falls.
  lemma BoundaryKeeps(c: Chunker, p: Spot, whole: string)
    requires At(c, p, whole) && !p.Over?
    ensures At(Boundary(c), p, whole)
  {
  }

  // The place after n more bytes.
  function Advance(p: Spot, n: nat): (q: Spot)
    decreases n
  {
    if n == 0 || p.Over? then p else Advance(Next(p), n - 1)
  }

  lemma {:induction false} SegmentKeeps(c: Chunker, p: Spot, whole: string, s: string, rest: string, extra: string)
    requires At(c, p, whole) && s + rest == Left(p) + extra
    ensures var q := Advance(p, |s|);
            && At(Segment(c, s), q, whole)
            && (q.Over? <==> |s| >= |Left(p)|) && (!q.Over? ==> rest == Left(q) + extra)
    decreases |s|
  {
    if !p.Over? {
      LeftStep(p);
      if s == "" {
        assert s + rest == rest;
        BoundaryKeeps(c, p, whole);
      } else {
        StepKeeps(c, p, whole);
        Heads(s, rest, Head(p), Left(Next(p)), extra);
        SegmentKeeps(Step(c, s[0]), Next(p), whole, s[1..], rest, extra);
      }
    }
  }

  lemma Heads(s: string, rest: string, b: char, t: string, extra: string)
    requires s != "" && s + rest == ([b] + t) + extra
    ensures s[0] == b && s[1..] + rest == t + extra
  {
    Uncons(s, rest);
    Assoc([b], t, extra);
    assert ([s[0]] + (s[1..] + rest))[1..] == s[1..] + rest;
    assert ([b] + (t + extra))[1..] == t + extra;
  }

  lemma {:induction false} DecodeKeeps(c: Chunker, p: Spot, whole: string, segments: seq<string>, rest: string,
                                       extra: string)
    requires At(c, p, whole) && Flatten(segments) + rest == Left(p) + extra
    ensures var q := Advance(p, |Flatten(segments)|);
            && At(Decode(c, segments), q, whole)
            && (q.Over? <==> |Flatten(segments)| >= |Left(p)|)
    decreases |segments|
  {
    if segments == [] {
      if !p.Over? { LeftStep(p); }
    } else {
      var s, t := segments[0], Flatten(segments[1..]);
      Assoc(s, t, rest);
      SegmentKeeps(c, p, whole, s, t + rest, extra);
      var q := Advance(p, |s|);
      AdvanceTwice(p, |s|, |t|);
      if q.Over? {
        Stopped(Segment(c, s), segments[1..]);
      } else {
        DecodeKeeps(Segment(c, s), q, whole, segments[1..], rest, extra);
        AdvanceLeft(p, |s|);
      }
    }
  }

  lemma {:induction false} Stopped(c: Chunker, segments: seq<string>)
    requires c.status != Running
    ensures Decode(c, segments) == c
    decreases |segments|
  {
    if segments != [] { Stopped(c, segments[1..]); }
  }

  lemma {:induction false} AdvanceTwice(p: Spot, m: nat, n: nat)
    ensures Advance(p, m + n) == Advance(Advance(p, m), n)
    decreases m
  {
    if m > 0 && !p.Over? {
      AdvanceTwice(Next(p), m - 1, n);
    }
  }

  lemma {:induction false} AdvanceLeft(p: Spot, n: nat)
    requires !Advance(p, n).Over?
    ensures |Left(p)| == n + |Left(Advance(p, n))|
    decreases n
  {
    if n > 0 && !p.Over? {
      LeftStep(p);
      AdvanceLeft(Next(p), n - 1);
    }
  }

  // ----- the theorem

  /** A chunk as it may be sent: its size written in up to 31 digits, in any capitalisation and with any leading zeros;
      an extension without hexadecimal digits, unless the size has 31 digits. */
  predicate Proper(c: Parts) {
    && |c.data| < 0x8000_0000 && 1 <= |c.size| <= 31 && Writes(c.size, |c.data|)
    && NoEol(c.ext) && (|c.size| < 31 ==> NoHex(c.ext))
  }

  predicate Chunked(cs: seq<Parts>) {
    cs != [] && forall k | 0 <= k < |cs| :: Proper(cs[k]) && (cs[k].data == "" <==> k == |cs| - 1)
  }

  lemma ProperIsSendable(c: Parts)
    requires Proper(c)
    ensures Sendable(c)
  {
    WrittenIsRead(c.size, |c.data|);
  }

  lemma AllSendable(cs: seq<Parts>)
    requires Chunked(cs)
    ensures forall k | 0 <= k < |cs| :: Sendable(cs[k])
  {
    forall k | 0 <= k < |cs|
      ensures Sendable(cs[k])
    {
      ProperIsSendable(cs[k]);
    }
  }

  lemma {:induction false} ChunkedIsMessage(cs: seq<Chunk>)
    requires Chunked(cs)
    ensures Message(cs)
    decreases |cs|
  {
    if |cs| > 1 {
      assert cs[0].data != "";
      assert forall k | 0 <= k < |cs| - 1 :: cs[1..][k] == cs[k + 1];
      ChunkedIsMessage(cs[1..]);
    }
  }

  /** However the bytes of an encoding are cut into segments, the decoder delivers the data of the chunks: all of
      it and nothing else once the last size line has come, whatever follows, and a beginning of it before. */
  lemma ChunkedRoundTrip(cs: seq<Parts>, segments: seq<string>, rest: string, extra: string)
    requires Chunked(cs) && Flatten(segments) + rest == Encode(cs) + extra
    ensures var r := Decode(START, segments);
            if |Flatten(segments)| >= |Encode(cs)| then r.status == Finished && r.body == Payload(cs)
            else r.status == Running && r.body <= Payload(cs)
  {
    AllSendable(cs);
    ChunkedIsMessage(cs);
    var p := BeforeSize(cs);
    assert At(START, p, Payload(cs)) by {
      assert START.body + Due(p) == Payload(cs);
    }
    DecodeKeeps(START, p, Payload(cs), segments, rest, extra);
  }
}
