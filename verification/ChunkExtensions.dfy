/** When a chunk extension is skipped whatever the segmentation. */
module ChunkExtensions {
  import opened Seqs
  import opened Text
  import opened HttpChunks
  import Arith

  // ----- size lines

  /** What follows the size on its line: anything that does not lengthen the size itself. */
  predicate Extension(ext: string) {
    NoEol(ext) && (ext == "" || !IsHex(ext[0]))
  }

  function SizeLine(n: nat, ext: string): string {
    Hex(n) + (ext + CRLF)
  }

  /** The decoder behind a size line read as n: in the data of a chunk, or at the end of the message. */
  function Told(n: nat): Chunker {
    if n == 0 then Chunker(Top, "", 0, "", Finished) else Chunker(Data, "", n, "", Running)
  }

  /** The size line is read as its size however it is cut. */
  ghost predicate Skipped(n: nat, ext: string) {
    forall segments | Flatten(segments) == SizeLine(n, ext) :: Decode(START, segments) == Told(n)
  }

  // How many digits of an extension fit behind those of the size.
  function Room(n: nat): (r: nat)
    requires n < WORD
    ensures 23 <= r
  {
    HexFits(n);
    DIGITS - |Hex(n)|
  }

  function CountHex(s: string): (k: nat)
    ensures k <= |s|
  {
    if s == "" then 0 else CountHex(s[..|s| - 1]) + if IsHex(s[|s| - 1]) then 1 else 0
  }

  // Eight hexadecimal digits stand directly behind i.
  predicate EightFollow(ext: string, i: nat) {
    i + 8 < |ext| && forall j | i < j <= i + 8 :: IsHex(ext[j])
  }

  // The size that is one digit written eight times is this times the digit.
  const ONES: nat := 0x1111_1111

  /** No hexadecimal digit of the extension can spoil the size: reading it on leaves the last eight digits as they
      are, or pushes it out of them, which are all that count modulo 2^32. */
  predicate Harmless(n: nat, ext: string)
    requires n < WORD
  {
    forall i | 0 <= i < |ext| && IsHex(ext[i]) ::
      || n == ONES * HexOf(ext[i])
      || (n % ONES == 0 && EightFollow(ext, i) && CountHex(ext[..i]) + 9 <= Room(n))
  }

  // ----- the low digits of a number

  function Low(v: nat, e: nat): nat {
    if e == 0 then 0 else Low(v / 16, e - 1) * 16 + v % 16
  }

  function Repeat(d: nat, e: nat): nat {
    if e == 0 then 0 else Repeat(d, e - 1) * 16 + d
  }

  lemma LowStep(v: nat, e: nat, m: nat)
    requires m > 0 && Low(v / 16, e) == v / 16 % m
    ensures Low(v, e + 1) == v % (16 * m)
  {
    var k, t := v / 16 / m, v / 16 % m;
    Quotient(v / 16, m);
    Sixteenfold(k, m);
    Arith.Unique(v, k, 16 * t + v % 16, 16 * m);
  }

  lemma Quotient(q: nat, m: nat)
    requires m > 0
    ensures q == q / m * m + q % m && q % m < m
  {
  }

  lemma Sixteenfold(k: nat, m: nat)
    ensures k * (16 * m) == 16 * (k * m)
  {
  }

  lemma {:induction false} LowIs(v: nat, e: nat)
    ensures Low(v, e) == v % Power16(e)
    decreases e
  {
    if e > 0 {
      LowIs(v / 16, e - 1);
      LowStep(v, e - 1, Power16(e - 1));
    }
  }

  lemma LowWord(v: nat)
    ensures Low(v, 8) == v % WORD
  {
    LowIs(v, 8);
    assert Power16(4) == 65536;
    assert Power16(8) == WORD;
  }

  lemma {:induction false} LowOfRepeat(d: nat, k: nat, e: nat)
    requires d < 16 && e <= k
    ensures Low(Repeat(d, k), e) == Repeat(d, e)
    decreases e
  {
    if e > 0 { LowOfRepeat(d, k - 1, e - 1); }
  }

  lemma RepeatEight(d: nat)
    ensures Repeat(d, 8) == ONES * d
  {
    assert Repeat(d, 1) == d;
    assert Repeat(d, 2) == 0x11 * d;
    assert Repeat(d, 4) == 0x1111 * d;
    assert Repeat(d, 6) == 0x11_1111 * d;
  }

  // ----- digits read on behind a size that repeats one digit

  /** The last e of the digits, or all when there are fewer, are d. */
  predicate LastAre(w: string, d: nat, e: nat)
    requires AllHex(w)
  {
    forall p | 0 <= p < |w| && |w| - e <= p :: HexOf(w[p]) == d
  }

  lemma AllHexAppend(n: nat, w: string)
    requires AllHex(w)
    ensures AllHex(Hex(n) + w)
  {
  }

  function ValueWith(n: nat, w: string): nat
    requires AllHex(w)
  {
    AllHexAppend(n, w);
    HexValue(Hex(n) + w)
  }

  lemma ValueStep(n: nat, w: string)
    requires AllHex(w)
    ensures w == "" ==> ValueWith(n, w) == n
    ensures w != "" ==> ValueWith(n, w) == ValueWith(n, w[..|w| - 1]) * 16 + HexOf(w[|w| - 1])
  {
    HexRoundTrip(n);
    var s := Hex(n) + w;
    if w == "" {
      assert s == Hex(n);
    } else {
      assert s[..|s| - 1] == Hex(n) + w[..|w| - 1];
    }
  }

  lemma LastAreStep(w: string, d: nat, e: nat)
    requires AllHex(w) && w != "" && e > 0
    ensures LastAre(w, d, e) <==> LastAre(w[..|w| - 1], d, e - 1) && HexOf(w[|w| - 1]) == d
  {
    var v := w[..|w| - 1];
    if LastAre(v, d, e - 1) && HexOf(w[|w| - 1]) == d {
      forall p | 0 <= p < |w| && |w| - e <= p
        ensures HexOf(w[p]) == d
      {
        if p < |v| { assert w[p] == v[p]; }
      }
    }
  }

  lemma LowNext(v: nat, x: nat, d: nat, e: nat)
    requires x < 16 && d < 16 && e > 0
    ensures Low(v * 16 + x, e) == Repeat(d, e) <==> Low(v, e - 1) == Repeat(d, e - 1) && x == d
  {
    Sixteenth(v, x);
    assert Low(v * 16 + x, e) == Low(v, e - 1) * 16 + x;
    assert Repeat(d, e) == Repeat(d, e - 1) * 16 + d;
  }

  lemma Sixteenth(v: nat, x: nat)
    requires x < 16
    ensures (v * 16 + x) / 16 == v && (v * 16 + x) % 16 == x
  {
  }

  lemma {:induction false} LowWith(n: nat, d: nat, w: string, e: nat)
    requires d < 16 && n == Repeat(d, 8) && AllHex(w) && e <= 8
    ensures Low(ValueWith(n, w), e) == Repeat(d, e) <==> LastAre(w, d, e)
    decreases |w|
  {
    ValueStep(n, w);
    if w == "" {
      LowOfRepeat(d, 8, e);
    } else if e > 0 {
      LowWith(n, d, w[..|w| - 1], e - 1);
      LowNext(ValueWith(n, w[..|w| - 1]), HexOf(w[|w| - 1]), d, e);
      LastAreStep(w, d, e);
    }
  }

  lemma RepeatedSizeKept(n: nat, d: nat, w: string)
    requires d < 16 && n == ONES * d && n < WORD && AllHex(w)
    ensures ValueWith(n, w) % WORD == n <==> LastAre(w, d, 8)
  {
    RepeatEight(d);
    LowWith(n, d, w, 8);
    LowWord(ValueWith(n, w));
  }

  lemma OneDigitSpoils(n: nat, x: nat)
    requires n < SIGN && x < 16 && (16 * n + x) % WORD == n
    ensures n == ONES * x
  {
    var k := (16 * n + x) / WORD;
    assert 15 * n + x == k * WORD;
  }

  // ----- through a size line with a harmless extension

  /** The digits an extension must not contain, but for those that are pushed out again. */
  predicate Tame(ext: string, d: nat, room: nat) {
    forall i | 0 <= i < |ext| && IsHex(ext[i]) ::
      HexOf(ext[i]) == d || (EightFollow(ext, i) && CountHex(ext[..i]) + 9 <= room)
  }

  // The digit at p is another than d and among the last eight.
  predicate Spoils(w: string, d: nat, p: nat)
    requires AllHex(w)
  {
    p < |w| && HexOf(w[p]) != d && |w| - p <= 8
  }

  // The digits that will push it out are about to be read.
  predicate PushedOut(w: string, p: nat, ext: string, i: nat, room: nat)
    requires p < |w|
  {
    p + 9 <= room && i + 9 - (|w| - p) <= |ext| && forall j | i <= j < i + 9 - (|w| - p) && j < |ext| :: IsHex(ext[j])
  }

  // Behind i bytes of the extension, w being what was read of it.
  ghost predicate Sound(w: string, d: nat, ext: string, i: nat, room: nat, reading: bool) {
    && AllHex(w) && i <= |ext| && |w| <= room && |w| <= CountHex(ext[..i])
    && forall p: nat | Spoils(w, d, p) :: reading && PushedOut(w, p, ext, i, room)
  }

  lemma CountStep(ext: string, i: nat)
    requires i < |ext|
    ensures CountHex(ext[..i + 1]) == CountHex(ext[..i]) + if IsHex(ext[i]) then 1 else 0
  {
    assert ext[..i + 1][..i] == ext[..i];
  }

  // One more digit is read.
  lemma SoundRead(w: string, d: nat, ext: string, i: nat, room: nat)
    requires Tame(ext, d, room) && Sound(w, d, ext, i, room, true) && i < |ext| && IsHex(ext[i]) && |w| < room
    ensures Sound(w + [ext[i]], d, ext, i + 1, room, true)
  {
    var w' := w + [ext[i]];
    CountStep(ext, i);
    forall p: nat | Spoils(w', d, p)
      ensures PushedOut(w', p, ext, i + 1, room)
    {
      if p < |w| {
        assert w'[p] == w[p];
        assert Spoils(w, d, p);
      } else {
        assert HexOf(ext[i]) != d;
        assert EightFollow(ext, i);
      }
    }
  }

  // One byte is skipped, because it is no digit or there is no room for it.
  lemma SoundSkip(w: string, d: nat, ext: string, i: nat, room: nat, reading: bool)
    requires Sound(w, d, ext, i, room, reading) && i < |ext| && (reading && IsHex(ext[i]) ==> |w| == room)
    ensures Sound(w, d, ext, i + 1, room, false)
  {
    CountStep(ext, i);
    assert forall p: nat :: !Spoils(w, d, p);
  }

  lemma SoundEnd(w: string, d: nat, ext: string, room: nat, reading: bool)
    requires Sound(w, d, ext, |ext|, room, reading)
    ensures LastAre(w, d, 8)
  {
    forall p | 0 <= p < |w| && |w| - 8 <= p
      ensures HexOf(w[p]) == d
    {
      assert !Spoils(w, d, p);
    }
  }

  // Reading on w leaves the size as it is.
  predicate Kept(n: nat, w: string)
    requires AllHex(w)
  {
    ValueWith(n, w) % WORD == n
  }

  // The decoder on the size line, with those digits.
  ghost predicate OnLine(c: Chunker, digits: string) {
    c.Valid() && c.status == Running && c.body == "" && c.phase != Data && c.digits == digits
  }

  predicate Reads(c: Chunker) {
    c.phase == Top || c.phase == Size
  }

  // Among the digits of the size, k of them read.
  ghost predicate InDigits(c: Chunker, n: nat, k: nat) {
    k < |Hex(n)| && OnLine(c, Hex(n)[..k]) && Reads(c)
  }

  // Behind i bytes of the extension, w of it read on.
  ghost predicate InExtension(c: Chunker, n: nat, ext: string, d: nat, i: nat, w: string)
    requires n < WORD
  {
    && OnLine(c, Hex(n) + w) && (Reads(c) || (c.phase == Ext && i > 0))
    && Sound(w, d, ext, i, Room(n), Reads(c))
  }

  // Behind the CR.
  ghost predicate BehindCr(c: Chunker, n: nat, w: string) {
    OnLine(c, Hex(n) + w) && (c.phase == Cr || c.phase == Top) && AllHex(w) && Kept(n, w)
  }

  lemma DigitByte(c: Chunker, n: nat, k: nat)
    requires n < WORD && InDigits(c, n, k)
    ensures var c' := Step(c, Hex(n)[k]); OnLine(c', Hex(n)[..k + 1]) && Reads(c')
  {
    HexFits(n);
    assert Hex(n)[..k + 1] == Hex(n)[..k] + [Hex(n)[k]];
  }

  lemma ExtensionByte(c: Chunker, n: nat, ext: string, d: nat, i: nat, w: string) returns (w': string)
    requires n < WORD && Extension(ext) && Tame(ext, d, Room(n)) && InExtension(c, n, ext, d, i, w) && i < |ext|
    ensures InExtension(Step(c, ext[i]), n, ext, d, i + 1, w')
  {
    HexFits(n);
    var b := ext[i];
    assert |c.digits| == |Hex(n)| + |w| && c.digits != "";
    if Reads(c) && IsHex(b) && |w| < Room(n) {
      w' := w + [b];
      Assoc(Hex(n), w, [b]);
      SoundRead(w, d, ext, i, Room(n));
    } else {
      w' := w;
      SoundSkip(w, d, ext, i, Room(n), Reads(c));
    }
  }

  lemma CrByte(c: Chunker, n: nat, ext: string, d: nat, w: string)
    requires n < WORD && InExtension(c, n, ext, d, |ext|, w)
    requires (n == ONES * d && d < 16) || NoHex(ext)
    ensures BehindCr(Step(c, '\r'), n, w)
  {
    if NoHex(ext) {
      NoneCounted(ext, |ext|);
      ValueStep(n, w);
    } else {
      SoundEnd(w, d, ext, Room(n), Reads(c));
      RepeatedSizeKept(n, d, w);
    }
  }

  lemma {:induction false} NoneCounted(ext: string, i: nat)
    requires NoHex(ext) && i <= |ext|
    ensures CountHex(ext[..i]) == 0
    decreases i
  {
    if i > 0 {
      NoneCounted(ext, i - 1);
      CountStep(ext, i - 1);
    }
  }

  lemma LfByte(c: Chunker, n: nat, w: string)
    requires n < SIGN && BehindCr(c, n, w)
    ensures Step(c, '\n') == Told(n)
  {
    AllHexAppend(n, w);
    assert HexValue(c.digits) == ValueWith(n, w);
  }

  ghost predicate SomewhereIn(c: Chunker, n: nat, ext: string, d: nat, i: nat)
    requires n < WORD
  {
    exists w :: InExtension(c, n, ext, d, i, w)
  }

  /** The decoder behind k bytes of the size line. */
  ghost predicate On(c: Chunker, n: nat, ext: string, d: nat, k: nat)
    requires n < WORD
  {
    var h := |Hex(n)|;
    if k < h then InDigits(c, n, k)
    else if k <= h + |ext| then SomewhereIn(c, n, ext, d, k - h)
    else if k == h + |ext| + 1 then exists w :: BehindCr(c, n, w)
    else k == h + |ext| + 2 && c == Told(n)
  }

  ghost predicate TameLine(n: nat, ext: string, d: nat) {
    && n < SIGN && Extension(ext) && Tame(ext, d, Room(n))
    && ((n == ONES * d && d < 16) || NoHex(ext))
  }

  lemma LineByte(c: Chunker, n: nat, ext: string, d: nat, k: nat)
    requires TameLine(n, ext, d) && On(c, n, ext, d, k) && k < |SizeLine(n, ext)|
    ensures c.status == Running && c.Valid() && On(Step(c, SizeLine(n, ext)[k]), n, ext, d, k + 1)
  {
    var h := |Hex(n)|;
    if k < h {
      DigitByte(c, n, k);
      if k + 1 == h {
        assert Hex(n)[..h] + "" == Hex(n)[..h] == Hex(n);
        assert InExtension(Step(c, Hex(n)[k]), n, ext, d, 0, "");
      }
    } else if k <= h + |ext| {
      var w :| InExtension(c, n, ext, d, k - h, w);
      if k < h + |ext| {
        var w' := ExtensionByte(c, n, ext, d, k - h, w);
      } else {
        CrByte(c, n, ext, d, w);
      }
    } else {
      var w :| BehindCr(c, n, w);
      LfByte(c, n, w);
    }
  }

  lemma LineBoundary(c: Chunker, n: nat, ext: string, d: nat, k: nat)
    requires TameLine(n, ext, d) && On(c, n, ext, d, k) && k < |SizeLine(n, ext)|
    ensures On(Boundary(c), n, ext, d, k)
  {
    var h := |Hex(n)|;
    if k < h {
    } else if k <= h + |ext| {
      var w :| InExtension(c, n, ext, d, k - h, w);
      assert InExtension(Boundary(c), n, ext, d, k - h, w);
    } else {
      var w :| BehindCr(c, n, w);
      assert BehindCr(Boundary(c), n, w);
    }
  }

  lemma Ahead(line: string, k: nat, s: string, rest: string)
    requires k <= |line| && line[k..] == s + rest && s != ""
    ensures k < |line| && line[k] == s[0] && line[k + 1..] == s[1..] + rest
  {
    assert line[k..][1..] == line[k + 1..];
  }

  lemma {:induction false} LineSegment(c: Chunker, n: nat, ext: string, d: nat, k: nat, s: string, rest: string)
    requires TameLine(n, ext, d) && On(c, n, ext, d, k) && k <= |SizeLine(n, ext)| && SizeLine(n, ext)[k..] == s + rest
    ensures c.status == Running ==> c.Valid()
    ensures On(Segment(c, s), n, ext, d, k + |s|)
    decreases |s|
  {
    var line := SizeLine(n, ext);
    if k < |line| {
      LineByte(c, n, ext, d, k);
      if s == "" {
        LineBoundary(c, n, ext, d, k);
      } else {
        Ahead(line, k, s, rest);
        LineSegment(Step(c, s[0]), n, ext, d, k + 1, s[1..], rest);
      }
    } else {
      assert s == "";
    }
  }

  lemma {:induction false} LineDecoded(c: Chunker, n: nat, ext: string, d: nat, k: nat, segments: seq<string>)
    requires TameLine(n, ext, d) && On(c, n, ext, d, k) && k <= |SizeLine(n, ext)|
    requires SizeLine(n, ext)[k..] == Flatten(segments)
    ensures c.status == Running ==> c.Valid()
    ensures Decode(c, segments) == Told(n)
    decreases |segments|
  {
    if segments == [] {
      assert k == |SizeLine(n, ext)|;
    } else {
      var s, t := segments[0], Flatten(segments[1..]);
      LineSegment(c, n, ext, d, k, s, t);
      assert SizeLine(n, ext)[k..][|s|..] == SizeLine(n, ext)[k + |s|..];
      LineDecoded(Segment(c, s), n, ext, d, k + |s|, segments[1..]);
    }
  }

  lemma HarmlessIsSkipped(n: nat, ext: string)
    requires n < SIGN && Extension(ext) && Harmless(n, ext)
    ensures Skipped(n, ext)
  {
    var d := n / ONES;
    if n % ONES != 0 {
      forall i | 0 <= i < |ext|
        ensures !IsHex(ext[i])
      {
        if IsHex(ext[i]) { Multiples(n, HexOf(ext[i])); }
      }
    }
    forall i | 0 <= i < |ext| && IsHex(ext[i])
      ensures HexOf(ext[i]) == d || (EightFollow(ext, i) && CountHex(ext[..i]) + 9 <= Room(n))
    {
    }
    assert TameLine(n, ext, d);
    assert SizeLine(n, ext)[0..] == SizeLine(n, ext) && Hex(n)[..0] == "";
    forall segments | Flatten(segments) == SizeLine(n, ext)
      ensures Decode(START, segments) == Told(n)
    {
      LineDecoded(START, n, ext, d, 0, segments);
    }
  }

  lemma Multiples(n: nat, x: nat)
    requires n % ONES != 0
    ensures n != ONES * x
  {
  }

  // ----- cutting a size line so that its extension is read on

  lemma {:induction false} DigitsRun(c: Chunker, d: string, t: string)
    requires OnLine(c, c.digits) && Reads(c) && d != "" && AllHex(d) && |c.digits| + |d| <= DIGITS
    ensures var c' := c.(phase := Size, digits := c.digits + d);
            OnLine(c', c.digits + d) && Segment(c, d + t) == Segment(c', t)
    decreases |d|
  {
    Uncons(d, t);
    assert (d + t)[1..] == d[1..] + t;
    var c' := c.(phase := Size, digits := c.digits + [d[0]]);
    assert Step(c, d[0]) == c';
    if |d| == 1 {
      assert d == [d[0]] && d[1..] + t == t;
    } else {
      DigitsRun(c', d[1..], t);
      assert c.digits + [d[0]] + d[1..] == c.digits + d;
    }
  }

  lemma {:induction false} ExtRun(c: Chunker, e: string, t: string)
    requires OnLine(c, c.digits) && c.phase == Ext && NoEol(e)
    ensures Segment(c, e + t) == Segment(c, t)
    decreases |e|
  {
    if e == "" {
      assert e + t == t;
    } else {
      assert (e + t)[0] == e[0] && (e + t)[1..] == e[1..] + t;
      ExtRun(c, e[1..], t);
    }
  }

  // The decoder at the top of its loop, with those digits.
  function TopWith(digits: string): Chunker {
    START.(digits := digits)
  }

  // A first piece that ends inside the extension leaves just the size.
  lemma FirstPiece(n: nat, u: string)
    requires n < WORD && Extension(u)
    ensures Segment(START, Hex(n) + u) == TopWith(Hex(n))
  {
    HexFits(n);
    DigitsRun(START, Hex(n), u);
    assert "" + Hex(n) == Hex(n);
    var c := START.(phase := Size, digits := Hex(n));
    if u != "" {
      assert u[1..] + "" == u[1..];
      ExtRun(c.(phase := Ext), u[1..], "");
      assert Segment(c, u) == Segment(c.(phase := Ext), u[1..]);
    }
  }

  lemma LineEnd(c: Chunker)
    requires OnLine(c, c.digits) && c.digits != "" && (Reads(c) || c.phase == Ext)
    ensures Segment(c, CRLF) == Finish(c)
  {
    var cr := c.(phase := Cr);
    assert CRLF[1..] == "\n" && "\n"[1..] == "";
    assert Step(c, '\r') == cr && Step(cr, '\n') == Finish(c);
    assert Segment(cr, "\n") == Segment(Finish(c), "");
  }

  // What is read on at the start of a piece: a run of digits, as far as there is room.
  function Run(s: string, room: nat): (w: string)
    ensures |w| <= room && |w| <= |s| && w == s[..|w|] && AllHex(w)
    ensures |w| < |s| && |w| < room ==> !IsHex(s[|w|])
  {
    if s == "" || room == 0 || !IsHex(s[0]) then "" else [s[0]] + Run(s[1..], room - 1)
  }

  lemma PieceStops(c: Chunker, s: string)
    requires OnLine(c, c.digits) && Reads(c) && c.digits != "" && NoEol(s)
    requires s == "" || !IsHex(s[0]) || |c.digits| == DIGITS
    ensures Segment(c, s + CRLF) == Finish(c)
  {
    if s == "" {
      assert s + CRLF == CRLF;
      LineEnd(c);
    } else {
      assert (s + CRLF)[0] == s[0] && (s + CRLF)[1..] == s[1..] + CRLF;
      var skipping := c.(phase := Ext);
      assert Step(c, s[0]) == skipping;
      ExtRun(skipping, s[1..], CRLF);
      LineEnd(skipping);
    }
  }

  lemma FinishSame(c: Chunker)
    requires OnLine(c, c.digits)
    ensures Finish(c) == Finish(TopWith(c.digits))
  {
  }

  lemma LastPiece(c: Chunker, s: string)
    requires OnLine(c, c.digits) && Reads(c) && c.digits != "" && |c.digits| <= DIGITS && NoEol(s)
    ensures AllHex(c.digits + Run(s, DIGITS - |c.digits|))
    ensures Segment(c, s + CRLF) == Finish(TopWith(c.digits + Run(s, DIGITS - |c.digits|)))
  {
    var w := Run(s, DIGITS - |c.digits|);
    var rest := s[|w|..];
    if w == "" {
      assert c.digits + w == c.digits && rest == s;
      PieceStops(c, s);
      FinishSame(c);
    } else {
      var c' := c.(phase := Size, digits := c.digits + w);
      assert s == w + rest;
      Assoc(w, rest, CRLF);
      DigitsRun(c, w, rest + CRLF);
      PieceStops(c', rest);
      FinishSame(c');
    }
  }

  lemma Misread(n: nat, w: string)
    requires n < WORD && AllHex(w) && !Kept(n, w)
    ensures AllHex(Hex(n) + w) && Finish(TopWith(Hex(n) + w)) != Told(n)
  {
    AllHexAppend(n, w);
  }

  lemma DecodeTwo(a: string, b: string)
    ensures Decode(START, [a, b]) == Segment(Segment(START, a), b) && Flatten([a, b]) == a + b
  {
    assert [a, b][1..] == [b] && [b][1..] == [];
    assert Decode(START, [a, b]) == Decode(Segment(START, a), [b]) == Decode(Segment(Segment(START, a), b), []);
    assert Flatten([b]) == b + Flatten([]) == b;
  }

  lemma Counterexample(n: nat, ext: string, segments: seq<string>)
    requires Flatten(segments) == SizeLine(n, ext) && Decode(START, segments) != Told(n)
    ensures !Skipped(n, ext)
  {
  }

  lemma LineCut(n: nat, ext: string, i: nat)
    requires i <= |ext|
    ensures (Hex(n) + ext[..i]) + (ext[i..] + CRLF) == SizeLine(n, ext)
  {
    assert ext == ext[..i] + ext[i..];
    Assoc(ext[..i], ext[i..], CRLF);
    Assoc(Hex(n), ext[..i], ext[i..] + CRLF);
  }

  /** Cut inside the extension, a size line is read with the digits at the cut added to its size. */
  lemma TwoPieces(n: nat, u: string, s: string)
    requires n < WORD && Extension(u) && NoEol(s)
    ensures var w := Run(s, Room(n));
            AllHex(Hex(n) + w) && Decode(START, [Hex(n) + u, s + CRLF]) == Finish(TopWith(Hex(n) + w))
  {
    HexFits(n);
    FirstPiece(n, u);
    LastPiece(TopWith(Hex(n)), s);
    DecodeTwo(Hex(n) + u, s + CRLF);
  }

  lemma CutSpoils(n: nat, ext: string, i: nat)
    requires n < WORD && Extension(ext) && i <= |ext| && !Kept(n, Run(ext[i..], Room(n)))
    ensures !Skipped(n, ext)
  {
    var a, b := Hex(n) + ext[..i], ext[i..] + CRLF;
    TwoPieces(n, ext[..i], ext[i..]);
    Misread(n, Run(ext[i..], Room(n)));
    DecodeTwo(a, b);
    LineCut(n, ext, i);
    Counterexample(n, ext, [a, b]);
  }

  // ----- cutting before every byte

  // The digits among the bytes, as far as there is room.
  function Picked(t: string, room: nat): (w: string)
    ensures |w| <= room && AllHex(w)
    decreases |t|
  {
    if t == "" || room == 0 then "" else if IsHex(t[0]) then [t[0]] + Picked(t[1..], room - 1) else Picked(t[1..], room)
  }

  lemma ByteAlone(digits: string, b: char)
    requires AllHex(digits) && digits != "" && b != '\r' && b != '\n'
    ensures Segment(TopWith(digits), [b]) == TopWith(if IsHex(b) && |digits| < DIGITS then digits + [b] else digits)
  {
    assert [b][1..] == "";
    assert Segment(TopWith(digits), [b]) == Segment(Step(TopWith(digits), b), "");
  }

  lemma OneSegment(c: Chunker, s: string)
    requires c.Valid() && c.status == Running
    ensures Decode(c, [s]) == Segment(c, s)
  {
    assert [s][1..] == [];
    assert Decode(c, [s]) == Decode(Segment(c, s), []);
  }

  lemma {:induction false} BytesAlone(digits: string, t: string, last: string)
    requires AllHex(digits) && digits != "" && |digits| <= DIGITS && NoEol(t)
    ensures AllHex(digits + Picked(t, DIGITS - |digits|))
    ensures Decode(TopWith(digits), Singles(t) + [last]) ==
            Segment(TopWith(digits + Picked(t, DIGITS - |digits|)), last)
    decreases |t|
  {
    var segments := Singles(t) + [last];
    if t == "" {
      assert digits + "" == digits && segments == [last];
      OneSegment(TopWith(digits), last);
    } else {
      ByteAlone(digits, t[0]);
      assert segments[0] == [t[0]] && segments[1..] == Singles(t[1..]) + [last];
      if IsHex(t[0]) && |digits| < DIGITS {
        BytesAlone(digits + [t[0]], t[1..], last);
        Assoc(digits, [t[0]], Picked(t[1..], DIGITS - |digits| - 1));
      } else {
        BytesAlone(digits, t[1..], last);
        if |digits| == DIGITS { assert Picked(t[1..], 0) == Picked(t, 0) == ""; }
      }
    }
  }

  lemma {:induction false} CountCons(t: string)
    requires t != ""
    ensures CountHex(t) == CountHex(t[1..]) + if IsHex(t[0]) then 1 else 0
    decreases |t|
  {
    var u := t[..|t| - 1];
    if |t| > 1 {
      CountCons(u);
      assert u[1..] == t[1..][..|t| - 2];
    } else {
      assert u == "" && t[1..] == "";
    }
  }

  // A digit with fewer than room digits before it is picked, behind them.
  lemma {:induction false} PickedAt(t: string, i: nat, room: nat)
    requires i < |t| && IsHex(t[i]) && CountHex(t[..i]) < room
    ensures var p := CountHex(t[..i]); p < |Picked(t, room)| && Picked(t, room)[p] == t[i]
    decreases i
  {
    if i > 0 {
      CountCons(t[..i]);
      assert t[..i][1..] == t[1..][..i - 1];
      PickedAt(t[1..], i - 1, if IsHex(t[0]) then room - 1 else room);
    }
  }

  // From some byte on there are just so many digits before i.
  lemma {:induction false} StartFor(ext: string, i: nat, k: nat, j: nat) returns (r: nat)
    requires j <= i <= |ext| && CountHex(ext[j..i]) >= k
    ensures r <= i && CountHex(ext[r..i]) == k
    decreases i - j
  {
    if CountHex(ext[j..i]) == k {
      r := j;
    } else {
      assert j < i;
      CountCons(ext[j..i]);
      assert ext[j..i][1..] == ext[j + 1..i];
      r := StartFor(ext, i, k, j + 1);
    }
  }

  lemma BytesSpoil(n: nat, ext: string, j: nat)
    requires n < WORD && Extension(ext) && j <= |ext| && !Kept(n, Picked(ext[j..], Room(n)))
    ensures !Skipped(n, ext)
  {
    var a, t := Hex(n) + ext[..j], ext[j..];
    BytesMisread(n, ext, j);
    SinglesLine(a, t);
    LineCut(n, ext, j);
    Counterexample(n, ext, [a] + (Singles(t) + [CRLF]));
  }

  lemma SinglesLine(a: string, t: string)
    ensures Flatten([a] + (Singles(t) + [CRLF])) == a + (t + CRLF)
  {
    FlattenConcat(Singles(t), [CRLF]);
    assert [CRLF][1..] == [] && Flatten([CRLF]) == CRLF + Flatten([]) == CRLF;
    assert ([a] + (Singles(t) + [CRLF]))[1..] == Singles(t) + [CRLF];
  }

  lemma BytesRead(n: nat, ext: string, j: nat)
    requires n < WORD && Extension(ext) && j <= |ext|
    ensures var w := Picked(ext[j..], Room(n));
            && AllHex(Hex(n) + w)
            && Decode(START, [Hex(n) + ext[..j]] + (Singles(ext[j..]) + [CRLF])) == Segment(TopWith(Hex(n) + w), CRLF)
  {
    var a, tail := Hex(n) + ext[..j], Singles(ext[j..]) + [CRLF];
    HexFits(n);
    FirstPiece(n, ext[..j]);
    BytesAlone(Hex(n), ext[j..], CRLF);
    assert ([a] + tail)[1..] == tail;
    assert Decode(START, [a] + tail) == Decode(TopWith(Hex(n)), tail);
  }

  lemma BytesMisread(n: nat, ext: string, j: nat)
    requires n < WORD && Extension(ext) && j <= |ext| && !Kept(n, Picked(ext[j..], Room(n)))
    ensures Decode(START, [Hex(n) + ext[..j]] + (Singles(ext[j..]) + [CRLF])) != Told(n)
  {
    var w := Picked(ext[j..], Room(n));
    BytesRead(n, ext, j);
    Misread(n, w);
    LineEnd(TopWith(Hex(n) + w));
  }

  // ----- both directions

  lemma {:induction false} LastHex(ext: string, i: nat) returns (k: nat)
    requires i < |ext| && IsHex(ext[i])
    ensures k < |ext| && IsHex(ext[k]) && NoHex(ext[k + 1..])
    decreases |ext| - i
  {
    k := i;
    if !NoHex(ext[i + 1..]) {
      var j :| 0 <= j < |ext[i + 1..]| && IsHex(ext[i + 1..][j]);
      k := LastHex(ext, i + 1 + j);
    }
  }

  lemma RunOfOne(s: string, room: nat)
    requires s != "" && IsHex(s[0]) && NoHex(s[1..]) && room > 0
    ensures Run(s, room) == [s[0]]
  {
    assert Run(s[1..], room - 1) == "";
  }

  lemma ValueOfOne(n: nat, x: char)
    requires IsHex(x)
    ensures ValueWith(n, [x]) == 16 * n + HexOf(x)
  {
    ValueStep(n, [x]);
    assert [x][..0] == "";
    ValueStep(n, "");
  }

  lemma OtherSizeSpoiled(n: nat, ext: string, i: nat)
    requires n < SIGN && Extension(ext) && n % ONES != 0 && i < |ext| && IsHex(ext[i])
    ensures !Skipped(n, ext)
  {
    var k := LastHex(ext, i);
    assert ext[k..][1..] == ext[k + 1..];
    RunOfOne(ext[k..], Room(n));
    ValueOfOne(n, ext[k]);
    Multiples(n, HexOf(ext[k]));
    if Kept(n, [ext[k]]) { OneDigitSpoils(n, HexOf(ext[k])); }
    CutSpoils(n, ext, k);
  }

  lemma TooFewFollow(n: nat, d: nat, ext: string, i: nat)
    requires n < SIGN && Extension(ext) && n == ONES * d && i < |ext| && IsHex(ext[i]) && HexOf(ext[i]) != d
    requires !EightFollow(ext, i)
    ensures !Skipped(n, ext)
  {
    var w := Run(ext[i..], Room(n));
    assert 0 < |w| && w[0] == ext[i];
    RepeatedSizeKept(n, d, w);
    CutSpoils(n, ext, i);
  }

  lemma TooManyBefore(n: nat, d: nat, ext: string, i: nat)
    requires n < SIGN && Extension(ext) && n == ONES * d && i < |ext| && IsHex(ext[i]) && HexOf(ext[i]) != d
    requires CountHex(ext[..i]) + 9 > Room(n)
    ensures !Skipped(n, ext)
  {
    var p := Room(n) - 8;
    assert ext[0..i] == ext[..i];
    var j := StartFor(ext, i, p, 0);
    var t := ext[j..];
    assert t[..i - j] == ext[j..i];
    PickedAt(t, i - j, Room(n));
    RepeatedSizeKept(n, d, Picked(t, Room(n)));
    BytesSpoil(n, ext, j);
  }

  /** A size line is read as its size for every segmentation exactly when its extension is harmless: behind a cut,
      digits in the extension are taken for more digits of the size. */
  lemma SkippedIff(n: nat, ext: string)
    requires n < 0x8000_0000 && Extension(ext)
    ensures Skipped(n, ext) <==> Harmless(n, ext)
  {
    if Harmless(n, ext) {
      HarmlessIsSkipped(n, ext);
    } else {
      var i :| 0 <= i < |ext| && IsHex(ext[i]) && n != ONES * HexOf(ext[i])
               && !(n % ONES == 0 && EightFollow(ext, i) && CountHex(ext[..i]) + 9 <= Room(n));
      if n % ONES != 0 {
        OtherSizeSpoiled(n, ext, i);
      } else if !EightFollow(ext, i) {
        TooFewFollow(n, n / ONES, ext, i);
      } else {
        TooManyBefore(n, n / ONES, ext, i);
      }
    }
  }

  /** For sizes from 1 to 2^28 - 1 that is: when the extension has no hexadecimal digit. */
  lemma SmallSizes(n: nat, ext: string)
    requires 1 <= n < 0x1000_0000 && Extension(ext)
    ensures Skipped(n, ext) <==> NoHex(ext)
  {
    SkippedIff(n, ext);
    if !NoHex(ext) {
      var i :| 0 <= i < |ext| && IsHex(ext[i]);
      assert n % ONES != 0;
      Multiples(n, HexOf(ext[i]));
    }
  }

  lemma OneDigitAdded(n: nat, u: string, x: char)
    requires n < 0x800_0000 && Extension(u) && IsHex(x) && 0 < 16 * n + HexOf(x)
    ensures Decode(START, [Hex(n) + u, [x] + CRLF]) == Chunker(Data, "", 16 * n + HexOf(x), "", Running)
  {
    TwoPieces(n, u, [x]);
    RunOfOne([x], Room(n));
    ValueOfOne(n, x);
    FinishWith(n, [x]);
  }

  lemma FinishWith(n: nat, w: string)
    requires AllHex(w) && 0 < ValueWith(n, w) < SIGN
    ensures AllHex(Hex(n) + w) && Finish(TopWith(Hex(n) + w)) == Chunker(Data, "", ValueWith(n, w), "", Running)
  {
    AllHexAppend(n, w);
  }

  /** Failing inputs: a size of 1 cut behind its semicolon is read as 1a, and the end of a message as a chunk of 10
      bytes. */
  lemma DigitOfExtensionCounts()
    ensures Decode(START, ["1;", "a\r\n"]) == Chunker(Data, "", 26, "", Running)
    ensures Decode(START, ["0;", "a\r\n"]) == Chunker(Data, "", 10, "", Running)
  {
    assert Hex(1) + ";" == "1;" && Hex(0) + ";" == "0;" && ['a'] + CRLF == "a\r\n";
    OneDigitAdded(1, ";", 'a');
    OneDigitAdded(0, ";", 'a');
  }
}
