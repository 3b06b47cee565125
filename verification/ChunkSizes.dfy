/** Chunk sizes written with many digits. */
module ChunkSizes {
  import opened Seqs
  import opened Text
  import opened HttpChunks
  import opened ChunkExtensions

  // n without its last e hexadecimal digits.
  function Shifted(n: nat, e: nat): (m: nat)
    ensures m <= n && (n > 0 && e > 0 ==> m < n)
  {
    if e == 0 then n else Shifted(n / 16, e - 1)
  }

  lemma {:induction false} BeginningWrites(s: string, n: nat, e: nat)
    requires Writes(s, n) && e <= |s|
    ensures Writes(s[..|s| - e], Shifted(n, e))
    decreases e
  {
    if e == 0 {
      assert s[..|s|] == s;
    } else {
      var t := s[..|s| - 1];
      BeginningWrites(t, n / 16, e - 1);
      assert t[..|t| - (e - 1)] == s[..|s| - e];
    }
  }

  // Only the first 31 digits are kept.
  lemma LongLine(s: string)
    requires AllHex(s) && |s| > 31
    ensures Decode(START, [s + CRLF]) == Finish(TopWith(s[..31]))
  {
    var d, t := s[..31], s[32..] + CRLF;
    var c := START.(phase := Size, digits := d);
    assert s + CRLF == d + ([s[31]] + t);
    assert "" + d == d;
    DigitsRun(START, d, [s[31]] + t);
    assert ([s[31]] + t)[1..] == t;
    assert Step(c, s[31]) == c.(phase := Ext);
    ExtRun(c.(phase := Ext), s[32..], CRLF);
    LineEnd(c.(phase := Ext));
    OneSegment(START, s + CRLF);
  }

  lemma ShortLine(s: string)
    requires AllHex(s) && 1 <= |s| <= 31
    ensures Decode(START, [s + CRLF]) == Finish(TopWith(s))
  {
    assert "" + s == s;
    DigitsRun(START, s, CRLF);
    LineEnd(START.(phase := Size, digits := s));
    OneSegment(START, s + CRLF);
  }

  lemma Finished(s: string, n: nat)
    requires Writes(s, n) && n < 0x8000_0000
    ensures AllHex(s) && Finish(TopWith(s)) == Told(n)
  {
    WrittenIsRead(s, n);
    SmallRemains(n);
  }

  /** A size line without extension, received in one piece, is read as the size it writes exactly when it has at most
      31 digits or writes 0: further digits are dropped. */
  lemma LongSizeIff(s: string, n: nat)
    requires s != "" && Writes(s, n) && n < 0x8000_0000
    ensures Decode(START, [s + CRLF]) == Told(n) <==> |s| <= 31 || n == 0
  {
    if |s| <= 31 {
      ReadShort(s, n);
    } else {
      ReadLong(s, n);
      ToldApart(Shifted(n, |s| - 31), n);
    }
  }

  lemma ReadShort(s: string, n: nat)
    requires 1 <= |s| <= 31 && Writes(s, n) && n < 0x8000_0000
    ensures Decode(START, [s + CRLF]) == Told(n)
  {
    WrittenIsRead(s, n);
    ShortLine(s);
    Finished(s, n);
  }

  lemma ReadLong(s: string, n: nat)
    requires |s| > 31 && Writes(s, n) && n < 0x8000_0000
    ensures Decode(START, [s + CRLF]) == Told(Shifted(n, |s| - 31))
  {
    WrittenIsRead(s, n);
    LongLine(s);
    BeginningWrites(s, n, |s| - 31);
    Finished(s[..31], Shifted(n, |s| - 31));
  }

  lemma ToldApart(m: nat, n: nat)
    ensures Told(m) == Told(n) <==> m == n
  {
  }

  lemma {:induction false} ZerosWrite(s: string)
    requires forall k | 0 <= k < |s| :: s[k] == '0'
    ensures Writes(s, 0)
  {
    if s != "" { ZerosWrite(s[..|s| - 1]); }
  }

  /** A failing input: 31 zeros and a one are taken for the end of the message. */
  lemma ManyZerosEnd(zeros: string)
    requires |zeros| == 31 && forall k | 0 <= k < |zeros| :: zeros[k] == '0'
    ensures Writes(zeros + "1", 1) && Decode(START, [(zeros + "1") + CRLF]) == Told(0)
  {
    var s := zeros + "1";
    assert s[..|s| - 1] == zeros == s[..31];
    ZerosWrite(zeros);
    WrittenIsRead(s, 1);
    LongLine(s);
    Finished(zeros, 0);
  }
}
