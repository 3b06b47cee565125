/** The loops that decode a chunked body, over the automaton of HttpChunks. */
module HttpChunkReader {
  import opened Seqs
  import opened HttpBuffer
  import opened HttpChunks

  // ----- the automaton along one segment

  /** The rest of a segment, from i on. */
  function From(c: Chunker, buf: string, i: nat): Chunker
    requires (c.status == Running ==> c.Valid()) && i <= |buf|
  {
    Segment(c, buf[i..])
  }

  lemma FromStep(c: Chunker, buf: string, i: nat)
    requires c.status == Running && c.Valid() && i < |buf|
    ensures From(c, buf, i) == From(Step(c, buf[i]), buf, i + 1)
  {
    assert buf[i..][0] == buf[i] && buf[i..][1..] == buf[i + 1..];
  }

  // Phases that differ at the end of a segment only in what the next bytes could have been.
  lemma FromEnd(c: Chunker, d: Chunker, buf: string)
    requires c.status == d.status == Running && c.Valid() && d.Valid() && Boundary(c) == Boundary(d)
    ensures From(c, buf, |buf|) == From(d, buf, |buf|)
  {
    assert buf[|buf|..] == "";
  }

  lemma FromSame(c: Chunker, d: Chunker, buf: string, i: nat)
    requires c.status == d.status == Running && c.Valid() && d.Valid() && Boundary(c) == Boundary(d) && i <= |buf|
    requires i < |buf| ==> Step(c, buf[i]) == Step(d, buf[i])
    ensures From(c, buf, i) == From(d, buf, i)
  {
    if i < |buf| {
      FromStep(c, buf, i);
      FromStep(d, buf, i);
    } else {
      FromEnd(c, d, buf);
    }
  }

  lemma {:induction false} DataRun(c: Chunker, buf: string, i: nat, m: nat)
    requires c.status == Running && c.Valid() && c.phase == Data && m <= c.size && i + m <= |buf|
    ensures var d := Copied(c, buf[i..i + m]);
            d.Valid() && d.status == Running && From(c, buf, i) == From(d, buf, i + m)
    decreases m
  {
    if m == 0 {
      assert buf[i..i] == "" && c.body + "" == c.body;
    } else {
      FromStep(c, buf, i);
      if m > 1 {
        DataRun(Step(c, buf[i]), buf, i + 1, m - 1);
        assert buf[i..i + m] == [buf[i]] + buf[i + 1..i + m];
        Assoc(c.body, [buf[i]], buf[i + 1..i + m]);
      } else {
        assert buf[i..i + 1] == [buf[i]];
      }
    }
  }

  // The decoder after it has copied s.
  function Copied(c: Chunker, s: string): Chunker
    requires c.phase == Data && |s| <= c.size
  {
    c.(phase := if |s| == c.size then Top else Data, size := c.size - |s|, body := c.body + s)
  }

  // ----- the loops

  datatype Line = Unfinished | Complete

  class ChunkReader {
    const digits: array<char>
    var index: nat
    var size: nat

    ghost predicate Valid()
      reads this, digits
    {
      digits.Length == DIGITS + 1 && index <= DIGITS && AllHex(digits[..index])
    }

    ghost function State(phase: Phase, body: string): Chunker
      requires Valid()
      reads this, digits
    {
      Chunker(phase, digits[..index], size, body, Running)
    }

    constructor ()
      ensures Valid() && index == 0 && size == 0 && fresh(digits)
    {
      digits := new char[DIGITS + 1];
      index, size := 0, 0;
    }

    method SkipLead(buf: string, i: nat, ghost body: string) returns (j: nat)
      requires Valid() && size == 0 && i < |buf|
      ensures i <= j <= |buf| && From(State(Top, body), buf, i) == From(State(Size, body), buf, j)
      ensures j == i ==> index > 0 || (buf[i] != '\r' && buf[i] != '\n')
    {
      ghost var top, lead, sized := State(Top, body), State(Lead, body), State(Size, body);
      j := i;
      if index == 0 {
        if buf[j] == '\r' {
          FromStep(top, buf, j);
          j := j + 1;
          if j == |buf| || buf[j] != '\n' { FromSame(lead, sized, buf, j); }
        }
        if j < |buf| && buf[j] == '\n' {
          FromStep(if j == i then top else lead, buf, j);
          j := j + 1;
        }
      }
      if j == i { FromSame(top, sized, buf, i); }
    }

    method ReadDigits(buf: string, i: nat, ghost body: string) returns (j: nat)
      requires Valid() && size == 0 && i <= |buf|
      modifies this`index, digits
      ensures Valid() && i <= j <= |buf| && From(old(State(Size, body)), buf, i) == From(State(Size, body), buf, j)
      ensures j < |buf| ==> !IsHex(buf[j]) || index == DIGITS
      ensures j == i ==> State(Size, body) == old(State(Size, body))
    {
      j := i;
      while j < |buf| && IsHex(buf[j]) && index < DIGITS
        invariant Valid() && i <= j <= |buf|
        invariant From(old(State(Size, body)), buf, i) == From(State(Size, body), buf, j)
        invariant j == i ==> State(Size, body) == old(State(Size, body))
      {
        ghost var was := digits[..index];
        FromStep(State(Size, body), buf, j);
        digits[index] := buf[j];
        index := index + 1;
        digits[index] := '\0';
        assert digits[..index] == was + [buf[j]];
        j := j + 1;
      }
    }

    method SkipExt(buf: string, i: nat, ghost body: string) returns (j: nat)
      requires Valid() && size == 0 && i <= |buf| && (i < |buf| ==> !IsHex(buf[i]) || index == DIGITS)
      ensures i <= j <= |buf| && From(State(Size, body), buf, i) == From(State(Ext, body), buf, j)
      ensures j < |buf| ==> buf[j] == '\r' || buf[j] == '\n'
    {
      ghost var c := State(Ext, body);
      FromSame(State(Size, body), c, buf, i);
      j := i;
      while j < |buf| && buf[j] != '\r' && buf[j] != '\n'
        invariant i <= j <= |buf| && From(c, buf, i) == From(c, buf, j)
      {
        FromStep(c, buf, j);
        j := j + 1;
      }
    }

    method ReadSize()
      requires Valid() && size == 0
      modifies this, digits
      ensures Valid() && index == 0 && size == HexValue(old(digits[..index])) % WORD
    {
      ghost var s := digits[..index];
      var j := 0;
      while j < index
        invariant j <= index && Valid() && index == old(index) && digits[..index] == s
        invariant size == HexValue(s[..j]) % WORD
      {
        assert s[..j + 1][..j] == s[..j] && s[..j + 1][j] == digits[j];
        Shifted(HexValue(s[..j]), HexOf(digits[j]));
        size := (size * 16 + HexOf(digits[j])) % WORD;
        j := j + 1;
      }
      assert s[..j] == s;
      digits[0] := '\0';
      index := 0;
    }

    // The line end behind a size line, if this segment holds it.
    method LineEnd(buf: string, i: nat, ghost body: string) returns (line: Line, j: nat)
      requires Valid() && size == 0 && i <= |buf| && (i < |buf| ==> buf[i] == '\r' || buf[i] == '\n')
      modifies this, digits
      ensures Valid() && i <= j <= |buf| && (i < |buf| ==> i < j)
      ensures line == Unfinished ==> size == 0 && From(old(State(Ext, body)), buf, i) == From(State(Top, body), buf, j)
      ensures line == Complete ==>
              index == 0 && size < WORD && From(old(State(Ext, body)), buf, i) == Announced(size, body, buf, j)
    {
      j := i;
      ghost var ext, cr, top := State(Ext, body), State(Cr, body), State(Top, body);
      if j < |buf| && buf[j] == '\r' {
        FromStep(ext, buf, j);
        j := j + 1;
      }
      if j < |buf| && buf[j] == '\n' {
        FromStep(if j == i then ext else cr, buf, j);
        ReadSize();
        j := j + 1;
        line := Complete;
      } else {
        FromSame(if j == i then ext else cr, top, buf, j);
        line := Unfinished;
      }
    }

    /** The size line, or as much of it as this segment holds. */
    method SizeLine(buf: string, i: nat, ghost body: string) returns (line: Line, j: nat)
      requires Valid() && size == 0 && i < |buf|
      modifies this, digits
      ensures Valid() && i < j <= |buf|
      ensures line == Unfinished ==> size == 0 && From(old(State(Top, body)), buf, i) == From(State(Top, body), buf, j)
      ensures line == Complete ==>
              index == 0 && size < WORD && From(old(State(Top, body)), buf, i) == Announced(size, body, buf, j)
    {
      j := SkipLead(buf, i, body);
      j := ReadDigits(buf, j, body);
      j := SkipExt(buf, j, body);
      line, j := LineEnd(buf, j, body);
    }

    // Part of the data of a chunk.
    method Copy(buf: string, i: nat, content: Buffer, contentLength: int) returns (j: nat)
      requires Valid() && content.Valid() && digits != content.mem && 0 < size < SIGN && index == 0 && i <= |buf|
      modifies this`size, content, content.mem
      ensures Valid() && content.Valid() && (content.mem == old(content.mem) || fresh(content.mem))
      ensures size < SIGN && i <= j <= |buf| && (i < |buf| ==> i < j)
      ensures From(old(State(Data, content.Contents())), buf, i) ==
              From(State(PhaseOf(size), content.Contents()), buf, j)
    {
      var bytesToCopy := if size < |buf| - i then size else |buf| - i;
      DataRun(State(Data, content.Contents()), buf, i, bytesToCopy);
      content.Append(buf[i..i + bytesToCopy], contentLength);
      j := i + bytesToCopy;
      size := size - bytesToCopy;
    }

    /** One received segment goes through the decoder. */
    method Feed(buf: string, content: Buffer, contentLength: int) returns (status: Status)
      requires Valid() && content.Valid() && digits != content.mem && size < SIGN && (size > 0 ==> index == 0)
      modifies this, digits, content, content.mem
      ensures Valid() && content.Valid() && (content.mem == old(content.mem) || fresh(content.mem))
      ensures status == Running ==> size < SIGN && (size > 0 ==> index == 0)
      ensures var r := From(old(State(PhaseOf(size), content.Contents())), buf, 0);
              r.status == status && content.Contents() == r.body &&
                (status == Running ==> r == State(PhaseOf(size), content.Contents()))
    {
      var i := 0;
      ghost var r := From(State(PhaseOf(size), content.Contents()), buf, 0);
      while i < |buf|
        invariant Valid() && content.Valid() && (content.mem == old(content.mem) || fresh(content.mem)) &&
                  digits != content.mem
        invariant size < SIGN && (size > 0 ==> index == 0) && 0 <= i <= |buf|
        invariant r == From(State(PhaseOf(size), content.Contents()), buf, i)
        decreases |buf| - i, size == 0
      {
        ghost var body := content.Contents();
        var line := Complete;
        if size == 0 {
          line, i := SizeLine(buf, i, body);
          if line == Complete && size == 0 { return Finished; }
          if line == Complete && size >= SIGN { return Undefined; }
        }
        if line == Complete {
          i := Copy(buf, i, content, contentLength);
        }
      }
      assert buf[i..] == "";
      return Running;
    }
  }

  function PhaseOf(size: nat): Phase {
    if size > 0 then Data else Top
  }

  // What becomes of the rest of a segment behind a size line.
  function Announced(n: nat, body: string, buf: string, j: nat): Chunker
    requires j <= |buf|
  {
    if n == 0 then Chunker(Top, "", 0, body, Finished)
    else if n >= SIGN then Chunker(Top, "", 0, body, Undefined)
    else From(Chunker(Data, "", n, body, Running), buf, j)
  }

  lemma Shifted(n: nat, d: nat)
    ensures (n % WORD * 16 + d) % WORD == (n * 16 + d) % WORD
  {
    var q, r := n / WORD, n % WORD;
    assert n * 16 + d == (r * 16 + d) + (q * 16) * WORD;
    Multiple(r * 16 + d, q * 16);
  }

  lemma {:induction false} Multiple(n: nat, q: nat)
    ensures (n + q * WORD) % WORD == n % WORD
    decreases q
  {
    if q > 0 {
      Multiple(n, q - 1);
      assert n + q * WORD == (n + (q - 1) * WORD) + WORD;
    }
  }
}
