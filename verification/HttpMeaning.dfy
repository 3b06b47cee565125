/** What the headers of a response declare, and when the client reads that. */
module HttpMeaning {
  import opened Text
  import opened HttpHeaders

  // ----- headers by their whole names

  /** Header names are compared without regard to case, but as a whole. */
  predicate IsLength(name: string) {
    Lower(name) == LENGTH
  }

  predicate IsCoding(name: string) {
    Lower(name) == CODING
  }

  // The letters of a word, each in either case.
  predicate AnyCase(s: string, lower: string, upper: string)
    requires |lower| == |upper|
  {
    |s| == |lower| && forall k | 0 <= k < |s| :: s[k] == lower[k] || s[k] == upper[k]
  }

  // The same letter in both cases, or no letter.
  predicate Pair(l: char, u: char) {
    if 'a' <= l <= 'z' then u as int == l as int - 32 else l == u && !('A' <= l <= 'Z')
  }

  lemma AnyCaseIff(s: string, lower: string, upper: string)
    requires |lower| == |upper| && forall k | 0 <= k < |lower| :: Pair(lower[k], upper[k])
    ensures Lower(s) == lower <==> AnyCase(s, lower, upper)
  {
    if |s| == |lower| {
      forall k | 0 <= k < |s|
        ensures ToLower(s[k]) == lower[k] <==> s[k] == lower[k] || s[k] == upper[k]
      {
        assert Pair(lower[k], upper[k]);
      }
    }
  }

  /** The names and the value that count, written out. */
  lemma WordsAre(s: string)
    ensures IsLength(s) <==> AnyCase(s, "content-length", "CONTENT-LENGTH")
    ensures IsCoding(s) <==> AnyCase(s, "transfer-encoding", "TRANSFER-ENCODING")
    ensures StartsChunked(s) <==> |s| >= 7 && AnyCase(s[..7], "chunked", "CHUNKED")
  {
    AnyCaseIff(s, "content-length", "CONTENT-LENGTH");
    AnyCaseIff(s, "transfer-encoding", "TRANSFER-ENCODING");
    if |s| >= 7 {
      AnyCaseIff(s[..7], "chunked", "CHUNKED");
    }
  }

  /** What one header declares. */
  function Declares(info: Info, name: string, value: string): Info {
    if IsLength(name) then info.(contentLength := Atoi(value))
    else if IsCoding(name) && StartsChunked(value) then info.(chunked := true)
    else info
  }

  function Declared(hs: seq<Header>): Info {
    InfoOf(Declares, Info(-1, false), hs)
  }

  // ----- readers of headers in closed form

  // A reader that takes names for those of a length or of a coding.
  function Reader(isLength: string -> bool, isCoding: string -> bool): OnLine {
    (info: Info, name: string, value: string) =>
      if isLength(name) then info.(contentLength := Atoi(value))
      else if isCoding(name) && StartsChunked(value) then info.(chunked := true)
      else info
  }

  predicate Chunks(isLength: string -> bool, isCoding: string -> bool, h: Header) {
    !isLength(h.name) && isCoding(h.name) && StartsChunked(h.value)
  }

  // The k-th header is the last that gives a length.
  ghost predicate LastLength(isLength: string -> bool, hs: seq<Header>, k: nat) {
    k < |hs| && isLength(hs[k].name) && forall j | k < j < |hs| :: !isLength(hs[j].name)
  }

  ghost predicate NoLength(isLength: string -> bool, hs: seq<Header>) {
    forall j | 0 <= j < |hs| :: !isLength(hs[j].name)
  }

  ghost predicate AnyChunks(isLength: string -> bool, isCoding: string -> bool, hs: seq<Header>) {
    exists k | 0 <= k < |hs| :: Chunks(isLength, isCoding, hs[k])
  }

  lemma {:induction false} NoLengthRead(isLength: string -> bool, isCoding: string -> bool, info: Info, hs: seq<Header>)
    requires NoLength(isLength, hs)
    ensures InfoOf(Reader(isLength, isCoding), info, hs).contentLength == info.contentLength
    decreases |hs|
  {
    if hs != [] {
      assert !isLength(hs[0].name);
      NoLengthRead(isLength, isCoding, Reader(isLength, isCoding)(info, hs[0].name, hs[0].value), hs[1..]);
    }
  }

  lemma {:induction false} LastLengthRead(isLength: string -> bool, isCoding: string -> bool, info: Info,
                                          hs: seq<Header>, k: nat)
    requires LastLength(isLength, hs, k)
    ensures InfoOf(Reader(isLength, isCoding), info, hs).contentLength == Atoi(hs[k].value)
    decreases k
  {
    var info' := Reader(isLength, isCoding)(info, hs[0].name, hs[0].value);
    if k == 0 {
      NoLengthRead(isLength, isCoding, info', hs[1..]);
    } else {
      LastLengthRead(isLength, isCoding, info', hs[1..], k - 1);
    }
  }

  lemma {:induction false} ChunksRead(isLength: string -> bool, isCoding: string -> bool, info: Info, hs: seq<Header>)
    ensures InfoOf(Reader(isLength, isCoding), info, hs).chunked <==> info.chunked || AnyChunks(isLength, isCoding, hs)
    decreases |hs|
  {
    if hs != [] {
      var tail := hs[1..];
      ChunksRead(isLength, isCoding, Reader(isLength, isCoding)(info, hs[0].name, hs[0].value), tail);
      if AnyChunks(isLength, isCoding, hs) {
        var k :| 0 <= k < |hs| && Chunks(isLength, isCoding, hs[k]);
        if k > 0 { assert Chunks(isLength, isCoding, tail[k - 1]); }
      }
      if AnyChunks(isLength, isCoding, tail) {
        var k :| 0 <= k < |tail| && Chunks(isLength, isCoding, tail[k]);
        assert Chunks(isLength, isCoding, hs[k + 1]);
      }
    }
  }

  lemma {:induction false} SameReading(f: OnLine, g: OnLine, info: Info, hs: seq<Header>)
    requires forall i, n, v :: f(i, n, v) == g(i, n, v)
    ensures InfoOf(f, info, hs) == InfoOf(g, info, hs)
    decreases |hs|
  {
    if hs != [] { SameReading(f, g, f(info, hs[0].name, hs[0].value), hs[1..]); }
  }

  predicate MatchesLength(name: string) {
    NameMatches(name, LENGTH)
  }

  predicate MatchesCoding(name: string) {
    NameMatches(name, CODING)
  }

  lemma OnHeaderReads(info: Info, hs: seq<Header>)
    ensures InfoOf(OnHeader, info, hs) == InfoOf(Reader(MatchesLength, MatchesCoding), info, hs)
  {
    forall i, n, v
      ensures OnHeader(i, n, v) == Reader(MatchesLength, MatchesCoding)(i, n, v)
    {
      assert MatchesLength(n) == NameMatches(n, LENGTH) && MatchesCoding(n) == NameMatches(n, CODING);
    }
    SameReading(OnHeader, Reader(MatchesLength, MatchesCoding), info, hs);
  }

  lemma DeclaresReads(info: Info, hs: seq<Header>)
    ensures InfoOf(Declares, info, hs) == InfoOf(Reader(IsLength, IsCoding), info, hs)
  {
    SameReading(Declares, Reader(IsLength, IsCoding), info, hs);
  }

  lemma {:induction false} SomeLast(isLength: string -> bool, hs: seq<Header>, i: nat) returns (k: nat)
    requires i < |hs| && isLength(hs[i].name)
    ensures i <= k && LastLength(isLength, hs, k)
    decreases |hs| - i
  {
    k := i;
    if j :| i < j < |hs| && isLength(hs[j].name) {
      k := SomeLast(isLength, hs, j);
    }
  }

  lemma LengthOrChunked(name: string)
    ensures !(IsLength(name) && IsCoding(name))
  {
    assert |LENGTH| != |CODING|;
  }

  /** A list of headers declares the length in its last Content-Length, -1 without one, and is chunked exactly when
      some Transfer-Encoding says so. */
  lemma DeclaredIs(hs: seq<Header>)
    ensures forall k: nat | LastLength(IsLength, hs, k) :: Declared(hs).contentLength == Atoi(hs[k].value)
    ensures NoLength(IsLength, hs) ==> Declared(hs).contentLength == -1
    ensures Declared(hs).chunked <==> exists k | 0 <= k < |hs| :: IsCoding(hs[k].name) && StartsChunked(hs[k].value)
  {
    var info := Info(-1, false);
    DeclaresReads(info, hs);
    forall k: nat | LastLength(IsLength, hs, k)
      ensures Declared(hs).contentLength == Atoi(hs[k].value)
    {
      LastLengthRead(IsLength, IsCoding, info, hs, k);
    }
    if NoLength(IsLength, hs) { NoLengthRead(IsLength, IsCoding, info, hs); }
    ChunksRead(IsLength, IsCoding, info, hs);
    if k :| 0 <= k < |hs| && IsCoding(hs[k].name) && StartsChunked(hs[k].value) {
      LengthOrChunked(hs[k].name);
      assert Chunks(IsLength, IsCoding, hs[k]);
    }
    if AnyChunks(IsLength, IsCoding, hs) {
      var k :| 0 <= k < |hs| && Chunks(IsLength, IsCoding, hs[k]);
      assert IsCoding(hs[k].name) && StartsChunked(hs[k].value);
    }
  }

  // ----- names taken for others

  /** The name is a proper beginning of the word, or the word with a NUL behind it. */
  predicate Mistaken(name: string, word: string) {
    || (|name| < |word| && Lower(name) == word[..|name|])
    || (|name| > |word| && Lower(name[..|word|]) == word && name[|word|] == '\0')
  }

  lemma MatchesIff(name: string, word: string)
    ensures NameMatches(name, word) <==> Lower(name) == word || Mistaken(name, word)
    ensures !(Lower(name) == word && Mistaken(name, word))
  {
    assert |Lower(name)| == |name|;
    if |name| == |word| { assert word[..|name|] == word; }
  }

  lemma FirstLetter(name: string)
    requires name != ""
    ensures !(NameMatches(name, LENGTH) && NameMatches(name, CODING))
  {
    FirstOfMatch(name, LENGTH);
    FirstOfMatch(name, CODING);
  }

  lemma FirstOfMatch(name: string, word: string)
    requires name != "" && word != ""
    ensures NameMatches(name, word) ==> ToLower(name[0]) == word[0]
  {
    if |name| <= |word| {
      assert Lower(name)[0] == ToLower(name[0]) && word[..|name|][0] == word[0];
    } else {
      assert Lower(name[..|word|])[0] == ToLower(name[0]);
    }
  }

  /** One header is read as what it declares, whatever its value, exactly when its name is not mistaken. */
  lemma HeaderMeantIff(name: string)
    requires name != ""
    ensures (forall info, value :: OnHeader(info, name, value) == Declares(info, name, value))
            <==> !Mistaken(name, LENGTH) && !Mistaken(name, CODING)
  {
    MatchesIff(name, LENGTH);
    MatchesIff(name, CODING);
    FirstLetter(name);
    var info := Info(-1, false);
    if Mistaken(name, LENGTH) {
      FiveIsFive();
      assert OnHeader(info, name, "5") != Declares(info, name, "5");
    } else if Mistaken(name, CODING) {
      ChunkedIsChunked();
      assert OnHeader(info, name, "chunked") != Declares(info, name, "chunked");
    }
  }

  lemma FiveIsFive()
    ensures Atoi("5") == 5 && Atoi("4") == 4 && !StartsChunked("4") && !StartsChunked("5")
  {
    assert "5"[1..] == "" && "4"[1..] == "";
  }

  lemma ChunkedIsChunked()
    ensures StartsChunked("chunked") && !StartsChunked("")
  {
    assert "chunked"[..7] == "chunked";
  }

  /** Failing inputs: "C: 5" gives a length, and "T: chunked" a coding. */
  lemma BeginningsCount(info: Info)
    ensures OnHeader(info, "C", "5") == info.(contentLength := 5) && Declares(info, "C", "5") == info
    ensures OnHeader(info, "T", "chunked") == info.(chunked := true) && Declares(info, "T", "chunked") == info
  {
    FiveIsFive();
    ChunkedIsChunked();
    assert Lower("C") == "c" == LENGTH[..1] && Lower("T") == "t" == CODING[..1];
    assert |LENGTH| == 14 && |CODING| == 17;
    FirstLetter("T");
    MatchesIff("T", LENGTH);
  }

  // ----- lists of headers

  /** No name is mistaken for Transfer-Encoding, and none for Content-Length unless a Content-Length follows. */
  ghost predicate Clear(hs: seq<Header>) {
    && (forall k | 0 <= k < |hs| :: !Mistaken(hs[k].name, CODING))
    && forall k | 0 <= k < |hs| && Mistaken(hs[k].name, LENGTH) :: exists j | k < j < |hs| :: IsLength(hs[j].name)
  }

  predicate Named(hs: seq<Header>) {
    forall k | 0 <= k < |hs| :: hs[k].name != ""
  }

  predicate SameNames(hs: seq<Header>, gs: seq<Header>) {
    |hs| == |gs| && forall k | 0 <= k < |hs| :: hs[k].name == gs[k].name
  }

  lemma ClearByName(hs: seq<Header>, gs: seq<Header>)
    requires SameNames(hs, gs) && Clear(hs)
    ensures Clear(gs)
  {
    forall k | 0 <= k < |gs| && Mistaken(gs[k].name, LENGTH)
      ensures exists j | k < j < |gs| :: IsLength(gs[j].name)
    {
      var j :| k < j < |hs| && IsLength(hs[j].name);
      assert IsLength(gs[j].name);
    }
  }

  lemma ClearLengths(info: Info, hs: seq<Header>)
    requires Clear(hs)
    ensures InfoOf(OnHeader, info, hs).contentLength == InfoOf(Declares, info, hs).contentLength
  {
    OnHeaderReads(info, hs);
    DeclaresReads(info, hs);
    forall k | 0 <= k < |hs|
      ensures MatchesLength(hs[k].name) <==> IsLength(hs[k].name) || Mistaken(hs[k].name, LENGTH)
    {
      MatchesIff(hs[k].name, LENGTH);
    }
    if i :| 0 <= i < |hs| && MatchesLength(hs[i].name) {
      var k := SomeLast(MatchesLength, hs, i);
      assert IsLength(hs[k].name);
      assert LastLength(IsLength, hs, k);
      LastLengthRead(MatchesLength, MatchesCoding, info, hs, k);
      LastLengthRead(IsLength, IsCoding, info, hs, k);
    } else {
      NoLengthRead(MatchesLength, MatchesCoding, info, hs);
      NoLengthRead(IsLength, IsCoding, info, hs);
    }
  }

  lemma ClearChunks(info: Info, hs: seq<Header>)
    requires Clear(hs) && Named(hs)
    ensures InfoOf(OnHeader, info, hs).chunked == InfoOf(Declares, info, hs).chunked
  {
    OnHeaderReads(info, hs);
    DeclaresReads(info, hs);
    ChunksRead(MatchesLength, MatchesCoding, info, hs);
    ChunksRead(IsLength, IsCoding, info, hs);
    forall k | 0 <= k < |hs|
      ensures Chunks(MatchesLength, MatchesCoding, hs[k]) <==> Chunks(IsLength, IsCoding, hs[k])
    {
      var name := hs[k].name;
      MatchesIff(name, LENGTH);
      MatchesIff(name, CODING);
      FirstLetter(name);
    }
  }

  /** The client reads a list of headers as what it declares. */
  ghost predicate Meant(hs: seq<Header>) {
    forall info :: InfoOf(OnHeader, info, hs) == InfoOf(Declares, info, hs)
  }

  lemma ClearIsMeant(hs: seq<Header>)
    requires Clear(hs) && Named(hs)
    ensures Meant(hs)
  {
    forall info
      ensures InfoOf(OnHeader, info, hs) == InfoOf(Declares, info, hs)
    {
      ClearLengths(info, hs);
      ClearChunks(info, hs);
    }
  }

  // The same names, with one value at k and another everywhere else.
  function Valued(hs: seq<Header>, k: nat, value: string, other: string): (gs: seq<Header>)
    ensures SameNames(hs, gs) && forall i | 0 <= i < |gs| :: gs[i].value == if i == k then value else other
  {
    seq(|hs|, i requires 0 <= i < |hs| => hs[i].(value := if i == k then value else other))
  }

  // Only a mistaken name has the value that counts.
  lemma NothingDeclared(gs: seq<Header>, k: nat)
    requires k < |gs| && Mistaken(gs[k].name, CODING) && forall i | 0 <= i < |gs| && i != k :: gs[i].value == ""
    ensures !AnyChunks(IsLength, IsCoding, gs)
  {
    ChunkedIsChunked();
    forall i | 0 <= i < |gs|
      ensures !Chunks(IsLength, IsCoding, gs[i])
    {
      assert i == k ==> !IsCoding(gs[i].name);
    }
  }

  lemma SomethingRead(gs: seq<Header>, k: nat)
    requires k < |gs| && gs[k].name != "" && Mistaken(gs[k].name, CODING) && gs[k].value == "chunked"
    ensures AnyChunks(MatchesLength, MatchesCoding, gs)
  {
    ChunkedIsChunked();
    MatchesIff(gs[k].name, CODING);
    FirstLetter(gs[k].name);
    assert Chunks(MatchesLength, MatchesCoding, gs[k]);
  }

  lemma CodingMistaken(hs: seq<Header>, k: nat)
    requires Named(hs) && k < |hs| && Mistaken(hs[k].name, CODING)
    ensures !Meant(Valued(hs, k, "chunked", ""))
  {
    var info, gs := Info(-1, false), Valued(hs, k, "chunked", "");
    OnHeaderReads(info, gs);
    DeclaresReads(info, gs);
    ChunksRead(MatchesLength, MatchesCoding, info, gs);
    ChunksRead(IsLength, IsCoding, info, gs);
    SomethingRead(gs, k);
    NothingDeclared(gs, k);
  }

  lemma LengthMistaken(hs: seq<Header>, i: nat) returns (gs: seq<Header>)
    requires i < |hs| && Mistaken(hs[i].name, LENGTH) && forall j | i < j < |hs| :: !IsLength(hs[j].name)
    ensures SameNames(hs, gs) && !Meant(gs)
  {
    var info := Info(-1, false);
    MatchesIff(hs[i].name, LENGTH);
    var k := SomeLast(MatchesLength, hs, i);
    MatchesIff(hs[k].name, LENGTH);
    gs := Valued(hs, k, "5", "4");
    OnHeaderReads(info, gs);
    DeclaresReads(info, gs);
    FiveIsFive();
    assert LastLength(MatchesLength, gs, k);
    LastLengthRead(MatchesLength, MatchesCoding, info, gs, k);
    if j :| 0 <= j < |gs| && IsLength(gs[j].name) {
      var l := SomeLast(IsLength, gs, j);
      assert l != k;
      LastLengthRead(IsLength, IsCoding, info, gs, l);
    } else {
      NoLengthRead(IsLength, IsCoding, info, gs);
    }
  }

  /** Headers are read as what they declare, whatever their values, exactly when their names are clear. */
  lemma MeantIff(hs: seq<Header>)
    requires Named(hs)
    ensures (forall gs | SameNames(hs, gs) :: Meant(gs)) <==> Clear(hs)
  {
    if Clear(hs) {
      forall gs | SameNames(hs, gs)
        ensures Meant(gs)
      {
        ClearByName(hs, gs);
        ClearIsMeant(gs);
      }
    } else if k :| 0 <= k < |hs| && Mistaken(hs[k].name, CODING) {
      CodingMistaken(hs, k);
    } else {
      var i :| 0 <= i < |hs| && Mistaken(hs[i].name, LENGTH) && !exists j | i < j < |hs| :: IsLength(hs[j].name);
      var gs := LengthMistaken(hs, i);
    }
  }

  /** Printed headers with clear names are read back as what they declare, whatever part of the body has come with
      them. */
  lemma DeclaredReadBack(status: string, hs: seq<Header>, body: string)
    requires OneLine(status) && forall k | 0 <= k < |hs| :: ValidHeader(hs[k]) && CountsAlone(hs[k])
    requires Clear(hs)
    ensures ParseHeaders(PrintHeaders(status, hs) + body, |PrintHeaders(status, hs)|) == Declared(hs)
  {
    HeadersReadBack(status, hs, body);
    assert Named(hs) by { assert forall k | 0 <= k < |hs| :: ValidHeader(hs[k]); }
    ClearIsMeant(hs);
  }
}
