/** The SOAP request body simpleUPnPcommand2 writes into its 2048-byte buffer. */
module Soap {
  import opened Text

  const SIZE: nat := 2048

  /** struct UPNParg; a NULL value writes the same bytes as an empty one. */
  datatype Arg = Arg(elt: string, val: string)

  const PROLOG: string := "<?xml version=\"1.0\"?>\r\n"
  const ENVELOPE_NS: string := "http://schemas.xmlsoap.org/soap/envelope/"
  const ENCODING_NS: string := "http://schemas.xmlsoap.org/soap/encoding/"
  const END_ACTION: string := "</u:"
  const END_ENVELOPE: string := "></s:Body></s:Envelope>\r\n"

  function EnvelopeTag(): string {
    "<s:Envelope xmlns:s=\"" + (ENVELOPE_NS + ("\" s:encodingStyle=\"" + (ENCODING_NS + "\">")))
  }

  function ActionTag(action: string, service: string): string {
    "<u:" + (action + (" xmlns:u=\"" + (service + "\">")))
  }

  function Head(action: string, service: string): string {
    PROLOG + (EnvelopeTag() + ("<s:Body>" + ActionTag(action, service)))
  }

  function ArgText(a: Arg): string {
    ("<" + (a.elt + ">")) + (a.val + ("</" + (a.elt + ">")))
  }

  function ArgsText(args: seq<Arg>): string {
    if args == [] then "" else ArgText(args[0]) + ArgsText(args[1..])
  }

  function Tail(action: string): string {
    END_ACTION + (action + END_ENVELOPE)
  }

  /** The whole request body, were there no limit on its size. */
  function Envelope(action: string, service: string, args: seq<Arg>): string {
    Head(action, service) + (ArgsText(args) + Tail(action))
  }

  // p bytes of the buffer are written, and they are as much of w as fits.
  ghost predicate Wrote(buf: array<char>, p: nat, w: string)
    reads buf
  {
    && buf.Length == SIZE && p == (if |w| < SIZE then |w| else SIZE)
    && buf[..p] == w[..p]
  }

  /** snprintf of a text: cut off where the buffer ends. */
  method Snprintf(buf: array<char>, s: string) returns (n: nat)
    requires buf.Length == SIZE
    modifies buf
    ensures n == |s|
    ensures n < SIZE ==> Wrote(buf, n, s) && buf[n] == '\0'
  {
    n := |s|;
    var k := if n < SIZE then n else SIZE - 1;
    forall i | 0 <= i < k {
      buf[i] := s[i];
    }
    buf[k] := '\0';
  }

  /** One byte. */
  method PutByte(buf: array<char>, p: nat, c: char, ghost w: string) returns (q: nat)
    requires Wrote(buf, p, w) && p < SIZE
    modifies buf
    ensures q == p + 1 && Wrote(buf, q, w + [c])
  {
    buf[p] := c;
    q := p + 1;
  }

  /** The bytes of a string as long as there is room. */
  method PutString(buf: array<char>, p: nat, s: string, ghost w: string) returns (q: nat)
    requires Wrote(buf, p, w)
    modifies buf
    ensures Wrote(buf, q, w + s)
  {
    q := p;
    var i := 0;
    while q < SIZE && i < |s|
      invariant 0 <= i <= |s| && Wrote(buf, q, w + s[..i])
    {
      assert w + s[..i + 1] == (w + s[..i]) + [s[i]];
      q := PutByte(buf, q, s[i], w + s[..i]);
      i := i + 1;
    }
    if i < |s| {
      assert (w + s)[..q] == (w + s[..i])[..q];
    } else {
      assert s[..i] == s;
    }
  }

  /** strncpy to the end of the buffer, which pads with NULs. */
  method StrNCpy(buf: array<char>, p: nat, s: string, ghost w: string)
    requires Wrote(buf, p, w)
    modifies buf
    ensures |w + s| < SIZE ==> buf[..|w + s|] == w + s && buf[|w + s|] == '\0' && buf[SIZE - 1] == '\0'
    ensures SIZE <= |w + s| ==> buf[SIZE - 1] == (w + s)[SIZE - 1]
  {
    forall i | p <= i < SIZE {
      buf[i] := if i - p < |s| then s[i - p] else '\0';
    }
    if SIZE <= |w| {
      assert buf[..SIZE][SIZE - 1] == w[..SIZE][SIZE - 1];
    }
  }

  /** "<" elt ">", with room checked before each single byte. */
  method PutOpen(buf: array<char>, p: nat, elt: string, ghost w: string) returns (ok: bool, q: nat)
    requires Wrote(buf, p, w)
    modifies buf
    ensures ok ==> Wrote(buf, q, w + ("<" + (elt + ">")))
    ensures !ok ==> SIZE < |w + ("<" + (elt + ">"))|
  {
    q := p;
    if q >= SIZE { return false, q; }
    q := PutByte(buf, q, '<', w);
    q := PutString(buf, q, elt, w + ['<']);
    if q >= SIZE { return false, q; }
    q := PutByte(buf, q, '>', (w + ['<']) + elt);
    assert (w + ['<']) + elt + ['>'] == w + ("<" + (elt + ">"));
    ok := true;
  }

  /** "</" elt ">" */
  method PutClose(buf: array<char>, p: nat, elt: string, ghost w: string) returns (ok: bool, q: nat)
    requires Wrote(buf, p, w)
    modifies buf
    ensures ok ==> Wrote(buf, q, w + ("</" + (elt + ">")))
    ensures !ok ==> SIZE < |w + ("</" + (elt + ">"))|
  {
    q := p;
    if q + 2 > SIZE { return false, q; }
    q := PutByte(buf, q, '<', w);
    q := PutByte(buf, q, '/', w + ['<']);
    q := PutString(buf, q, elt, w + ['<'] + ['/']);
    if q >= SIZE { return false, q; }
    q := PutByte(buf, q, '>', (w + ['<'] + ['/']) + elt);
    assert (w + ['<'] + ['/']) + elt + ['>'] == w + ("</" + (elt + ">"));
    ok := true;
  }

  /** One turn of the argument loop; false when the function gives up for lack of space. */
  method PutArg(buf: array<char>, p: nat, a: Arg, ghost w: string) returns (ok: bool, q: nat)
    requires Wrote(buf, p, w)
    modifies buf
    ensures ok ==> Wrote(buf, q, w + ArgText(a))
    ensures !ok ==> SIZE < |w + ArgText(a)|
  {
    ghost var open, close := "<" + (a.elt + ">"), "</" + (a.elt + ">");
    Grouping(w, open, a.val, close);
    ok, q := PutOpen(buf, p, a.elt, w);
    if ok {
      q := PutString(buf, q, a.val, w + open);
      ok, q := PutClose(buf, q, a.elt, (w + open) + a.val);
    }
  }

  lemma Grouping(w: string, a: string, b: string, c: string)
    ensures ((w + a) + b) + c == w + (a + (b + c))
  {
  }

  lemma {:induction false} CStringOf(s: string, t: string)
    requires NulFree(s) && s + ['\0'] <= t
    ensures CString(t) == s
  {
    var r := CString(t);
    assert t[|s|] == (s + ['\0'])[|s|] == '\0';
    assert |r| <= |s|;
  }

  lemma NulFreeConcat(s: string, t: string)
    requires NulFree(s) && NulFree(t)
    ensures NulFree(s + t)
  {
  }

  /** The arguments and the closing tags; `endAction` is written byte by byte after a check for its 4 bytes,
      `endEnvelope` by strncpy, and the last byte of the buffer then tells whether all of it fitted. */
  method PutTail(buf: array<char>, p0: nat, action: string, endAction: string, endEnvelope: string, ghost w: string)
    returns (ok: bool)
    requires Wrote(buf, p0, w) && NulFree(w) && NulFree(action) && NulFree(endAction) && NulFree(endEnvelope)
    requires |endAction| == 4
    modifies buf
    ensures ok <==> |w + (endAction + (action + endEnvelope))| < SIZE
    ensures ok ==> (w + (endAction + (action + endEnvelope))) + ['\0'] <= buf[..]
  {
    Grouping(w, endAction, action, endEnvelope);
    var p := p0;
    if p + 4 > SIZE { return false; }
    p := PutString(buf, p, endAction, w);
    ghost var v := w + endAction;
    p := PutString(buf, p, action, v);
    v := v + action;
    NulFreeConcat(w, endAction);
    NulFreeConcat(w + endAction, action);
    NulFreeConcat(v, endEnvelope);
    StrNCpy(buf, p, endEnvelope, v);
    ok := buf[SIZE - 1] == '\0';
    if ok {
      ghost var n := |v + endEnvelope|;
      assert buf[..][..n + 1] == buf[..n] + [buf[n]];
    }
  }

  method PutRest(buf: array<char>, p0: nat, action: string, args: seq<Arg>, endAction: string, endEnvelope: string,
                 ghost head: string)
    returns (ok: bool)
    requires Wrote(buf, p0, head) && NulFree(head) && NulFree(action) && NulFree(endAction) && NulFree(endEnvelope)
    requires |endAction| == 4 && forall a | a in args :: NulFree(a.elt) && NulFree(a.val)
    modifies buf
    ensures ok <==> |head + (ArgsText(args) + (endAction + (action + endEnvelope)))| < SIZE
    ensures ok ==> (head + (ArgsText(args) + (endAction + (action + endEnvelope)))) + ['\0'] <= buf[..]
  {
    var p := p0;
    ghost var w, tail := head, endAction + (action + endEnvelope);
    ghost var all := head + (ArgsText(args) + tail);
    var i := 0;
    while i < |args|
      invariant 0 <= i <= |args|
      invariant Wrote(buf, p, w) && NulFree(w)
      invariant all == w + (ArgsText(args[i..]) + tail)
    {
      ghost var t := ArgText(args[i]);
      assert args[i..][1..] == args[i + 1..];
      MoveArg(w, t, ArgsText(args[i + 1..]), tail);
      assert args[i] in args;
      NulFreeArg(w, args[i]);
      var fits;
      fits, p := PutArg(buf, p, args[i], w);
      if !fits { return false; }
      w := w + t;
      i := i + 1;
    }
    assert ArgsText(args[i..]) + tail == tail;
    ok := PutTail(buf, p, action, endAction, endEnvelope, w);
  }

  lemma MoveArg(w: string, a: string, b: string, c: string)
    ensures w + ((a + b) + c) == (w + a) + (b + c)
  {
  }

  lemma NulFreeArg(w: string, a: Arg)
    requires NulFree(w) && NulFree(a.elt) && NulFree(a.val)
    ensures NulFree(w + ArgText(a))
  {
  }

  /** The body as simpleUPnPcommand2 builds it: with no argument list one snprintf, otherwise byte by byte.
      It is produced exactly when the envelope fits in 2047 bytes, and then it is the envelope. */
  method WriteBody(action: string, service: string, args: Option<seq<Arg>>) returns (body: Option<string>)
    requires NulFree(action) && NulFree(service)
    requires args.Some? ==> forall a | a in args.value :: NulFree(a.elt) && NulFree(a.val)
    ensures body.Some? <==> |Envelope(action, service, if args.Some? then args.value else [])| <= 2047
    ensures body.Some? ==> body.value == Envelope(action, service, if args.Some? then args.value else [])
  {
    HeadNulFree(action, service);
    body := WriteText(Head(action, service), args, action, END_ACTION, END_ENVELOPE);
  }

  method WriteText(head: string, args: Option<seq<Arg>>, action: string, endAction: string, endEnvelope: string)
    returns (body: Option<string>)
    requires NulFree(head) && NulFree(action) && NulFree(endAction) && NulFree(endEnvelope) && |endAction| == 4
    requires args.Some? ==> forall a | a in args.value :: NulFree(a.elt) && NulFree(a.val)
    ensures var all := head + (ArgsText(if args.Some? then args.value else []) + (endAction + (action + endEnvelope)));
            body == if |all| <= 2047 then Some(all) else None
  {
    var buf := new char[SIZE];
    if args.None? {
      var all := head + ("" + (endAction + (action + endEnvelope)));
      var n := Snprintf(buf, all);
      if n >= SIZE { return None; }
      AllNulFree(head, [], endAction, action, endEnvelope);
      assert buf[..][..n + 1] == buf[..n] + [buf[n]];
      CStringOf(all, buf[..]);
      return Some(CString(buf[..]));
    }
    var n := Snprintf(buf, head);
    if n >= SIZE { return None; }
    var ok := PutRest(buf, n, action, args.value, endAction, endEnvelope, head);
    if !ok { return None; }
    AllNulFree(head, args.value, endAction, action, endEnvelope);
    CStringOf(head + (ArgsText(args.value) + (endAction + (action + endEnvelope))), buf[..]);
    return Some(CString(buf[..]));
  }

  lemma {:induction false} ArgsNulFree(args: seq<Arg>)
    requires forall a | a in args :: NulFree(a.elt) && NulFree(a.val)
    ensures NulFree(ArgsText(args))
  {
    if args != [] {
      assert args[0] in args;
      NulFreeArg("", args[0]);
      assert "" + ArgText(args[0]) == ArgText(args[0]);
      ArgsNulFree(args[1..]);
      NulFreeConcat(ArgText(args[0]), ArgsText(args[1..]));
    }
  }

  lemma AllNulFree(head: string, args: seq<Arg>, endAction: string, action: string, endEnvelope: string)
    requires NulFree(head) && NulFree(action) && NulFree(endAction) && NulFree(endEnvelope)
    requires forall a | a in args :: NulFree(a.elt) && NulFree(a.val)
    ensures NulFree(head + (ArgsText(args) + (endAction + (action + endEnvelope))))
  {
    ArgsNulFree(args);
    NulFreeConcat(action, endEnvelope);
    NulFreeConcat(endAction, action + endEnvelope);
    NulFreeConcat(ArgsText(args), endAction + (action + endEnvelope));
    NulFreeConcat(head, ArgsText(args) + (endAction + (action + endEnvelope)));
  }

  lemma EnvelopeTagNulFree()
    ensures NulFree(EnvelopeTag())
  {
    var a, b := "\" s:encodingStyle=\"", "\">";
    NulFreeConcat(ENCODING_NS, b);
    NulFreeConcat(a, ENCODING_NS + b);
    NulFreeConcat(ENVELOPE_NS, a + (ENCODING_NS + b));
    NulFreeConcat("<s:Envelope xmlns:s=\"", ENVELOPE_NS + (a + (ENCODING_NS + b)));
  }

  lemma ActionTagNulFree(action: string, service: string)
    requires NulFree(action) && NulFree(service)
    ensures NulFree(ActionTag(action, service))
  {
    NulFreeConcat(service, "\">");
    NulFreeConcat(" xmlns:u=\"", service + "\">");
    NulFreeConcat(action, " xmlns:u=\"" + (service + "\">"));
    NulFreeConcat("<u:", action + (" xmlns:u=\"" + (service + "\">")));
  }

  lemma HeadNulFree(action: string, service: string)
    requires NulFree(action) && NulFree(service)
    ensures NulFree(Head(action, service))
  {
    EnvelopeTagNulFree();
    ActionTagNulFree(action, service);
    NulFreeConcat("<s:Body>", ActionTag(action, service));
    NulFreeConcat(EnvelopeTag(), "<s:Body>" + ActionTag(action, service));
    NulFreeConcat(PROLOG, EnvelopeTag() + ("<s:Body>" + ActionTag(action, service)));
  }
}
