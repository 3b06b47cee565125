/** The wire format minissdpc.c speaks: lengths in 7-bit groups and length-prefixed records. */
module SsdpWire {
  import opened Text
  import opened Seqs
  import opened Records

  const WORD: nat := 0x1_0000_0000

  // ----- lengths

  /** CODELENGTH; each group is stored as an unsigned char */
  function CodeLength(n: nat): seq<byte> {
    (if n >= 268435456 then [128 + n / 268435456 % 128] else []) +
    ((if n >= 2097152 then [128 + n / 2097152 % 128] else []) +
     ((if n >= 16384 then [128 + n / 16384 % 128] else []) +
      ((if n >= 128 then [128 + n / 128 % 128] else []) + [n % 128])))
  }

  /** DECODELENGTH and DECODELENGTH_READ: shift in seven bits per byte until a byte has its top bit clear or the
      number has reached 2^25. */
  function DecodeLength(s: seq<byte>, n: nat): (r: Parsed<nat>)
    requires n < 0x200_0000
    ensures r.Done? ==> r.value < WORD && |r.rest| < |s|
  {
    if s == [] then Short
    else
      var n' := n * 128 + s[0] % 128;
      if s[0] < 128 || n' >= 0x200_0000 then Done(n', s[1..]) else DecodeLength(s[1..], n')
  }

  // A byte with its top bit set, when the number stays small enough to go on.
  lemma DecodeMore(a: nat, s: seq<byte>, n: nat)
    requires a < 128 && n * 128 + a < 0x200_0000
    ensures DecodeLength([128 + a] + s, n) == DecodeLength(s, n * 128 + a)
  {
    assert ([128 + a] + s)[1..] == s;
  }

  lemma DecodeLast(a: nat, s: seq<byte>, n: nat)
    requires a < 128 && n < 0x200_0000
    ensures DecodeLength([a] + s, n) == Done(n * 128 + a, s)
  {
    assert ([a] + s)[1..] == s;
  }

  // The groups after the one that has brought the number to n / d.
  lemma DecodeTail(n: nat, s: seq<byte>)
    requires 128 <= n < WORD
    ensures DecodeLength([128 + n / 128 % 128] + ([n % 128] + s), n / 16384) == Done(n, s)
  {
    assert n / 16384 * 128 + n / 128 % 128 == n / 128;
    DecodeMore(n / 128 % 128, [n % 128] + s, n / 16384);
    DecodeLast(n % 128, s, n / 128);
  }

  lemma DecodeTail2(n: nat, s: seq<byte>)
    requires 16384 <= n < WORD
    ensures DecodeLength([128 + n / 16384 % 128] + ([128 + n / 128 % 128] + ([n % 128] + s)), n / 2097152) == Done(n, s)
  {
    assert n / 2097152 * 128 + n / 16384 % 128 == n / 16384;
    DecodeMore(n / 16384 % 128, [128 + n / 128 % 128] + ([n % 128] + s), n / 2097152);
    DecodeTail(n, s);
  }

  lemma DecodeTail3(n: nat, s: seq<byte>)
    requires 2097152 <= n < WORD
    ensures DecodeLength(
              [128 + n / 2097152 % 128] + ([128 + n / 16384 % 128] + ([128 + n / 128 % 128] + ([n % 128] + s))),
              n / 268435456)
         == Done(n, s)
  {
    assert n / 268435456 * 128 + n / 2097152 % 128 == n / 2097152;
    DecodeMore(n / 2097152 % 128, [128 + n / 16384 % 128] + ([128 + n / 128 % 128] + ([n % 128] + s)), n / 268435456);
    DecodeTail2(n, s);
  }

  lemma FiveGroups(n: nat, s: seq<byte>)
    requires 268435456 <= n < WORD
    ensures DecodeLength(CodeLength(n) + s, 0) == Done(n, s)
  {
    var a := n / 268435456;
    assert a < 16 && a % 128 == a;
    var t := [128 + n / 2097152 % 128] + ([128 + n / 16384 % 128] + ([128 + n / 128 % 128] + ([n % 128] + s)));
    assert CodeLength(n) + s == [128 + a % 128] + t;
    DecodeMore(a, t, 0);
    DecodeTail3(n, s);
  }

  lemma FourGroups(n: nat, s: seq<byte>)
    requires 2097152 <= n < 268435456
    ensures DecodeLength(CodeLength(n) + s, 0) == Done(n, s)
  {
    assert CodeLength(n) + s ==
           [128 + n / 2097152 % 128] + ([128 + n / 16384 % 128] + ([128 + n / 128 % 128] + ([n % 128] + s)));
    DecodeTail3(n, s);
  }

  lemma ThreeGroups(n: nat, s: seq<byte>)
    requires 16384 <= n < 2097152
    ensures DecodeLength(CodeLength(n) + s, 0) == Done(n, s)
  {
    assert CodeLength(n) + s == [128 + n / 16384 % 128] + ([128 + n / 128 % 128] + ([n % 128] + s));
    DecodeTail2(n, s);
  }

  lemma TwoGroups(n: nat, s: seq<byte>)
    requires 128 <= n < 16384
    ensures DecodeLength(CodeLength(n) + s, 0) == Done(n, s)
  {
    assert CodeLength(n) + s == [128 + n / 128 % 128] + ([n % 128] + s);
    DecodeTail(n, s);
  }

  lemma OneGroup(n: nat, s: seq<byte>)
    requires n < 128
    ensures DecodeLength(CodeLength(n) + s, 0) == Done(n, s)
  {
    assert CodeLength(n) + s == [n] + s;
    DecodeLast(n, s, 0);
  }

  /** Decoding undoes encoding on every 32-bit length and consumes exactly the bytes written. */
  lemma LengthRoundTrip(n: nat, s: seq<byte>)
    requires n < WORD
    ensures DecodeLength(CodeLength(n) + s, 0) == Done(n, s)
  {
    if n >= 268435456 {
      FiveGroups(n, s);
    } else if n >= 2097152 {
      FourGroups(n, s);
    } else if n >= 16384 {
      ThreeGroups(n, s);
    } else if n >= 128 {
      TwoGroups(n, s);
    } else {
      OneGroup(n, s);
    }
  }

  // What is decoded from a byte string is decoded from every longer one.
  lemma {:induction false} LengthStable(s: seq<byte>, t: seq<byte>, n: nat)
    requires n < 0x200_0000 && DecodeLength(s, n).Done?
    ensures DecodeLength(s + t, n) == Done(DecodeLength(s, n).value, DecodeLength(s, n).rest + t)
    decreases |s|
  {
    assert (s + t)[1..] == s[1..] + t;
    var n' := n * 128 + s[0] % 128;
    if !(s[0] < 128 || n' >= 0x200_0000) {
      LengthStable(s[1..], t, n');
    }
  }

  // ----- records

  datatype Device = Device(url: seq<byte>, st: seq<byte>, usn: seq<byte>)

  predicate ValidDevice(d: Device) {
    |d.url| < WORD && |d.st| < WORD && |d.usn| < WORD
  }

  function EncodeField(f: seq<byte>): seq<byte> {
    CodeLength(|f|) + f
  }

  function EncodeDevice(d: Device): seq<byte> {
    EncodeField(d.url) + (EncodeField(d.st) + EncodeField(d.usn))
  }

  function ReadField(s: seq<byte>): (r: Parsed<seq<byte>>)
    ensures r.Done? ==> |r.rest| < |s|
  {
    match DecodeLength(s, 0)
    case Short => Short
    case Done(n, rest) => if n <= |rest| then Done(rest[..n], rest[n..]) else Short
  }

  function ReadDevice(s: seq<byte>): (r: Parsed<Device>)
    ensures r.Done? ==> |r.rest| < |s|
  {
    match ReadField(s)
    case Short => Short
    case Done(url, s1) =>
      match ReadField(s1)
      case Short => Short
      case Done(st, s2) =>
        match ReadField(s2)
        case Short => Short
        case Done(usn, s3) => Done(Device(url, st, usn), s3)
  }

  const DEVICES: Codec<Device> := Codec(ValidDevice, EncodeDevice, ReadDevice)

  /** A reply of the daemon: a count byte and the records. */
  function EncodeReply(ds: seq<Device>): seq<byte>
    requires |ds| < 256
  {
    [|ds|] + EncodeAll(DEVICES, ds)
  }

  datatype Status = Success | SocketError | InvalidServerReply

  function Outcome(r: (seq<Device>, bool)): (seq<Device>, Status) {
    (r.0, if r.1 then Success else InvalidServerReply)
  }

  /** What receiveDevicesFromMiniSSDPD makes of the bytes a connection delivers before it ends. */
  function Receive(s: seq<byte>): (seq<Device>, Status) {
    if s == [] then ([], SocketError) else Outcome(ReadAll(DEVICES, s[0], s[1..], []))
  }

  lemma FieldRoundTrip(f: seq<byte>, s: seq<byte>)
    requires |f| < WORD
    ensures ReadField(EncodeField(f) + s) == Done(f, s)
  {
    LengthRoundTrip(|f|, f + s);
    assert EncodeField(f) + s == CodeLength(|f|) + (f + s);
    assert (f + s)[..|f|] == f && (f + s)[|f|..] == s;
  }

  lemma DeviceRoundTrip(d: Device, s: seq<byte>)
    requires ValidDevice(d)
    ensures ReadDevice(EncodeDevice(d) + s) == Done(d, s)
  {
    var u, t, n := EncodeField(d.url), EncodeField(d.st), EncodeField(d.usn);
    assert EncodeDevice(d) + s == u + (t + (n + s));
    FieldRoundTrip(d.url, t + (n + s));
    FieldRoundTrip(d.st, n + s);
    FieldRoundTrip(d.usn, s);
  }

  // What is read from a byte string is read from every longer one.
  lemma FieldStable(s: seq<byte>, t: seq<byte>)
    requires ReadField(s).Done?
    ensures ReadField(s + t) == Done(ReadField(s).value, ReadField(s).rest + t)
  {
    LengthStable(s, t, 0);
    var r := DecodeLength(s, 0);
    assert (r.rest + t)[..r.value] == r.rest[..r.value] && (r.rest + t)[r.value..] == r.rest[r.value..] + t;
  }

  lemma DeviceStable(s: seq<byte>, t: seq<byte>)
    requires ReadDevice(s).Done?
    ensures ReadDevice(s + t) == Done(ReadDevice(s).value, ReadDevice(s).rest + t)
  {
    FieldStable(s, t);
    var s1 := ReadField(s).rest;
    FieldStable(s1, t);
    var s2 := ReadField(s1).rest;
    FieldStable(s2, t);
  }

  // A record cut short is not read at all.
  lemma DeviceCutShort(d: Device, m: nat)
    requires ValidDevice(d) && m < |EncodeDevice(d)|
    ensures ReadDevice(EncodeDevice(d)[..m]) == Short
  {
    var e := EncodeDevice(d);
    DeviceRoundTrip(d, []);
    assert e + [] == e;
    NotFromLess(e, d, m);
  }

  lemma NotFromLess(e: seq<byte>, d: Device, m: nat)
    requires ReadDevice(e) == Done(d, []) && m < |e|
    ensures ReadDevice(e[..m]) == Short
  {
    assert e[..m] + e[m..] == e;
    if ReadDevice(e[..m]).Done? {
      DeviceStable(e[..m], e[m..]);
    }
  }

  lemma DevicesSelfDelimiting()
    ensures SelfDelimiting(DEVICES)
  {
    var c := DEVICES;
    forall d: Device, s: seq<byte> {:trigger c.encode(d) + s} | c.valid(d)
      ensures c.read(c.encode(d) + s) == Done(d, s)
    {
      DeviceRoundTrip(d, s);
    }
    forall d: Device, m: nat {:trigger c.encode(d)[..m]} | c.valid(d) && m < |c.encode(d)|
      ensures c.read(c.encode(d)[..m]) == Short
    {
      DeviceCutShort(d, m);
    }
  }

  /** For every list of at most 255 records and every place at or after the count byte where the reply may be
      cut off: exactly the completely received records come back, newest first, and the status is success
      exactly when all of them arrived. */
  lemma ReplyCutShort(ds: seq<Device>, t: nat)
    requires |ds| < 256 && AllValid(DEVICES, ds) && 1 <= t <= |EncodeReply(ds)|
    ensures Receive(EncodeReply(ds)[..t]) ==
            (Reversed(ds[..Complete(DEVICES, ds, t - 1)]),
             if Complete(DEVICES, ds, t - 1) == |ds| then Success else InvalidServerReply)
  {
    DevicesSelfDelimiting();
    AfterCount(DEVICES, ds, t);
  }

  lemma AfterCount(c: Codec<Device>, ds: seq<Device>, t: nat)
    requires |ds| < 256 && SelfDelimiting(c) && AllValid(c, ds) && 1 <= t <= 1 + |EncodeAll(c, ds)|
    ensures var s := ([|ds|] + EncodeAll(c, ds))[..t];
            s != [] &&
              ReadAll(c, s[0], s[1..], []) == (Reversed(ds[..Complete(c, ds, t - 1)]), Complete(c, ds, t - 1) == |ds|)
  {
    assert ([|ds|] + EncodeAll(c, ds))[..t][1..] == EncodeAll(c, ds)[..t - 1];
    CutShort(c, ds, t - 1, []);
    assert Reversed(ds[..Complete(c, ds, t - 1)]) + [] == Reversed(ds[..Complete(c, ds, t - 1)]);
  }

  // ----- the receiver and its 256-byte buffer

  const BUFFER: nat := 256

  /** The reads a connection still has to offer, each of 1 to 256 bytes, and the buffer the READ_ macros use:
      the bytes from bufferindex to n are read but not consumed. */
  class Reader {
    var segments: seq<seq<byte>>
    const buffer: array<byte>
    var n: nat
    var bufferindex: nat

    ghost predicate Valid()
      reads this, buffer
    {
      && buffer.Length == BUFFER && bufferindex <= n <= BUFFER
      && forall k | 0 <= k < |segments| :: 0 < |segments[k]| <= BUFFER
    }

    ghost function Remaining(): seq<byte>
      requires Valid()
      reads this, buffer
    {
      buffer[bufferindex..n] + Flatten(segments)
    }

    constructor (segments: seq<seq<byte>>)
      requires forall k | 0 <= k < |segments| :: 0 < |segments[k]| <= BUFFER
      ensures Valid() && fresh(buffer) && Remaining() == Flatten(segments) && bufferindex == n
    {
      this.segments := segments;
      buffer := new byte[BUFFER];
      n, bufferindex := 0, 0;
    }

    /** The next read; false when the connection has ended. */
    method Refill() returns (ok: bool)
      requires Valid() && bufferindex == n
      modifies this, buffer
      ensures Valid() && Remaining() == old(Remaining())
      ensures ok <==> Remaining() != []
      ensures ok ==> bufferindex == 0 < n
      ensures !ok ==> bufferindex == n
    {
      assert Remaining() == Flatten(segments);
      if segments == [] {
        return false;
      }
      var seg := segments[0];
      forall i | 0 <= i < |seg| {
        buffer[i] := seg[i];
      }
      n, bufferindex := |seg|, 0;
      segments := segments[1..];
      assert buffer[0..n] == seg;
      return true;
    }

    /** READ_BYTE_BUFFER */
    method ReadByte() returns (ok: bool, c: byte)
      requires Valid()
      modifies this, buffer
      ensures Valid() && (ok <==> old(Remaining()) != [])
      ensures if ok then c == old(Remaining())[0] && Remaining() == old(Remaining())[1..] else Remaining() == []
    {
      c := 0;
      if bufferindex >= n {
        ok := Refill();
        if !ok { return; }
      }
      c := buffer[bufferindex];
      assert buffer[bufferindex..n][1..] == buffer[bufferindex + 1..n];
      bufferindex := bufferindex + 1;
      ok := true;
    }

    /** DECODELENGTH_READ */
    method ReadLength() returns (ok: bool, len: nat)
      requires Valid()
      modifies this, buffer
      ensures Valid() && ok == DecodeLength(old(Remaining()), 0).Done?
      ensures ok ==> DecodeLength(old(Remaining()), 0) == Done(len, Remaining())
    {
      len := 0;
      ghost var all := DecodeLength(Remaining(), 0);
      while len < 0x200_0000
        invariant Valid() && len < 0x200_0000 && DecodeLength(Remaining(), len) == all
        decreases |Remaining()|
      {
        var c;
        ok, c := ReadByte();
        if !ok { return; }
        len := len * 128 + c % 128;
        if c < 128 || len >= 0x200_0000 { return; }
      }
      ok := true;
    }

    // The part of the buffer that one turn of READ_COPY_BUFFER copies.
    method CopySome(l: nat) returns (chunk: seq<byte>)
      requires Valid() && l > 0 && bufferindex < n
      modifies this
      ensures Valid() && 0 < |chunk| <= l && old(Remaining()) == chunk + Remaining()
    {
      var lcopy := if l < n - bufferindex then l else n - bufferindex;
      chunk := buffer[bufferindex..bufferindex + lcopy];
      ghost var rest := buffer[bufferindex + lcopy..n];
      assert buffer[bufferindex..n] == chunk + rest;
      Assoc(chunk, rest, Flatten(segments));
      bufferindex := bufferindex + lcopy;
    }

    /** READ_COPY_BUFFER */
    method ReadCopy(len: nat) returns (ok: bool, bytes: seq<byte>)
      requires Valid()
      modifies this, buffer
      ensures Valid() && (ok <==> len <= |old(Remaining())|)
      ensures ok ==> bytes == old(Remaining())[..len] && Remaining() == old(Remaining())[len..]
    {
      ghost var all := Remaining();
      bytes := [];
      var l := len;
      while l > 0
        invariant Valid() && 0 <= l == len - |bytes| && bytes + Remaining() == all
      {
        if bufferindex >= n {
          ok := Refill();
          if !ok { return; }
        }
        var chunk := CopySome(l);
        Assoc(bytes, chunk, Remaining());
        bytes := bytes + chunk;
        l := l - |chunk|;
      }
      assert (bytes + Remaining())[..len] == bytes && (bytes + Remaining())[len..] == Remaining();
      ok := true;
    }

    method Field() returns (ok: bool, bytes: seq<byte>)
      requires Valid()
      modifies this, buffer
      ensures Valid() && ok == ReadField(old(Remaining())).Done?
      ensures ok ==> ReadField(old(Remaining())) == Done(bytes, Remaining())
    {
      bytes := [];
      var len;
      ok, len := ReadLength();
      if ok {
        ok, bytes := ReadCopy(len);
      }
    }

    method Record() returns (ok: bool, d: Device)
      requires Valid()
      modifies this, buffer
      ensures Valid() && ok == ReadDevice(old(Remaining())).Done?
      ensures ok ==> ReadDevice(old(Remaining())) == Done(d, Remaining())
    {
      d := Device([], [], []);
      var url, st, usn;
      ok, url := Field();
      if !ok { return; }
      ok, st := Field();
      if !ok { return; }
      ok, usn := Field();
      if !ok { return; }
      d := Device(url, st, usn);
    }

    // The same, in terms of a codec that reads as ReadDevice does.
    method NextRecord(ghost c: Codec<Device>) returns (ok: bool, d: Device)
      requires Valid() && forall s {:trigger ReadDevice(s)} :: c.read(s) == ReadDevice(s)
      modifies this, buffer
      ensures Valid() && c.read(old(Remaining())).Done? == ok
      ensures ok ==> c.read(old(Remaining())) == Done(d, Remaining())
    {
      ok, d := Record();
    }
  }

  // The loop over the announced records; c stands for DEVICES.
  method ReceiveLoop(r: Reader, ndev: nat, ghost c: Codec<Device>) returns (devlist: seq<Device>, error: Status)
    requires r.Valid() && forall s {:trigger ReadDevice(s)} :: c.read(s) == ReadDevice(s)
    modifies r, r.buffer
    ensures (devlist, error) == Outcome(ReadAll(c, ndev, old(r.Remaining()), []))
  {
    devlist := [];
    ghost var all := ReadAll(c, ndev, r.Remaining(), []);
    var i := 0;
    while i < ndev
      invariant 0 <= i <= ndev && r.Valid()
      invariant ReadAll(c, ndev - i, r.Remaining(), devlist) == all
    {
      var ok, d := r.NextRecord(c);
      if !ok {
        return devlist, InvalidServerReply;
      }
      devlist := [d] + devlist;
      i := i + 1;
    }
    error := Success;
  }

  /** receiveDevicesFromMiniSSDPD: whatever reads of 1 to 256 bytes the connection delivers its bytes in, the
      result depends on the bytes only. */
  method ReceiveDevices(segments: seq<seq<byte>>) returns (devlist: seq<Device>, error: Status)
    requires forall k | 0 <= k < |segments| :: 0 < |segments[k]| <= 256
    ensures (devlist, error) == Receive(Flatten(segments))
  {
    var r := new Reader(segments);
    var ok := r.Refill();
    if !ok {
      return [], SocketError;
    }
    var ndev;
    ok, ndev := r.ReadByte();
    devlist, error := ReceiveLoop(r, ndev, DEVICES);
  }

  // ----- the request

  /** requestDevicesFromMiniSSDPD: the framed request, or nothing when it would not fit the 256-byte buffer. */
  function Request(devtype: seq<byte>): (r: Option<seq<byte>>)
    requires |devtype| < WORD
  {
    var all := [115, 115, 100, 112, 58, 97, 108, 108];  // "ssdp:all"
    var frame := [if devtype == all then 3 else 1] + EncodeField(devtype);
    if |frame| > BUFFER then None else Some(frame)
  }

  // "ssdp:all" in ASCII
  predicate IsAll(devtype: seq<byte>) {
    |devtype| == 8 && forall k | 0 <= k < 8 :: devtype[k] == "ssdp:all"[k] as int
  }

  lemma AllIs(devtype: seq<byte>)
    ensures devtype == [115, 115, 100, 112, 58, 97, 108, 108] <==> IsAll(devtype)
  {
    if IsAll(devtype) {
      assert devtype[0] == 115 && devtype[1] == 115 && devtype[2] == 100 && devtype[3] == 112;
      assert devtype[4] == 58 && devtype[5] == 97 && devtype[6] == 108 && devtype[7] == 108;
    }
  }

  /** A request is sent exactly for types of at most 253 bytes; it is of kind 3 for "ssdp:all" and of kind 1 for every
      other type, and its payload reads back as the type. */
  lemma RequestReadsBack(devtype: seq<byte>)
    requires |devtype| < WORD
    ensures Request(devtype).Some? <==> |devtype| <= 253
    ensures Request(devtype).Some? ==> ReadField(Request(devtype).value[1..]) == Done(devtype, [])
    ensures Request(devtype).Some? ==> Request(devtype).value[0] == if IsAll(devtype) then 3 else 1
  {
    AllIs(devtype);
    FieldRoundTrip(devtype, []);
    assert EncodeField(devtype) + [] == EncodeField(devtype);
    if Request(devtype).Some? {
      assert Request(devtype).value[1..] == EncodeField(devtype);
    }
  }
}
