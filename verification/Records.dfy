/** Streams of records: what any self-delimiting encoding gives a receiver that reads record after record. */
module Records {
  import opened Seqs

  type byte = x: int | 0 <= x < 256

  // A value read off the front of a byte string, and what is left.
  datatype Parsed<+T> = Short | Done(value: T, rest: seq<byte>)

  /** An encoding of the values of T and its reader. */
  datatype Codec<!T> = Codec(valid: T -> bool, encode: T -> seq<byte>, read: seq<byte> -> Parsed<T>)

  /** A value is read back from its own bytes, whatever follows them, and not from fewer. */
  ghost predicate SelfDelimiting<T(!new)>(c: Codec<T>) {
    && (forall t: T, s: seq<byte> {:trigger c.encode(t) + s} :: c.valid(t) ==> c.read(c.encode(t) + s) == Done(t, s))
    && (forall t: T, m: nat {:trigger c.encode(t)[..m]} ::
       c.valid(t) && m < |c.encode(t)| ==> c.read(c.encode(t)[..m]) == Short)
  }

  type SelfCodec<!T(!new)> = c: Codec<T> | SelfDelimiting(c)
    ghost witness Codec((t: T) => false, (t: T) => [], (s: seq<byte>) => Short)

  predicate AllValid<T>(c: Codec<T>, ts: seq<T>) {
    forall k | 0 <= k < |ts| :: c.valid(ts[k])
  }

  function EncodeAll<T>(c: Codec<T>, ts: seq<T>): seq<byte> {
    if ts == [] then [] else c.encode(ts[0]) + EncodeAll(c, ts[1..])
  }

  // n records are still expected and got, newest first, are the ones already read; and whether all came.
  function ReadAll<T>(c: Codec<T>, n: nat, s: seq<byte>, got: seq<T>): (seq<T>, bool) {
    if n == 0 then (got, true)
    else
      match c.read(s)
      case Short => (got, false)
      case Done(t, rest) => ReadAll(c, n - 1, rest, [t] + got)
  }

  /** How many records lie wholly within the first m bytes. */
  function Complete<T>(c: Codec<T>, ts: seq<T>, m: nat): (k: nat)
    ensures k <= |ts|
  {
    if ts == [] || |c.encode(ts[0])| > m then 0 else 1 + Complete(c, ts[1..], m - |c.encode(ts[0])|)
  }

  lemma {:induction false} CompleteIs<T>(c: Codec<T>, ts: seq<T>, m: nat)
    ensures var k := Complete(c, ts, m);
            |EncodeAll(c, ts[..k])| <= m && (k < |ts| ==> m < |EncodeAll(c, ts[..k + 1])|)
    decreases |ts|
  {
    if ts != [] && |c.encode(ts[0])| <= m {
      var k := Complete(c, ts[1..], m - |c.encode(ts[0])|);
      CompleteIs(c, ts[1..], m - |c.encode(ts[0])|);
      assert ts[..k + 1][1..] == ts[1..][..k];
      assert k + 1 < |ts| ==> ts[..k + 2][1..] == ts[1..][..k + 1];
    } else if ts != [] {
      assert ts[..1][1..] == [] && EncodeAll(c, ts[..1]) == c.encode(ts[0]);
    }
  }

  lemma ReversedStep<T>(ts: seq<T>, k: nat, got: seq<T>)
    requires k < |ts|
    ensures Reversed(ts[..k + 1]) + got == Reversed(ts[1..][..k]) + ([ts[0]] + got)
  {
    assert ts[..k + 1][1..] == ts[1..][..k];
    Assoc(Reversed(ts[1..][..k]), [ts[0]], got);
  }

  lemma CutInFirst<T(!new)>(c: SelfCodec<T>, ts: seq<T>, m: nat, got: seq<T>)
    requires ts != [] && c.valid(ts[0]) && m < |c.encode(ts[0])|
    ensures ReadAll(c, |ts|, EncodeAll(c, ts)[..m], got) == (got, false)
    ensures Reversed(ts[..Complete(c, ts, m)]) + got == got
  {
    assert EncodeAll(c, ts)[..m] == c.encode(ts[0])[..m];
    assert Reversed(ts[..0]) + got == got;
  }

  lemma FirstRead<T(!new)>(c: SelfCodec<T>, ts: seq<T>, m: nat, got: seq<T>)
    requires ts != [] && c.valid(ts[0]) && |c.encode(ts[0])| <= m <= |EncodeAll(c, ts)|
    ensures ReadAll(c, |ts|, EncodeAll(c, ts)[..m], got) ==
            ReadAll(c, |ts| - 1, EncodeAll(c, ts[1..])[..m - |c.encode(ts[0])|], [ts[0]] + got)
  {
    var e, rest := c.encode(ts[0]), EncodeAll(c, ts[1..]);
    assert (e + rest)[..m] == e + rest[..m - |e|];
  }

  /** For every list of records and every place where the stream may be cut off: exactly the completely received
      records are read, newest first, and all of them are reported to have come exactly when they did. */
  lemma {:induction false} CutShort<T(!new)>(c: SelfCodec<T>, ts: seq<T>, m: nat, got: seq<T>)
    requires AllValid(c, ts) && m <= |EncodeAll(c, ts)|
    ensures ReadAll(c, |ts|, EncodeAll(c, ts)[..m], got) ==
            (Reversed(ts[..Complete(c, ts, m)]) + got, Complete(c, ts, m) == |ts|)
    decreases |ts|
  {
    if ts == [] {
      assert Reversed(ts[..0]) + got == got;
    } else {
      var n := |c.encode(ts[0])|;
      assert c.valid(ts[0]);
      if m < n {
        CutInFirst(c, ts, m, got);
      } else {
        FirstRead(c, ts, m, got);
        CutShort(c, ts[1..], m - n, [ts[0]] + got);
        ReversedStep(ts, Complete(c, ts[1..], m - n), got);
      }
    }
  }
}
