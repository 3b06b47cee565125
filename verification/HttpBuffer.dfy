/** The growing buffers of getHTTPResponse. */
module HttpBuffer {

  class Buffer {
    var mem: array<char>
    var used: nat

    ghost predicate Valid()
      reads this
    {
      used <= mem.Length
    }

    ghost function Contents(): string
      reads this, mem
      requires Valid()
    {
      mem[..used]
    }

    constructor ()
      ensures Valid() && Contents() == "" && mem.Length == 2048 && fresh(mem)
    {
      mem := new char[2048];
      used := 0;
    }

    // realloc: a longer buffer with the same contents.
    method Grow(len: nat)
      requires Valid() && mem.Length <= len
      modifies this
      ensures Valid() && fresh(mem) && mem.Length == len && Contents() == old(Contents())
    {
      var tmp := new char[len];
      var k := 0;
      while k < used
        invariant k <= used <= mem.Length && mem == old(mem) && used == old(used)
        invariant tmp[..k] == mem[..k]
      {
        tmp[k] := mem[k];
        k := k + 1;
      }
      mem := tmp;
    }

    // memcpy to the end.
    method Copy(s: string)
      requires Valid() && used + |s| <= mem.Length
      modifies mem, this`used
      ensures Valid() && Contents() == old(Contents()) + s
    {
      var k := 0;
      while k < |s|
        invariant k <= |s| && used == old(used) && mem == old(mem)
        invariant forall j | 0 <= j < used :: mem[j] == old(mem[j])
        invariant forall j | 0 <= j < k :: mem[used + j] == s[j]
      {
        mem[used + k] := s[k];
        k := k + 1;
      }
      used := used + |s|;
    }

    /** memcpy to the end, behind a realloc when it does not fit: to the announced content length when that is
        long enough for what is there, else to just what is needed. */
    method Append(s: string, contentLength: int)
      requires Valid()
      modifies this, mem
      ensures Valid() && (mem == old(mem) || fresh(mem))
      ensures Contents() == old(Contents()) + s
      ensures var need := old(used) + |s|;
              mem.Length == if need <= old(mem.Length) then old(mem.Length)
                else if contentLength >= need then contentLength else need
    {
      if used + |s| > mem.Length {
        Grow(if contentLength >= used + |s| then contentLength else used + |s|);
      }
      Copy(s);
    }
  }
}
