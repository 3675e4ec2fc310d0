/** Model of `utils/fast/buffer.go`: a fixed buffer with a cursor.  The slice it wraps is the part
    of an array from `lo` on. */
module FastBuffer {
  import opened Numbers
  import opened Options

  class Buffer {
    const buf: array<byte>
    const lo: nat
    var offset: nat

    ghost predicate Valid()
      reads this
    {
      lo + offset <= buf.Length
    }

    /** The bytes before the cursor. */
    ghost function Done(): seq<byte>
      reads this, buf
    {
      if lo + offset <= buf.Length then buf[lo..lo + offset] else []
    }

    /** The bytes after the cursor. */
    ghost function Rest(): seq<byte>
      reads this, buf
    {
      if lo + offset <= buf.Length then buf[lo + offset..] else []
    }

    constructor (buf: array<byte>, lo: nat)
      requires lo <= buf.Length
      ensures Valid() && this.buf == buf && this.lo == lo && offset == 0
    {
      this.buf, this.lo, this.offset := buf, lo, 0;
    }

    method WriteByte(v: byte)
      requires Valid() && lo + offset < buf.Length
      modifies this, buf
      ensures Valid() && offset == old(offset) + 1
      ensures Done() == old(Done()) + [v]
      ensures forall i :: 0 <= i < lo + old(offset) || lo + offset <= i < buf.Length ==> buf[i] == old(buf[i])
    {
      buf[lo + offset] := v;
      offset := offset + 1;
      assert Done() == old(Done()) + [v];
    }

    /** `Write`: its "buffer overflow" panic is excluded by the precondition. */
    method Write(v: seq<byte>)
      requires Valid() && lo + offset + |v| <= buf.Length
      modifies this, buf
      ensures Valid() && offset == old(offset) + |v|
      ensures Done() == old(Done()) + v
      ensures forall i :: 0 <= i < lo + old(offset) || lo + offset <= i < buf.Length ==> buf[i] == old(buf[i])
    {
      forall i | 0 <= i < |v| {
        buf[lo + offset + i] := v[i];
      }
      offset := offset + |v|;
      assert Done() == old(Done()) + v;
    }

    /** `Read`: slicing beyond the end panics, which is the result None. */
    method Read(n: nat) returns (r: Option<seq<byte>>)
      requires Valid()
      modifies this
      ensures Valid()
      ensures r.Some? <==> n <= |old(Rest())|
      ensures r.Some? ==> r.value == old(Rest())[..n] && Rest() == old(Rest())[n..]
    {
      if lo + offset + n > buf.Length {
        return None;
      }
      r := Some(buf[lo + offset..lo + offset + n]);
      offset := offset + n;
    }
  }
}
