/** Model of `inter/event_serializer.go`: the encoder and the decoder as they run, over one byte
    array shared by two bit headers and a buffer, proved to compute EventCodec's functions. */
module EventSerializer {
  import opened Numbers
  import opened EventCodec
  import FastBits
  import FastBuffer

  lemma CompactStep(x: nat)
    ensures Compact(x) == [x % 256] + (if x / 256 == 0 then [] else Compact(x / 256))
  {
  }

  /** `writeUintCompact`. */
  method WriteUintCompact(buf: FastBuffer.Buffer, v: nat, size: nat) returns (bytes: nat)
    requires buf.Valid() && 1 <= size && v < Pow2(8 * size) && buf.lo + buf.offset + size <= buf.buf.Length
    modifies buf, buf.buf
    ensures buf.Valid() && bytes == |Compact(v)| <= size && buf.offset == old(buf.offset) + bytes
    ensures buf.Done() == old(buf.Done()) + Compact(v)
    ensures forall i :: 0 <= i < buf.lo + old(buf.offset) ==> buf.buf[i] == old(buf.buf[i])
  {
    hide Pow2, Compact, FastBuffer.Buffer.Done;
    CompactLength(v, size);
    var x := v;
    bytes := 0;
    ghost var prefix: seq<byte> := [];
    while bytes < size
      invariant buf.Valid() && buf.offset == old(buf.offset) + bytes && bytes == |prefix| < size
      invariant Compact(v) == prefix + Compact(x)
      invariant buf.Done() == old(buf.Done()) + prefix
      invariant forall i :: 0 <= i < buf.lo + old(buf.offset) ==> buf.buf[i] == old(buf.buf[i])
    {
      CompactStep(x);
      buf.WriteByte(x % 256);
      bytes := bytes + 1;
      prefix := prefix + [x % 256];
      if x / 256 == 0 {
        break;
      }
      x := x / 256;
    }
  }

  type Writer = FastBits.BitArrayWriter
  type Buffer = FastBuffer.Buffer

  /** The two headers and the buffer lie side by side in one array. */
  ghost predicate Layout(raw: array<byte>, h3: Writer, h2: Writer, buf: Buffer)
    reads h3, h2, buf, raw
  {
    && h3.raw == h2.raw == buf.buf == raw && h3 != h2
    && h3.lo == 0 && h3.size == 1 && h3.bits == 4 && h3.Valid()
    && h2.lo == 1 && h2.size == 2 && h2.bits == 2 && h2.Valid()
    && buf.lo == 3 && buf.Valid()
  }

  /** Pushes a number into one header, leaving the other header and the buffer alone. */
  method PushHeader(raw: array<byte>, h3: Writer, h2: Writer, buf: Buffer, first: bool, v: nat)
    requires Layout(raw, h3, h2, buf)
    requires if first then v < 16 && |h3.written| < 2 else v < 4 && |h2.written| < 7
    modifies h3, h2, raw
    ensures Layout(raw, h3, h2, buf) && buf.offset == old(buf.offset) && buf.Done() == old(buf.Done())
    ensures h3.written == old(h3.written) + (if first then [v] else [])
    ensures h2.written == old(h2.written) + (if first then [] else [v])
  {
    Bounds();
    hide Pow2, Packed, LeValue;
    if first {
      h3.Push(v);
      assert h2.Bytes() == old(h2.Bytes());
    } else {
      h2.Push(v);
      assert h3.Bytes() == old(h3.Bytes());
    }
    assert buf.Done() == old(buf.Done());
  }

  /** Writes a number to the buffer and its size to a header: the body of both field loops. */
  method WriteField(raw: array<byte>, h3: Writer, h2: Writer, buf: Buffer, first: bool, v: nat)
    requires Layout(raw, h3, h2, buf)
    requires if first then v < U64 && |h3.written| < 2 else v < U32 && |h2.written| < 7
    requires 3 + buf.offset + (if first then 8 else 4) <= raw.Length
    modifies h3, h2, buf, raw
    ensures Layout(raw, h3, h2, buf) && buf.offset <= old(buf.offset) + (if first then 8 else 4)
    ensures buf.Done() == old(buf.Done()) + Compact(v)
    ensures h3.written == old(h3.written) + (if first then [|Compact(v)| - 1] else [])
    ensures h2.written == old(h2.written) + (if first then [] else [|Compact(v)| - 1])
  {
    Bounds();
    hide Pow2, Packed, LeValue, Compact;
    var n := WriteUintCompact(buf, v, if first then 8 else 4);
    assert h3.Bytes() == old(h3.Bytes()) && h2.Bytes() == old(h2.Bytes());
    PushHeader(raw, h3, h2, buf, first, n - 1);
  }

  /** Appends bytes to the buffer. */
  method WriteBytes(raw: array<byte>, h3: Writer, h2: Writer, buf: Buffer, v: seq<byte>)
    requires Layout(raw, h3, h2, buf) && 3 + buf.offset + |v| <= raw.Length
    modifies buf, raw
    ensures Layout(raw, h3, h2, buf) && buf.offset == old(buf.offset) + |v|
    ensures buf.Done() == old(buf.Done()) + v
  {
    hide Packed, LeValue;
    buf.Write(v);
    assert h3.Bytes() == old(h3.Bytes()) && h2.Bytes() == old(h2.Bytes());
  }

  lemma {:induction false} CompactsSnoc(vs: seq<nat>, v: nat)
    ensures Compacts(vs + [v]) == Compacts(vs) + Compact(v)
    ensures Sizes(vs + [v]) == Sizes(vs) + [|Compact(v)| - 1]
  {
    hide Compact;
    if vs != [] {
      assert (vs + [v])[1..] == vs[1..] + [v];
      CompactsSnoc(vs[1..], v);
    } else {
      assert ([] + [v])[1..] == [];
    }
  }

  lemma {:induction false} TailsSnoc(ps: seq<Hash>, p: Hash)
    ensures Tails(ps + [p]) == Tails(ps) + p[4..]
  {
    if ps != [] {
      assert (ps + [p])[1..] == ps[1..] + [p];
      TailsSnoc(ps[1..], p);
    } else {
      assert ([] + [p])[1..] == [];
    }
  }

  /** The loop over the 64-bit fields: their sizes go to the first header. */
  method WriteFields64(raw: array<byte>, h3: Writer, h2: Writer, buf: Buffer, fields: seq<nat>)
    requires Layout(raw, h3, h2, buf) && |fields| + |h3.written| <= 2 && 3 + buf.offset + 8 * |fields| <= raw.Length
    requires forall i :: 0 <= i < |fields| ==> fields[i] < U64
    modifies h3, h2, buf, raw
    ensures Layout(raw, h3, h2, buf) && buf.offset <= old(buf.offset) + 8 * |fields|
    ensures h3.written == old(h3.written) + Sizes(fields) && h2.written == old(h2.written)
    ensures buf.Done() == old(buf.Done()) + Compacts(fields)
  {
    hide Layout, Compact, Compacts, Sizes, FastBuffer.Buffer.Done;
    NoNumbers();
    for i := 0 to |fields|
      invariant Layout(raw, h3, h2, buf) && buf.offset <= old(buf.offset) + 8 * i
      invariant h3.written == old(h3.written) + Sizes(fields[..i]) && h2.written == old(h2.written)
      invariant buf.Done() == old(buf.Done()) + Compacts(fields[..i])
    {
      assert fields[..i + 1] == fields[..i] + [fields[i]];
      CompactsSnoc(fields[..i], fields[i]);
      WriteField(raw, h3, h2, buf, true, fields[i]);
    }
    assert fields[..|fields|] == fields;
  }

  /** The loop over the 32-bit fields: their sizes go to the second header. */
  method WriteFields32(raw: array<byte>, h3: Writer, h2: Writer, buf: Buffer, fields: seq<nat>)
    requires Layout(raw, h3, h2, buf) && |fields| + |h2.written| <= 7 && 3 + buf.offset + 4 * |fields| <= raw.Length
    requires forall i :: 0 <= i < |fields| ==> fields[i] < U32
    modifies h3, h2, buf, raw
    ensures Layout(raw, h3, h2, buf) && buf.offset <= old(buf.offset) + 4 * |fields|
    ensures h3.written == old(h3.written) && h2.written == old(h2.written) + Sizes(fields)
    ensures buf.Done() == old(buf.Done()) + Compacts(fields)
  {
    hide Layout, Compact, Compacts, Sizes, FastBuffer.Buffer.Done;
    NoNumbers();
    for i := 0 to |fields|
      invariant Layout(raw, h3, h2, buf) && buf.offset <= old(buf.offset) + 4 * i
      invariant h3.written == old(h3.written) && h2.written == old(h2.written) + Sizes(fields[..i])
      invariant buf.Done() == old(buf.Done()) + Compacts(fields[..i])
    {
      assert fields[..i + 1] == fields[..i] + [fields[i]];
      CompactsSnoc(fields[..i], fields[i]);
      WriteField(raw, h3, h2, buf, false, fields[i]);
    }
    assert fields[..|fields|] == fields;
  }

  /** The loop over the parents. */
  method WriteParents(raw: array<byte>, h3: Writer, h2: Writer, buf: Buffer, ps: seq<Hash>)
    requires Layout(raw, h3, h2, buf) && 3 + buf.offset + 28 * |ps| <= raw.Length
    modifies buf, raw
    ensures Layout(raw, h3, h2, buf) && buf.offset == old(buf.offset) + 28 * |ps|
    ensures buf.Done() == old(buf.Done()) + Tails(ps)
  {
    hide Layout, Tails, FastBuffer.Buffer.Done;
    TailsNone();
    for i := 0 to |ps|
      invariant Layout(raw, h3, h2, buf) && buf.offset == old(buf.offset) + 28 * i
      invariant buf.Done() == old(buf.Done()) + Tails(ps[..i])
    {
      assert ps[..i + 1] == ps[..i] + [ps[i]];
      TailsSnoc(ps[..i], ps[i]);
      WriteBytes(raw, h3, h2, buf, ps[i][4..]);
    }
    assert ps[..|ps|] == ps;
  }

  lemma TailsNone()
    ensures Tails([]) == []
  {
  }

  /** Bytes with the right headers and body are the encoding. */
  lemma Assemble(raw: seq<byte>, e: Event)
    requires 3 <= |raw| && LeValue(raw[..1]) == Packed(Header3(e), 4) && LeValue(raw[1..3]) == Packed(Header2(e), 2)
    requires raw[3..] == Compacts([e.time]) + Compacts(Fields32(e)) + Tails(e.parents) + e.payload + e.sig
    ensures raw == Encode(e)
  {
    hide Packed, LeValue, Compact, Compacts, Tails, Header3, Header2, Fields32, LeBytes;
    LeBytesInverse(raw[..1]);
    LeBytesInverse(raw[1..3]);
    CompactsCons(e.time, []);
    assert [e.time] + [] == [e.time];
    NoNumbers();
    assert raw == raw[..1] + raw[1..3] + raw[3..];
  }

  /** The zeroed array with its two headers and its buffer. */
  method Allocate(maxBytes: nat) returns (raw: array<byte>, h3: Writer, h2: Writer, buf: Buffer)
    requires 3 <= maxBytes
    ensures fresh(raw) && fresh(h3) && fresh(h2) && fresh(buf) && raw.Length == maxBytes
    ensures Layout(raw, h3, h2, buf) && h3.written == h2.written == [] && buf.offset == 0 && buf.Done() == []
  {
    raw := new byte[maxBytes](_ => 0);
    h3 := new FastBits.BitArrayWriter(4, 2, raw, 0, FastBits.Size(4, 2));
    h2 := new FastBits.BitArrayWriter(2, 7, raw, 1, FastBits.Size(2, 7));
    buf := new FastBuffer.Buffer(raw, 3);
  }

  lemma Finished(raw: array<byte>, h3: Writer, h2: Writer, buf: Buffer, e: Event)
    requires Layout(raw, h3, h2, buf) && h3.written == Header3(e) && h2.written == Header2(e)
    requires buf.Done() == Compacts([e.time]) + Compacts(Fields32(e)) + Tails(e.parents) + e.payload + e.sig
    ensures 3 + buf.offset <= raw.Length && raw[..3 + buf.offset] == Encode(e)
  {
    hide Pow2, Packed, LeValue, Compact, Compacts, Tails, Encode, Header2, Header3, Fields32;
    var out := raw[..3 + buf.offset];
    assert out[..1] == h3.Bytes() && out[1..3] == h2.Bytes() && out[3..] == buf.Done();
    Assemble(out, e);
  }

  /** `MarshalBinary`: never leaves its buffer or overfills a header, and computes the encoding. */
  method MarshalBinary(e: Event) returns (out: seq<byte>)
    requires Typed(e) && e.version < 16
    ensures out == Encode(e)
  {
    hide Pow2, Packed, LeValue, Compact, Compacts, Tails, Encode, Layout, Sizes, FastBuffer.Buffer.Done;
    var fields64, fields32 := [e.time], Fields32(e);
    var maxBytes := FastBits.Size(4, 2) + FastBits.Size(2, 7) + |fields64| * 8 + |fields32| * 4
      + |e.parents| * 28 + |e.sig| + |e.payload|;
    var raw, h3, h2, buf := Allocate(maxBytes);
    PushHeader(raw, h3, h2, buf, true, e.version);
    WriteFields64(raw, h3, h2, buf, fields64);
    WriteFields32(raw, h3, h2, buf, fields32);
    PushHeader(raw, h3, h2, buf, false, if e.isRoot then 1 else 0);
    WriteParents(raw, h3, h2, buf, e.parents);
    WriteBytes(raw, h3, h2, buf, e.payload);
    WriteBytes(raw, h3, h2, buf, e.sig);
    Finished(raw, h3, h2, buf, e);
    out := raw[..3 + buf.offset];
  }

  // ---------- decoding ----------

  lemma AddMod(a: nat, b: nat, m: nat)
    requires 0 < m
    ensures (a % m + b % m) % m == (a + b) % m
  {
    var q := a / m + b / m;
    assert a == m * (a / m) + a % m && b == m * (b / m) + b % m;
    var r := (a % m + b % m) % m;
    var k := (a % m + b % m) / m;
    assert a + b == (q + k) * m + r;
    DivUnique(a + b, m, q + k, r);
  }

  /** The loop of `readUintCompact`: sums the bytes, each shifted to its place, in 64 bits. */
  method SumBytes(bs: seq<byte>) returns (v: nat, last: nat)
    ensures v == LeValue(bs) % U64
    ensures bs != [] ==> last == bs[|bs| - 1]
  {
    LeNone();
    hide LeValue, Shl;
    v, last := 0, 0;
    for i := 0 to |bs|
      invariant v == LeValue(bs[..i]) % U64
      invariant i > 0 ==> last == bs[i - 1]
    {
      assert bs[..i + 1] == bs[..i] + [bs[i]];
      LeSnoc(bs[..i], bs[i]);
      AddMod(LeValue(bs[..i]), Shl(bs[i], 8 * i), U64);
      v := (v + Shl(bs[i], 8 * i) % U64) % U64;
      last := bs[i];
    }
    assert bs[..|bs|] == bs;
  }

  lemma LeNone()
    ensures LeValue([]) == 0
  {
  }

  lemma LeSnoc(bs: seq<byte>, x: byte)
    ensures LeValue(bs + [x]) == LeValue(bs) + Shl(x, 8 * |bs|)
  {
    PackedSnoc(bs, 8, x);
  }

  /** `readUintCompact`; a read beyond the end panics, and the decoder turns that into Invalid. */
  method ReadUintCompact(buf: Buffer, n: nat) returns (r: Result<nat>)
    requires buf.Valid() && 1 <= n
    modifies buf
    ensures buf.Valid()
    ensures match ReadUint(old(buf.Rest()), n)
      case Err(x) => r == Err(x)
      case Ok((v, rest)) => r == Ok(v) && buf.Rest() == rest
  {
    hide LeValue;
    var got := buf.Read(n);
    if got.None? {
      return Err(Invalid);
    }
    var v, last := SumBytes(got.value);
    if n > 1 && last == 0 {
      return Err(NonCanonical);
    }
    r := Ok(v);
  }

  /** Numbers already read, followed by what is still to be read. */
  ghost function Then(vs: seq<nat>, r: Result<(seq<nat>, seq<byte>)>): Result<(seq<nat>, seq<byte>)> {
    match r
    case Err(x) => Err(x)
    case Ok((ws, rest)) => Ok((vs + ws, rest))
  }

  ghost function ThenParents(ps: seq<Hash>, r: Result<(seq<Hash>, seq<byte>)>): Result<(seq<Hash>, seq<byte>)> {
    match r
    case Err(x) => Err(x)
    case Ok((qs, rest)) => Ok((ps + qs, rest))
  }

  lemma ThenNil(r: Result<(seq<nat>, seq<byte>)>)
    ensures Then([], r) == r
  {
    if r.Ok? {
      assert [] + r.value.0 == r.value.0;
    }
  }

  lemma ThenDone(vs: seq<nat>, b: seq<byte>)
    ensures Then(vs, ReadUints(b, [])) == Ok((vs, b))
  {
    assert vs + [] == vs;
  }

  lemma ThenStep(vs: seq<nat>, b: seq<byte>, sizes: seq<nat>)
    requires sizes != []
    ensures match ReadUint(b, sizes[0] + 1)
      case Err(x) => Then(vs, ReadUints(b, sizes)) == Err(x)
      case Ok((v, rest)) => Then(vs, ReadUints(b, sizes)) == Then(vs + [v], ReadUints(rest, sizes[1..]))
  {
    hide ReadUint;
    match ReadUint(b, sizes[0] + 1) {
      case Err(_) =>
      case Ok((v, rest)) =>
        var r := ReadUints(rest, sizes[1..]);
        if r.Ok? {
          assert vs + ([v] + r.value.0) == vs + [v] + r.value.0;
        }
    }
  }

  /** One field loop: pops sizes from a header and reads the numbers. */
  method ReadFields(h: FastBits.BitArrayReader, buf: Buffer, count: nat) returns (r: Result<seq<nat>>)
    requires h.Valid() && buf.Valid() && h.raw == buf.buf && h.bits * (h.offset + count) <= 8 * h.size
    modifies h, buf
    ensures buf.Valid() && h.Valid()
    ensures var all := Digits(LeValue(h.raw[h.lo..h.lo + h.size]), h.bits, old(h.offset) + count);
      match ReadUints(old(buf.Rest()), all[old(h.offset)..])
      case Err(x) => r == Err(x)
      case Ok((vs, rest)) => r == Ok(vs) && buf.Rest() == rest && h.offset == old(h.offset) + count
  {
    hide LeValue, ReadUint, ReadUints, Field, Then, FastBuffer.Buffer.Rest;
    ghost var all := Digits(LeValue(h.raw[h.lo..h.lo + h.size]), h.bits, h.offset + count);
    ghost var o, b := h.offset, buf.Rest();
    ghost var sizes := all[o..];
    var vs: seq<nat> := [];
    ThenNil(ReadUints(b, sizes));
    assert sizes[0..] == sizes;
    for i := 0 to count
      invariant h.Valid() && buf.Valid() && h.offset == o + i
      invariant ReadUints(b, sizes) == Then(vs, ReadUints(buf.Rest(), sizes[i..]))
    {
      PopInRange(h.bits, h.offset, o + count, h.size);
      var n := h.Pop();
      assert n == sizes[i];
      ThenStep(vs, buf.Rest(), sizes[i..]);
      assert sizes[i..][1..] == sizes[i + 1..];
      var x := ReadUintCompact(buf, n + 1);
      if x.Err? {
        return Err(x.error);
      }
      vs := vs + [x.value];
    }
    assert sizes[count..] == [];
    ThenDone(vs, buf.Rest());
    r := Ok(vs);
  }

  lemma PopInRange(bits: nat, i: nat, count: nat, size: nat)
    requires i < count && bits * count <= 8 * size && 0 < bits
    ensures bits * i / 8 < size
  {
    MulMono(bits, i + 1, count);
    Distribute(bits, i, 1, 1);
  }

  /** Reading two lists of numbers in a row. */
  lemma {:induction false} ReadUintsConcat(b: seq<byte>, s: seq<nat>, t: seq<nat>)
    ensures ReadUints(b, s + t) ==
      match ReadUints(b, s)
      case Err(x) => Err(x)
      case Ok((vs, rest)) => Then(vs, ReadUints(rest, t))
    decreases s
  {
    hide ReadUint;
    if s == [] {
      assert s + t == t;
      ThenNil(ReadUints(b, t));
    } else {
      assert (s + t)[1..] == s[1..] + t;
      match ReadUint(b, s[0] + 1) {
        case Err(_) =>
        case Ok((v, rest)) =>
          ReadUintsConcat(rest, s[1..], t);
          var r := ReadUints(rest, s[1..]);
          if r.Ok? && ReadUints(r.value.1, t).Ok? {
            var ws := ReadUints(r.value.1, t).value.0;
            assert [v] + (r.value.0 + ws) == [v] + r.value.0 + ws;
          }
      }
    }
  }

  lemma ParentsNil(r: Result<(seq<Hash>, seq<byte>)>)
    ensures ThenParents([], r) == r
  {
    if r.Ok? {
      assert [] + r.value.0 == r.value.0;
    }
  }

  lemma ParentsStep(ps: seq<Hash>, b: seq<byte>, epoch: nat, count: nat)
    requires 0 < count
    ensures if |b| < 28 then ThenParents(ps, ReadParents(b, epoch, count)) == Err(Invalid)
      else ThenParents(ps, ReadParents(b, epoch, count)) == ThenParents(ps + [Be32(epoch) + b[..28]], ReadParents(b[28..], epoch, count - 1))
  {
    hide Be32;
    if |b| >= 28 {
      var r := ReadParents(b[28..], epoch, count - 1);
      if r.Ok? {
        var p: Hash := Be32(epoch) + b[..28];
        assert ps + ([p] + r.value.0) == ps + [p] + r.value.0;
      }
    }
  }

  lemma ParentsDone(ps: seq<Hash>, b: seq<byte>, epoch: nat)
    ensures ThenParents(ps, ReadParents(b, epoch, 0)) == Ok((ps, b))
  {
    assert ps + [] == ps;
  }

  /** The loop over the parents: the epoch is put back in front of each. */
  method ReadParentTails(buf: Buffer, epoch: nat, count: nat) returns (r: Result<seq<Hash>>)
    requires buf.Valid()
    modifies buf
    ensures buf.Valid()
    ensures match ReadParents(old(buf.Rest()), epoch, count)
      case Err(x) => r == Err(x)
      case Ok((ps, rest)) => r == Ok(ps) && buf.Rest() == rest
  {
    hide ReadParents, ThenParents, Be32, FastBuffer.Buffer.Rest;
    ghost var b := buf.Rest();
    var ps: seq<Hash> := [];
    ParentsNil(ReadParents(b, epoch, count));
    for i := 0 to count
      invariant buf.Valid()
      invariant ReadParents(b, epoch, count) == ThenParents(ps, ReadParents(buf.Rest(), epoch, count - i))
    {
      ParentsStep(ps, buf.Rest(), epoch, count - i);
      var got := buf.Read(28);
      if got.None? {
        return Err(Invalid);
      }
      var p: Hash := Be32(epoch) + got.value;
      ps := ps + [p];
    }
    ParentsDone(ps, buf.Rest(), epoch);
    r := Ok(ps);
  }

  /** The headers and the numbers, as the decoder reads them. */
  method ReadNumbers(raw: array<byte>) returns (r: Result<(seq<nat>, bool)>, buf: Buffer)
    requires 3 <= raw.Length
    ensures fresh(buf) && buf.Valid() && buf.buf == raw && buf.lo == 3
    ensures if Pops3(raw[..])[0] != 0 then r == Err(WrongVersion)
      else match ReadUints(raw[3..], [Pops3(raw[..])[1]] + Pops2(raw[..])[..6])
      case Err(x) => r == Err(x)
      case Ok((vs, rest)) => r == Ok((vs, Pops2(raw[..])[6] != 0)) && buf.Rest() == rest
  {
    hide LeValue, Field, ReadUints, ReadUint, Digits, FastBuffer.Buffer.Rest;
    HeaderBytes(raw[..]);
    var h3 := new FastBits.BitArrayReader(4, 2, raw, 0, 1);
    var h2 := new FastBits.BitArrayReader(2, 7, raw, 1, 2);
    buf := new FastBuffer.Buffer(raw, 3);
    assert raw[..][..1] == raw[0..1] && raw[..][1..3] == raw[1..3];
    AllLeft(buf);
    var ver := h3.Pop();
    if ver != 0 {
      return Err(WrongVersion), buf;
    }
    var fields := ReadSizes(raw, h3, h2, buf);
    if fields.Err? {
      return Err(fields.error), buf;
    }
    var flag := h2.Pop();
    r := Ok((fields.value, flag != 0));
  }

  lemma AllLeft(buf: Buffer)
    requires buf.Valid() && buf.offset == 0
    ensures buf.lo <= buf.buf.Length && buf.Rest() == buf.buf[buf.lo..]
  {
  }

  lemma HeaderBytes(raw: seq<byte>)
    requires 3 <= |raw|
    ensures Pops3(raw)[0] == Field(LeValue(raw[..1]), 0, 4) && Pops2(raw)[6] == Field(LeValue(raw[1..3]), 12, 2)
    ensures Digits(LeValue(raw[..1]), 4, 2)[1..] == [Pops3(raw)[1]]
    ensures Digits(LeValue(raw[1..3]), 2, 6)[0..] == Pops2(raw)[..6]
  {
    hide LeValue, Field;
  }

  /** The two loops over the number fields. */
  method ReadSizes(raw: array<byte>, h3: FastBits.BitArrayReader, h2: FastBits.BitArrayReader, buf: Buffer) returns (r: Result<seq<nat>>)
    requires 3 <= raw.Length && h3 != h2
    requires h3.Valid() && h3.raw == raw && h3.bits == 4 && h3.lo == 0 && h3.size == 1 && h3.offset == 1
    requires h2.Valid() && h2.raw == raw && h2.bits == 2 && h2.lo == 1 && h2.size == 2 && h2.offset == 0
    requires buf.Valid() && buf.buf == raw
    modifies h3, h2, buf
    ensures buf.Valid() && h2.Valid()
    ensures match ReadUints(old(buf.Rest()), [Pops3(raw[..])[1]] + Pops2(raw[..])[..6])
      case Err(x) => r == Err(x)
      case Ok((vs, rest)) => r == Ok(vs) && buf.Rest() == rest && h2.offset == 6
  {
    hide LeValue, Field, ReadUints, ReadUint, Digits, FastBuffer.Buffer.Rest, Pops2, Pops3;
    HeaderBytes(raw[..]);
    assert raw[..][..1] == raw[0..1] && raw[..][1..3] == raw[1..3];
    ReadUintsConcat(buf.Rest(), [Pops3(raw[..])[1]], Pops2(raw[..])[..6]);
    var times := ReadFields(h3, buf, 1);
    if times.Err? {
      return Err(times.error);
    }
    var fields := ReadFields(h2, buf, 6);
    if fields.Err? {
      return Err(fields.error);
    }
    r := Ok(times.value + fields.value);
  }

  /** `UnmarshalBinary`: computes the decoding; a recovered panic is the error Invalid. */
  method UnmarshalBinary(raw: array<byte>) returns (r: Result<Event>)
    ensures r == Decode(raw[..])
  {
    hide LeValue, Field, ReadUints, ReadParents, Pops2, Pops3;
    if raw.Length < 3 {
      return Err(Invalid);
    }
    assert raw[..][3..] == raw[3..];
    var numbers, buf := ReadNumbers(raw);
    assert 3 + buf.offset <= raw.Length;
    if numbers.Err? {
      return Err(numbers.error);
    }
    var (vs, isRoot) := numbers.value;
    var epoch, parentsCount := vs[1] % U32, vs[6] % U32;
    var parents := ReadParentTails(buf, epoch, parentsCount);
    if parents.Err? {
      return Err(parents.error);
    }
    var end := ReadEnd(buf);
    if end.Err? {
      return Err(end.error);
    }
    var (payload, sig) := end.value;
    r := Ok(Event(0, vs[0], epoch, vs[2] % U32, vs[3] % U32, vs[4] % U32, vs[5] % U32,
                  isRoot, parents.value, payload, sig));
  }

  /** The end of the decoder: all but the last 64 bytes left are the payload. */
  method ReadEnd(buf: Buffer) returns (r: Result<(seq<byte>, Signature)>)
    requires buf.Valid()
    modifies buf
    ensures var rest := old(buf.Rest());
      r == if |rest| < SIG_SIZE then Err(MalformedSignature) else Ok((rest[..|rest| - SIG_SIZE], rest[|rest| - SIG_SIZE..]))
  {
    ghost var rest := buf.Rest();
    var left := buf.buf.Length - buf.lo - buf.offset;
    if left < SIG_SIZE {
      return Err(MalformedSignature);
    }
    var payload := buf.Read(left - SIG_SIZE);
    var sig := buf.Read(SIG_SIZE);
    assert rest[left - SIG_SIZE..][..SIG_SIZE] == rest[left - SIG_SIZE..];
    r := Ok((payload.value, sig.value));
  }
}
