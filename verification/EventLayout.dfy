/** The format of `inter/event_serializer.go` on the bytes: where each field of an accepted byte string lies,
    and which error the decoder answers with otherwise. */
module EventLayout {
  import opened Numbers
  import opened EventCodec

  /** Where the fields with these stored lengths end. */
  function End(sizes: seq<nat>): nat {
    if sizes == [] then 0 else End(sizes[..|sizes| - 1]) + sizes[|sizes| - 1] + 1
  }

  /** Field i lies within the bytes, has more than one byte, and the last of them is zero. */
  predicate Padded(b: seq<byte>, sizes: seq<nat>, i: nat) {
    i < |sizes| && End(sizes[..i + 1]) <= |b| && 1 <= sizes[i] && b[End(sizes[..i + 1]) - 1] == 0
  }

  lemma {:induction false} EndFront(sizes: seq<nat>)
    requires sizes != []
    ensures End(sizes) == sizes[0] + 1 + End(sizes[1..])
  {
    var n := |sizes| - 1;
    if n == 0 {
      assert sizes[..n] == [] && sizes[1..] == [];
    } else {
      EndFront(sizes[..n]);
      assert sizes[..n][1..] == sizes[1..][..n - 1];
    }
  }

  lemma {:induction false} EndGrows(sizes: seq<nat>, i: nat)
    requires i <= |sizes|
    ensures End(sizes[..i]) <= End(sizes)
    decreases |sizes|
  {
    if i == |sizes| {
      assert sizes[..i] == sizes;
    } else {
      EndGrows(sizes[..|sizes| - 1], i);
      assert sizes[..|sizes| - 1][..i] == sizes[..i];
    }
  }

  /** Field i + 1 of all is field i of the rest. */
  lemma PaddedRest(b: seq<byte>, sizes: seq<nat>, i: nat)
    requires sizes != [] && sizes[0] + 1 <= |b|
    ensures Padded(b, sizes, i + 1) <==> Padded(b[sizes[0] + 1..], sizes[1..], i)
  {
    hide End;
    if i + 1 < |sizes| {
      var rest := sizes[1..];
      EndFront(sizes[..i + 2]);
      EndFront(rest[..i + 1]);
      assert sizes[..i + 2][1..] == rest[..i + 1] && rest[i] == sizes[i + 1];
    }
  }

  lemma PaddedFirst(b: seq<byte>, sizes: seq<nat>)
    requires sizes != []
    ensures End(sizes[..1]) == sizes[0] + 1
    ensures Padded(b, sizes, 0) <==> sizes[0] + 1 <= |b| && 1 <= sizes[0] && b[sizes[0]] == 0
  {
    assert sizes[..1][..0] == [];
  }

  /** No field is padded with a zero byte. */
  ghost predicate Tight(b: seq<byte>, sizes: seq<nat>) {
    forall i: nat :: !Padded(b, sizes, i)
  }

  /** The numbers are read if and only if they are all there and none is padded; padding is reported rather
      than missing bytes. */
  lemma {:induction false} ReadUintsIff(b: seq<byte>, sizes: seq<nat>)
    ensures ReadUints(b, sizes) == Err(NonCanonical) <==> !Tight(b, sizes)
    ensures ReadUints(b, sizes) == Err(Invalid) <==> Tight(b, sizes) && |b| < End(sizes)
    ensures ReadUints(b, sizes).Ok? <==> Tight(b, sizes) && End(sizes) <= |b|
    ensures ReadUints(b, sizes).Ok? ==> ReadUints(b, sizes).value.1 == b[End(sizes)..]
  {
    hide Padded, End, LeValue;
    if sizes == [] {
      NoFields(b);
    } else {
      var n := sizes[0] + 1;
      EndFront(sizes);
      PaddedFirst(b, sizes);
      if n <= |b| {
        ReadUintsIff(b[n..], sizes[1..]);
        TightRest(b, sizes);
      } else {
        Short(b, sizes);
      }
    }
  }

  lemma NoFields(b: seq<byte>)
    ensures Tight(b, []) && End([]) == 0
  {
  }

  lemma TightRest(b: seq<byte>, sizes: seq<nat>)
    requires sizes != [] && sizes[0] + 1 <= |b|
    ensures Tight(b, sizes) <==> !Padded(b, sizes, 0) && Tight(b[sizes[0] + 1..], sizes[1..])
  {
    hide Padded;
    if !Tight(b, sizes) && !Padded(b, sizes, 0) {
      var i: nat :| Padded(b, sizes, i);
      PaddedRest(b, sizes, i - 1);
    }
    if !Tight(b[sizes[0] + 1..], sizes[1..]) {
      var i: nat :| Padded(b[sizes[0] + 1..], sizes[1..], i);
      PaddedRest(b, sizes, i);
    }
  }

  /** If the first field is cut off, every other is. */
  lemma Short(b: seq<byte>, sizes: seq<nat>)
    requires sizes != [] && |b| < sizes[0] + 1
    ensures Tight(b, sizes)
  {
    forall i: nat
      ensures !Padded(b, sizes, i)
    {
      if i < |sizes| {
        EndGrows(sizes[..i + 1], 1);
        assert sizes[..i + 1][..1] == sizes[..1];
        PaddedFirst(b, sizes);
      }
    }
  }

  lemma {:induction false} ReadParentsIff(b: seq<byte>, epoch: nat, count: nat)
    ensures |b| < 28 * count ==> ReadParents(b, epoch, count) == Err(Invalid)
    ensures 28 * count <= |b| ==>
      && ReadParents(b, epoch, count).Ok? && ReadParents(b, epoch, count).value.1 == b[28 * count..]
      && |ReadParents(b, epoch, count).value.0| == count
    decreases count
  {
    if count == 0 || |b| < 28 {
    } else {
      ReadParentsIff(b[28..], epoch, count - 1);
    }
  }

  // ---------- the whole decoder ----------

  /** The stored lengths of the seven numbers. */
  function Lengths(raw: seq<byte>): (sizes: seq<nat>)
    requires 3 <= |raw|
    ensures |sizes| == 7
  {
    [Pops3(raw)[1]] + Pops2(raw)[..6]
  }

  /** The number in the bytes of field i. */
  function Number(raw: seq<byte>, i: nat): nat
    requires 3 <= |raw| && 3 + End(Lengths(raw)) <= |raw| && i < 7
  {
    var sizes := Lengths(raw);
    EndGrows(sizes, i + 1);
    EndGrows(sizes[..i + 1], i);
    assert sizes[..i + 1][..i] == sizes[..i];
    LeValue(raw[3 + End(sizes[..i])..3 + End(sizes[..i + 1])])
  }

  /** How many bytes are left behind the numbers and the parents, negative if some are missing. */
  function Left(raw: seq<byte>): int
    requires 3 <= |raw|
  {
    var left := |raw| - 3 - End(Lengths(raw));
    if left < 0 then left else left - 28 * (Number(raw, 6) % 0x1_0000_0000)
  }

  /** The headers are there and of version 0. */
  predicate Headed(raw: seq<byte>) {
    3 <= |raw| && Pops3(raw)[0] == 0
  }

  /** The four errors and success, each on the bytes: a wrong version comes first, then a padded number
      anywhere in what is there, then missing bytes of numbers or parents, then of the signature. */
  lemma DecodeErrors(raw: seq<byte>)
    ensures Decode(raw) == Err(WrongVersion) <==> 3 <= |raw| && Pops3(raw)[0] != 0
    ensures Decode(raw) == Err(NonCanonical) <==> Headed(raw) && !Tight(raw[3..], Lengths(raw))
    ensures Decode(raw) == Err(Invalid) <==> |raw| < 3 || (Headed(raw) && Tight(raw[3..], Lengths(raw)) && Left(raw) < 0)
    ensures Decode(raw) == Err(MalformedSignature) <==> Headed(raw) && Tight(raw[3..], Lengths(raw)) && 0 <= Left(raw) < 64
    ensures Decode(raw).Ok? <==> Headed(raw) && Tight(raw[3..], Lengths(raw)) && 64 <= Left(raw)
  {
    hide Tight, End, Pops2, Pops3, LeValue, ReadUints, ReadParents;
    if Headed(raw) {
      var sizes := Lengths(raw);
      ReadUintsIff(raw[3..], sizes);
      match ReadUints(raw[3..], sizes) {
        case Err(_) =>
        case Ok((vs, rest)) =>
          NumberRead(raw, 6);
          ReadParentsIff(rest, vs[1] % U32, vs[6] % U32);
      }
    }
  }

  /** Number i that is read. */
  lemma {:induction false} ReadAt(b: seq<byte>, sizes: seq<nat>, i: nat)
    requires ReadUints(b, sizes).Ok? && i < |sizes|
    ensures End(sizes[..i]) <= End(sizes[..i + 1]) <= |b|
    ensures ReadUints(b, sizes).value.0[i] == LeValue(b[End(sizes[..i])..End(sizes[..i + 1])]) % U64
    decreases i
  {
    hide End, LeValue;
    var k := sizes[0] + 1;
    PaddedFirst(b, sizes);
    if i == 0 {
      assert sizes[..0] == [];
      NoFields([]);
    } else {
      var rest := sizes[1..];
      ReadAt(b[k..], rest, i - 1);
      EndFront(sizes[..i]);
      EndFront(sizes[..i + 1]);
      assert sizes[..i][1..] == rest[..i - 1] && sizes[..i + 1][1..] == rest[..i];
      Slice(b, k, End(rest[..i - 1]), End(rest[..i]));
    }
  }

  lemma Slice(b: seq<byte>, k: nat, lo: nat, hi: nat)
    requires lo <= hi && k + hi <= |b|
    ensures b[k..][lo..hi] == b[k + lo..k + hi]
  {
  }

  lemma NumberRead(raw: seq<byte>, i: nat)
    requires 3 <= |raw| && ReadUints(raw[3..], Lengths(raw)).Ok? && i < 7
    ensures 3 + End(Lengths(raw)) <= |raw|
    ensures var v := ReadUints(raw[3..], Lengths(raw)).value.0[i];
      v == Number(raw, i) % 0x1_0000_0000_0000_0000 && v % U32 == Number(raw, i) % 0x1_0000_0000
  {
    hide End, LeValue, ReadUints, Tight;
    var sizes := Lengths(raw);
    ReadUintsIff(raw[3..], sizes);
    ReadAt(raw[3..], sizes, i);
    Slice(raw, 3, End(sizes[..i]), End(sizes[..i + 1]));
    Cut(Number(raw, i));
  }

  lemma Cut(n: nat)
    ensures n % 0x1_0000_0000_0000_0000 % U32 == n % 0x1_0000_0000
  {
  }

  lemma {:induction false} ParentAt(b: seq<byte>, epoch: nat, count: nat, j: nat)
    requires 28 * count <= |b| && j < count && ReadParents(b, epoch, count).Ok? && |ReadParents(b, epoch, count).value.0| == count
    ensures ReadParents(b, epoch, count).value.0[j] == Be32(epoch) + b[28 * j..28 * j + 28]
    decreases count
  {
    hide Be32;
    ReadParentsIff(b[28..], epoch, count - 1);
    if j == 0 {
    } else {
      ParentAt(b[28..], epoch, count - 1, j - 1);
      Slice(b, 28, 28 * (j - 1), 28 * (j - 1) + 28);
    }
  }

  /** The bits of the headers: version and length of the time in the first byte; the lengths of the six
      32-bit numbers, two bits each, and the root field in the next two. */
  lemma HeaderBits(raw: seq<byte>)
    requires 3 <= |raw|
    ensures Pops3(raw) == [raw[0] % 16, raw[0] / 16]
    ensures Pops2(raw) == [raw[1] % 4, raw[1] / 4 % 4, raw[1] / 16 % 4, raw[1] / 64, raw[2] % 4, raw[2] / 4 % 4, raw[2] / 16 % 4]
  {
    hide LeValue, Field, Pops2, Pops3;
    Popped(raw);
    LeOne(raw[0]);
    LeTwo(raw[1], raw[2]);
    Low4(LeValue([raw[0]]));
    Low2(LeValue([raw[1], raw[2]]));
    TwoBytes(raw[1], raw[2]);
  }

  lemma Popped(raw: seq<byte>)
    requires 3 <= |raw|
    ensures var m, n := LeValue([raw[0]]), LeValue([raw[1], raw[2]]);
      && Pops3(raw) == [Field(m, 0, 4), Field(m, 4, 4)]
      && Pops2(raw) == [Field(n, 0, 2), Field(n, 2, 2), Field(n, 4, 2), Field(n, 6, 2), Field(n, 8, 2), Field(n, 10, 2), Field(n, 12, 2)]
  {
    hide Field, LeValue;
    assert raw[..1] == [raw[0]] && raw[1..3] == [raw[1], raw[2]];
  }

  lemma Low4(n: nat)
    ensures Field(n, 0, 4) == n % 16 && Field(n, 4, 4) == n / 16 % 16
  {
    Powers();
    hide Pow2;
  }

  lemma Low2(n: nat)
    ensures Field(n, 0, 2) == n % 4 && Field(n, 2, 2) == n / 4 % 4 && Field(n, 4, 2) == n / 16 % 4 && Field(n, 6, 2) == n / 64 % 4
    ensures Field(n, 8, 2) == n / 256 % 4 && Field(n, 10, 2) == n / 1024 % 4 && Field(n, 12, 2) == n / 4096 % 4
  {
    Powers();
    hide Pow2;
  }

  lemma LeOne(x: byte)
    ensures LeValue([x]) == x
  {
    LeCons(x, []);
    assert [x] + [] == [x];
  }

  lemma LeTwo(x: byte, y: byte)
    ensures LeValue([x, y]) == x + 256 * y
  {
    LeOne(y);
    LeCons(x, [y]);
    assert [x] + [y] == [x, y];
  }

  lemma Powers()
    ensures Pow2(0) == 1 && Pow2(2) == 4 && Pow2(4) == 16 && Pow2(6) == 64 && Pow2(8) == 256 && Pow2(10) == 1024 && Pow2(12) == 4096
  {
    assert Pow2(0) == 1 && Pow2(2) == 4;
    hide Pow2;
    Pow2Add(2, 2);
    Pow2Add(2, 4);
    Pow2Add(4, 4);
    Pow2Add(2, 8);
    Pow2Add(4, 8);
  }

  lemma TwoBytes(x: byte, y: byte)
    ensures var n: nat := x + 256 * y;
      && n % 4 == x % 4 && n / 4 % 4 == x / 4 % 4 && n / 16 % 4 == x / 16 % 4 && n / 64 % 4 == x / 64
      && n / 256 % 4 == y % 4 && n / 1024 % 4 == y / 4 % 4 && n / 4096 % 4 == y / 16 % 4
  {
    LowByte(x, y);
    HighByte(x, y);
  }

  lemma LowByte(x: byte, y: byte)
    ensures var n: nat := x + 256 * y;
      n % 4 == x % 4 && n / 4 % 4 == x / 4 % 4 && n / 16 % 4 == x / 16 % 4 && n / 64 % 4 == x / 64
  {
    Quarter(x, 64 * y);
    Quarter(x / 4, 16 * y);
    Quarter(x / 16, 4 * y);
    Nested(x + 256 * y);
    Nested(x);
  }

  lemma Quarter(x: nat, k: nat)
    ensures (x + 4 * k) / 4 == x / 4 + k && (x + 4 * k) % 4 == x % 4
  {
  }

  lemma Nested(n: nat)
    ensures n / 4 / 4 == n / 16 && n / 16 / 4 == n / 64
  {
  }

  lemma HighByte(x: byte, y: byte)
    ensures var n: nat := x + 256 * y;
      n / 256 % 4 == y % 4 && n / 1024 % 4 == y / 4 % 4 && n / 4096 % 4 == y / 16 % 4
  {
    var n: nat := x + 256 * y;
    assert n / 256 == y;
    assert n / 1024 == y / 4 && n / 4096 == y / 16;
  }

  /** Where the fields of an accepted byte string lie: the numbers in their order behind the three header bytes,
      little-endian; then 28 bytes of each parent, whose first four are the epoch; then the payload; and the
      signature in the last 64 bytes. */
  lemma DecodedLayout(raw: seq<byte>)
    requires Decode(raw).Ok?
    ensures 3 <= |raw| && 3 + End(Lengths(raw)) <= |raw|
    ensures var e := Decode(raw).value;
      && e.version == 0 && e.time == Number(raw, 0) % 0x1_0000_0000_0000_0000
      && e.epoch == Number(raw, 1) % 0x1_0000_0000 && e.seqNum == Number(raw, 2) % 0x1_0000_0000
      && e.frame == Number(raw, 3) % 0x1_0000_0000 && e.creator == Number(raw, 4) % 0x1_0000_0000
      && e.lamport == Number(raw, 5) % 0x1_0000_0000 && |e.parents| == Number(raw, 6) % 0x1_0000_0000
      && (e.isRoot <==> raw[2] / 16 % 4 != 0)
    ensures var e, p := Decode(raw).value, 3 + End(Lengths(raw));
      && p + 28 * |e.parents| + 64 <= |raw|
      && (forall j :: 0 <= j < |e.parents| ==> e.parents[j] == Be32(e.epoch) + raw[p + 28 * j..p + 28 * j + 28])
      && e.payload == raw[p + 28 * |e.parents|..|raw| - 64] && e.sig == raw[|raw| - 64..]
  {
    hide Tight, End, Pops2, Pops3, LeValue, ReadUints, ReadParents, Number, Be32;
    var sizes := Lengths(raw);
    ReadUintsIff(raw[3..], sizes);
    var (vs, rest) := ReadUints(raw[3..], sizes).value;
    forall i: nat | i < 7
      ensures vs[i] == Number(raw, i) % 0x1_0000_0000_0000_0000 && vs[i] % U32 == Number(raw, i) % 0x1_0000_0000
    {
      NumberRead(raw, i);
    }
    var e, p, n := Decode(raw).value, 3 + End(sizes), vs[6] % U32;
    assert rest == raw[p..];
    ReadParentsIff(rest, vs[1] % U32, n);
    forall j: nat | j < n
      ensures p + 28 * j + 28 <= |raw| && e.parents[j] == Be32(e.epoch) + raw[p + 28 * j..p + 28 * j + 28]
    {
      ParentAt(rest, vs[1] % U32, n, j);
      Slice(raw, p, 28 * j, 28 * j + 28);
    }
    HeaderBits(raw);
    assert rest[28 * n..] == raw[p + 28 * n..];
  }
}
