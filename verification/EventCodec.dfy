/** The binary format of events (`inter/event_serializer.go`) as functions on byte strings, and the
    laws of the format. */
module EventCodec {
  import opened Numbers

  type Hash = h: seq<byte> | |h| == 32 witness seq(32, _ => 0)
  type Signature = s: seq<byte> | |s| == 64 witness seq(64, _ => 0)

  const SIG_SIZE := 64
  const U32 := 0x1_0000_0000
  const U64 := 0x1_0000_0000_0000_0000

  datatype Event = Event(
    version: byte,
    time: nat,
    epoch: nat,
    seqNum: nat,
    frame: nat,
    creator: nat,
    lamport: nat,
    isRoot: bool,
    parents: seq<Hash>,
    payload: seq<byte>,
    sig: Signature)

  /** The fields are within their machine widths. */
  predicate Typed(e: Event) {
    && e.time < U64 && e.epoch < U32 && e.seqNum < U32 && e.frame < U32
    && e.creator < U32 && e.lamport < U32 && |e.parents| < U32
  }

  /** The big-endian bytes of a 32-bit number. */
  function Be32(n: nat): (b: seq<byte>)
    ensures |b| == 4
  {
    [n / 0x100_0000 % 256, n / 0x1_0000 % 256, n / 256 % 256, n % 256]
  }

  /** Events the format can carry: version 0, and parents of the event's own epoch. */
  predicate Encodable(e: Event) {
    Typed(e) && e.version == 0 && forall i :: 0 <= i < |e.parents| ==> e.parents[i][..4] == Be32(e.epoch)
  }

  datatype Error = Invalid | WrongVersion | NonCanonical | MalformedSignature
  datatype Result<+T> = Ok(value: T) | Err(error: Error)

  // ---------- encoding ----------

  /** The shortest little-endian form of a number, at least one byte. */
  function Compact(v: nat): (b: seq<byte>)
    ensures 1 <= |b|
  {
    if v < 256 then [v] else [v % 256] + Compact(v / 256)
  }

  function Compacts(vs: seq<nat>): seq<byte> {
    if vs == [] then [] else Compact(vs[0]) + Compacts(vs[1..])
  }

  /** Lengths minus one, as the headers store them. */
  function Sizes(vs: seq<nat>): (ns: seq<nat>)
    ensures |ns| == |vs|
  {
    seq(|vs|, i requires 0 <= i < |vs| => |Compact(vs[i])| - 1)
  }

  /** Parents without their epoch. */
  function Tails(ps: seq<Hash>): seq<byte> {
    if ps == [] then [] else ps[0][4..] + Tails(ps[1..])
  }

  function LeBytes(n: nat, k: nat): (b: seq<byte>)
    ensures |b| == k
  {
    if k == 0 then [] else [n % 256] + LeBytes(n / 256, k - 1)
  }

  function Fields32(e: Event): seq<nat> {
    [e.epoch, e.seqNum, e.frame, e.creator, e.lamport, |e.parents|]
  }

  function Flag(b: bool): nat {
    if b then 1 else 0
  }

  /** The version and the size of the time, four bits each. */
  function Header3(e: Event): seq<nat> {
    [e.version as nat] + Sizes([e.time])
  }

  /** The sizes of the 32-bit fields and the root flag, two bits each. */
  function Header2(e: Event): seq<nat> {
    Sizes(Fields32(e)) + [Flag(e.isRoot)]
  }

  /** Everything before the payload. */
  function Front(e: Event): seq<byte> {
    LeBytes(Packed(Header3(e), 4), 1) + LeBytes(Packed(Header2(e), 2), 2)
      + Compact(e.time) + Compacts(Fields32(e)) + Tails(e.parents)
  }

  function Encode(e: Event): seq<byte> {
    Front(e) + e.payload + e.sig
  }

  // ---------- decoding ----------

  /** `readUintCompact`: the value is summed in 64 bits. */
  function ReadUint(b: seq<byte>, n: nat): Result<(nat, seq<byte>)>
    requires 1 <= n
  {
    if |b| < n then Err(Invalid)
    else if n > 1 && b[n - 1] == 0 then Err(NonCanonical)
    else Ok((LeValue(b[..n]) % U64, b[n..]))
  }

  function ReadUints(b: seq<byte>, sizes: seq<nat>): (r: Result<(seq<nat>, seq<byte>)>)
    ensures r.Ok? ==> |r.value.0| == |sizes|
  {
    if sizes == [] then Ok(([], b))
    else match ReadUint(b, sizes[0] + 1)
      case Err(x) => Err(x)
      case Ok((v, rest)) =>
        match ReadUints(rest, sizes[1..])
        case Err(x) => Err(x)
        case Ok((vs, rest')) => Ok(([v] + vs, rest'))
  }

  function ReadParents(b: seq<byte>, epoch: nat, count: nat): Result<(seq<Hash>, seq<byte>)>
    decreases count
  {
    if count == 0 then Ok(([], b))
    else if |b| < 28 then Err(Invalid)
    else
      var p: Hash := Be32(epoch) + b[..28];
      match ReadParents(b[28..], epoch, count - 1)
      case Err(x) => Err(x)
      case Ok((ps, rest)) => Ok(([p] + ps, rest))
  }

  /** The numbers in the two headers. */
  function Pops3(raw: seq<byte>): (ns: seq<nat>)
    requires 3 <= |raw|
    ensures |ns| == 2
  {
    Digits(LeValue(raw[..1]), 4, 2)
  }

  function Pops2(raw: seq<byte>): (ns: seq<nat>)
    requires 3 <= |raw|
    ensures |ns| == 7
  {
    Digits(LeValue(raw[1..3]), 2, 7)
  }

  /** Everything before the payload: the numbers, the parents, and the bytes left. */
  function DecodeFront(raw: seq<byte>): (r: Result<(seq<nat>, seq<Hash>, seq<byte>)>)
    ensures r.Ok? ==> 3 <= |raw| && |r.value.0| == 7
  {
    if |raw| < 3 then Err(Invalid)
    else if Pops3(raw)[0] != 0 then Err(WrongVersion)
    else match ReadUints(raw[3..], [Pops3(raw)[1]] + Pops2(raw)[..6])
      case Err(x) => Err(x)
      case Ok((vs, rest)) =>
        match ReadParents(rest, vs[1] % U32, vs[6] % U32)
        case Err(x) => Err(x)
        case Ok((ps, rest')) => Ok((vs, ps, rest'))
  }

  function Decode(raw: seq<byte>): Result<Event> {
    match DecodeFront(raw)
    case Err(x) => Err(x)
    case Ok((vs, ps, rest)) =>
      if |rest| < SIG_SIZE then Err(MalformedSignature)
      else Ok(Event(0, vs[0], vs[1] % U32, vs[2] % U32, vs[3] % U32, vs[4] % U32, vs[5] % U32,
                    Pops2(raw)[6] != 0, ps, rest[..|rest| - SIG_SIZE], rest[|rest| - SIG_SIZE..]))
  }

  // ---------- numbers ----------

  lemma {:induction false} CompactValue(v: nat)
    ensures LeValue(Compact(v)) == v
    ensures |Compact(v)| > 1 ==> Compact(v)[|Compact(v)| - 1] != 0
  {
    if v < 256 {
      LeCons(v, []);
      assert [v] + [] == Compact(v);
    } else {
      CompactValue(v / 256);
      LeCons(v % 256, Compact(v / 256));
    }
  }

  /** A byte string without a zero last byte is the compact form of its value. */
  lemma {:induction false} CompactUnique(b: seq<byte>)
    requires 1 <= |b| && (|b| > 1 ==> b[|b| - 1] != 0)
    ensures Compact(LeValue(b)) == b
  {
    assert b == [b[0]] + b[1..];
    LeCons(b[0], b[1..]);
    if |b| > 1 {
      CompactUnique(b[1..]);
      Positive(b[1..]);
    }
  }

  lemma {:induction false} Positive(b: seq<byte>)
    requires b != [] && b[|b| - 1] != 0
    ensures LeValue(b) > 0
  {
    assert b == [b[0]] + b[1..];
    LeCons(b[0], b[1..]);
    if |b| > 1 {
      Positive(b[1..]);
    }
  }

  lemma {:induction false} CompactLength(v: nat, k: nat)
    requires 1 <= k && v < Pow2(8 * k)
    ensures |Compact(v)| <= k
  {
    if v >= 256 {
      Pow2Of8();
      if k == 1 {
        assert false;
      }
      Pow2Add(8, 8 * (k - 1));
      CompactLength(v / 256, k - 1);
    }
  }

  lemma Bounds()
    ensures Pow2(8) == 256 && Pow2(16) == 0x1_0000 && Pow2(32) == U32 && Pow2(64) == U64
    ensures Pow2(0) == 1 && Pow2(2) == 4 && Pow2(4) == 16
  {
    assert Pow2(0) == 1 && Pow2(2) == 4 && Pow2(4) == 16;
    hide Pow2;
    Pow2Of8();
    Pow2Add(8, 8);
    Pow2Add(16, 16);
    Pow2Add(32, 32);
  }

  lemma {:induction false} LeBytesValue(n: nat, k: nat)
    requires n < Pow2(8 * k)
    ensures LeValue(LeBytes(n, k)) == n
  {
    if k == 0 {
    } else {
      Pow2Of8();
      Pow2Add(8, 8 * (k - 1));
      LeBytesValue(n / 256, k - 1);
      assert LeBytes(n, k)[1..] == LeBytes(n / 256, k - 1);
    }
  }

  lemma LeBelow(b: seq<byte>)
    ensures LeValue(b) < Pow2(8 * |b|)
  {
    Pow2Of8();
    PackedBound(b, 8);
  }

  lemma LeBytesInverse(b: seq<byte>)
    ensures LeBytes(LeValue(b), |b|) == b
  {
    hide Pow2, Packed, LeBytes;
    LeBelow(b);
    LeBytesValue(LeValue(b), |b|);
    BytesInjective(LeBytes(LeValue(b), |b|), b);
  }

  // ---------- reading back what was written ----------

  lemma ReadCompact(v: nat, c: seq<byte>)
    requires v < U64
    ensures ReadUint(Compact(v) + c, |Compact(v)|) == Ok((v, c))
  {
    var b := Compact(v);
    CompactValue(v);
    assert (b + c)[..|b|] == b && (b + c)[|b|..] == c;
    hide LeValue, Compact;
  }

  lemma {:induction false} ReadCompacts(vs: seq<nat>, c: seq<byte>)
    requires forall i :: 0 <= i < |vs| ==> vs[i] < U64
    ensures ReadUints(Compacts(vs) + c, Sizes(vs)) == Ok((vs, c))
  {
    hide LeValue, Compact, ReadUint;
    if vs == [] {
      assert Compacts(vs) + c == c;
    } else {
      ReadCompacts(vs[1..], c);
      ReadCompact(vs[0], Compacts(vs[1..]) + c);
      assert Compacts(vs) + c == Compact(vs[0]) + (Compacts(vs[1..]) + c);
      assert Sizes(vs)[1..] == Sizes(vs[1..]);
      assert vs == [vs[0]] + vs[1..];
    }
  }

  lemma {:induction false} ReadTails(ps: seq<Hash>, epoch: nat, c: seq<byte>)
    requires forall i :: 0 <= i < |ps| ==> ps[i][..4] == Be32(epoch)
    ensures ReadParents(Tails(ps) + c, epoch, |ps|) == Ok((ps, c))
  {
    if ps == [] {
      assert Tails(ps) + c == c;
    } else {
      ReadTails(ps[1..], epoch, c);
      var t := Tails(ps[1..]) + c;
      assert Tails(ps) + c == ps[0][4..] + t;
      assert (ps[0][4..] + t)[..28] == ps[0][4..] && (ps[0][4..] + t)[28..] == t;
      assert ps[0] == Be32(epoch) + ps[0][4..];
      assert ps == [ps[0]] + ps[1..];
    }
  }

  /** The headers fit their bit widths. */
  lemma HeadersFit(e: Event)
    requires Typed(e) && e.version < 16
    ensures Fit(Header3(e), 4) && Fit(Header2(e), 2) && |Header3(e)| == 2 && |Header2(e)| == 7
    ensures Packed(Header3(e), 4) < Pow2(8) && Packed(Header2(e), 2) < Pow2(16)
  {
    Bounds();
    hide Pow2, Packed, Compact;
    CompactLength(e.time, 8);
    forall i | 0 <= i < 6
      ensures |Compact(Fields32(e)[i])| <= 4
    {
      CompactLength(Fields32(e)[i], 4);
    }
    PackedBound(Header3(e), 4);
    PackedBound(Header2(e), 2);
    Pow2Grows(14, 16);
  }

  /** The numbers popped from the headers are those pushed. */
  lemma PopHeaders(e: Event, raw: seq<byte>)
    requires Typed(e) && e.version < 16 && 3 <= |raw|
    requires LeValue(raw[..1]) == Packed(Header3(e), 4) && LeValue(raw[1..3]) == Packed(Header2(e), 2)
    ensures Pops3(raw) == Header3(e) && Pops2(raw) == Header2(e)
  {
    HeadersFit(e);
    hide Pow2, Packed, LeValue, Field, Header3, Header2;
    forall i | 0 <= i < 2
      ensures Pops3(raw)[i] == Header3(e)[i]
    {
      DigitField(Header3(e), 4, i);
    }
    forall i | 0 <= i < 7
      ensures Pops2(raw)[i] == Header2(e)[i]
    {
      DigitField(Header2(e), 2, i);
    }
  }

  /** How the front of an encoding splits up. */
  lemma FrontLayout(e: Event, c: seq<byte>)
    requires Typed(e) && e.version < 16
    ensures var raw := Front(e) + c;
      && 3 <= |raw|
      && LeValue(raw[..1]) == Packed(Header3(e), 4) && LeValue(raw[1..3]) == Packed(Header2(e), 2)
      && raw[3..] == Compacts([e.time] + Fields32(e)) + (Tails(e.parents) + c)
  {
    hide Pow2, Packed, LeValue, Compact, LeBytes, Header3, Header2, Tails, Compacts, Fields32;
    var h3, h2 := Packed(Header3(e), 4), Packed(Header2(e), 2);
    HeadersFit(e);
    LeBytesValue(h3, 1);
    LeBytesValue(h2, 2);
    var raw := Front(e) + c;
    CompactsCons(e.time, Fields32(e));
    assert raw[..1] == LeBytes(h3, 1) && raw[1..3] == LeBytes(h2, 2);
  }

  lemma NoNumbers()
    ensures Compacts([]) == [] && Sizes([]) == []
  {
  }

  lemma CompactsCons(v: nat, vs: seq<nat>)
    ensures Compacts([v] + vs) == Compact(v) + Compacts(vs)
    ensures Sizes([v] + vs) == [|Compact(v)| - 1] + Sizes(vs)
  {
    hide Compact;
    assert ([v] + vs)[1..] == vs;
  }

  lemma SizesOfAll(e: Event)
    ensures Sizes([e.time] + Fields32(e)) == [Header3(e)[1]] + Header2(e)[..6]
    ensures Header3(e)[0] == e.version as nat && Header2(e)[6] == Flag(e.isRoot)
  {
    hide Compact;
  }

  /** Decoding the front of an encoding gives its numbers and parents, and leaves what follows. */
  lemma FrontRoundTrip(e: Event, c: seq<byte>)
    requires Encodable(e)
    ensures 3 <= |Front(e) + c| && Pops2(Front(e) + c)[6] == Flag(e.isRoot)
    ensures DecodeFront(Front(e) + c) == Ok(([e.time] + Fields32(e), e.parents, c))
  {
    hide Front, Pow2, Packed, LeValue, Compact, Compacts, Field, Header3, Header2, Fields32, Sizes, ReadUints, Tails, ReadParents, Pops2, Pops3;
    var raw, all := Front(e) + c, [e.time] + Fields32(e);
    FrontLayout(e, c);
    SizesOfAll(e);
    AllTyped(e);
    PopHeaders(e, raw);
    ReadCompacts(all, Tails(e.parents) + c);
    ReadTails(e.parents, e.epoch, c);
  }

  lemma AllTyped(e: Event)
    requires Typed(e)
    ensures var all := [e.time] + Fields32(e);
      |all| == 7 && all[1] == e.epoch && all[6] == |e.parents| && forall i :: 0 <= i < 7 ==> all[i] < U64
  {
  }

  /** Round trip: an encodable event decodes to itself. */
  lemma RoundTrip(e: Event)
    requires Encodable(e)
    ensures Decode(Encode(e)) == Ok(e)
  {
    hide Front, DecodeFront, Pops2, Pops3;
    var c := e.payload + e.sig;
    FrontRoundTrip(e, c);
    assert Encode(e) == Front(e) + c;
    assert c[..|c| - SIG_SIZE] == e.payload && c[|c| - SIG_SIZE..] == e.sig;
  }
}
