/** What the event format promises beyond the round trip: the bytes that are signed determine the
    event, truncation is detected, and exactly which accepted byte strings are canonical. */
module EventLaws {
  import opened Numbers
  import opened EventCodec

  // ---------- the signed bytes ----------

  /** The bytes that are hashed and signed: the encoding without the signature. */
  function SignedBytes(e: Event): seq<byte> {
    Encode(e)[..|Encode(e)| - SIG_SIZE]
  }

  lemma SignedIs(e: Event)
    ensures SignedBytes(e) == Front(e) + e.payload
  {
    hide Front;
    assert Encode(e) == (Front(e) + e.payload) + e.sig;
  }

  /** Signing does not change what is signed. */
  lemma SignedIgnoresSig(e: Event, sig: Signature)
    ensures SignedBytes(e.(sig := sig)) == SignedBytes(e)
  {
    SignedIs(e);
    SignedIs(e.(sig := sig));
  }

  /** The signed bytes determine every field but the signature. */
  lemma SignedInjective(a: Event, b: Event)
    requires Encodable(a) && Encodable(b)
    requires SignedBytes(a) == SignedBytes(b)
    ensures a.(sig := b.sig) == b
  {
    hide Front, Decode;
    var c := a.(sig := b.sig);
    SignedIs(a);
    SignedIs(b);
    assert Front(c) == Front(a) by {
      SignedIs(c);
      SignedIgnoresSig(a, b.sig);
      FrontIgnoresSig(a, b.sig);
    }
    assert Encode(c) == SignedBytes(a) + b.sig && Encode(b) == SignedBytes(b) + b.sig;
    RoundTrip(c);
    RoundTrip(b);
  }

  /** For any events of version 0, equal signed bytes mean equality up to the signature and the epochs of
      the parents. */
  lemma SignedIff(a: Event, b: Event)
    requires Typed(a) && a.version == 0 && Typed(b) && b.version == 0
    ensures SignedBytes(a) == SignedBytes(b) <==> Rehomed(a).(sig := b.sig) == Rehomed(b)
  {
    hide Encode;
    RehomedEncodes(a);
    RehomedEncodes(b);
    assert SignedBytes(a) == SignedBytes(Rehomed(a)) && SignedBytes(b) == SignedBytes(Rehomed(b));
    if SignedBytes(a) == SignedBytes(b) {
      SignedInjective(Rehomed(a), Rehomed(b));
    }
    if Rehomed(a).(sig := b.sig) == Rehomed(b) {
      SignedIgnoresSig(Rehomed(a), b.sig);
    }
  }

  lemma FrontIgnoresSig(e: Event, sig: Signature)
    ensures Front(e.(sig := sig)) == Front(e)
  {
    hide Pow2, Packed, LeBytes, Compact, Compacts, Tails, Sizes;
  }

  // ---------- truncation ----------

  lemma ReadUintExtend(b: seq<byte>, c: seq<byte>, n: nat)
    requires 1 <= n && ReadUint(b, n).Ok?
    ensures ReadUint(b + c, n) == Ok((ReadUint(b, n).value.0, ReadUint(b, n).value.1 + c))
  {
    hide LeValue;
    assert (b + c)[..n] == b[..n] && (b + c)[n..] == b[n..] + c;
  }

  lemma {:induction false} ReadUintsExtend(b: seq<byte>, c: seq<byte>, sizes: seq<nat>)
    requires ReadUints(b, sizes).Ok?
    ensures ReadUints(b + c, sizes) == Ok((ReadUints(b, sizes).value.0, ReadUints(b, sizes).value.1 + c))
    decreases sizes
  {
    hide ReadUint;
    if sizes == [] {
    } else {
      ReadUintExtend(b, c, sizes[0] + 1);
      ReadUintsExtend(ReadUint(b, sizes[0] + 1).value.1, c, sizes[1..]);
    }
  }

  lemma {:induction false} ReadParentsExtend(b: seq<byte>, c: seq<byte>, epoch: nat, count: nat)
    requires ReadParents(b, epoch, count).Ok?
    ensures ReadParents(b + c, epoch, count) ==
      Ok((ReadParents(b, epoch, count).value.0, ReadParents(b, epoch, count).value.1 + c))
    decreases count
  {
    if count == 0 {
    } else {
      assert (b + c)[..28] == b[..28] && (b + c)[28..] == b[28..] + c;
      ReadParentsExtend(b[28..], c, epoch, count - 1);
    }
  }

  /** More bytes after an accepted front only lengthen what is left. */
  lemma FrontExtend(raw: seq<byte>, c: seq<byte>)
    requires DecodeFront(raw).Ok?
    ensures DecodeFront(raw + c).Ok? && DecodeFront(raw + c).value.2 == DecodeFront(raw).value.2 + c
  {
    hide Digits, LeValue, ReadUints, ReadParents;
    assert (raw + c)[..1] == raw[..1] && (raw + c)[1..3] == raw[1..3] && (raw + c)[3..] == raw[3..] + c;
    var sizes := [Pops3(raw)[1]] + Pops2(raw)[..6];
    ReadUintsExtend(raw[3..], c, sizes);
    var (vs, rest) := ReadUints(raw[3..], sizes).value;
    ReadParentsExtend(rest, c, vs[1] % U32, vs[6] % U32);
  }

  function MovedTo(epoch: nat, id: Hash): Hash {
    Be32(epoch) + id[4..]
  }

  /** The event with its parents moved to its own epoch, which is what the format can tell of them. */
  function Rehomed(e: Event): Event {
    e.(parents := seq<Hash>(|e.parents|, i requires 0 <= i < |e.parents| => MovedTo(e.epoch, e.parents[i])))
  }

  lemma {:induction false} SameTails(ps: seq<Hash>, qs: seq<Hash>)
    requires |ps| == |qs| && forall i :: 0 <= i < |ps| ==> ps[i][4..] == qs[i][4..]
    ensures Tails(ps) == Tails(qs)
  {
    if ps == [] {
    } else {
      SameTails(ps[1..], qs[1..]);
    }
  }

  lemma RehomedEncodes(e: Event)
    ensures Encode(Rehomed(e)) == Encode(e)
    ensures Typed(e) && e.version == 0 ==> Encodable(Rehomed(e))
    ensures Rehomed(e) == e <==> forall i :: 0 <= i < |e.parents| ==> e.parents[i][..4] == Be32(e.epoch)
  {
    hide Pow2, Packed, LeBytes, Compact, Compacts, Tails, Sizes, Be32;
    SameTails(e.parents, Rehomed(e).parents);
    forall i | 0 <= i < |e.parents|
      ensures e.parents[i] == Rehomed(e).parents[i] <==> e.parents[i][..4] == Be32(e.epoch)
    {
      assert e.parents[i] == e.parents[i][..4] + e.parents[i][4..];
    }
    assert (forall i :: 0 <= i < |e.parents| ==> e.parents[i] == Rehomed(e).parents[i]) ==> e.parents == Rehomed(e).parents;
  }

  /** Decoding any encoding of version 0: everything comes back, but parents move to the event's epoch. */
  lemma RoundTripOfAny(e: Event)
    requires Typed(e) && e.version == 0
    ensures Decode(Encode(e)) == Ok(Rehomed(e))
  {
    hide Encode, Decode;
    RehomedEncodes(e);
    RoundTrip(Rehomed(e));
  }

  /** A truncated encoding is accepted exactly when at most |payload| bytes are missing: anything
      shorter is an error, and anything longer reads payload bytes as the signature. */
  lemma TruncationDetected(e: Event, m: nat)
    requires Typed(e) && e.version == 0 && m <= |Encode(e)|
    ensures Decode(Encode(e)[..m]).Ok? <==> |Encode(e)| - m <= |e.payload|
  {
    hide Encode, Decode;
    RehomedEncodes(e);
    CutIff(Rehomed(e), m);
  }

  lemma CutIff(e: Event, m: nat)
    requires Encodable(e) && m <= |Encode(e)|
    ensures Decode(Encode(e)[..m]).Ok? <==> |Encode(e)| - m <= |e.payload|
  {
    hide Front, DecodeFront;
    var raw, c := Encode(e), e.payload + e.sig;
    assert raw == Front(e) + c;
    FrontRoundTrip(e, c);
    if |raw| - m <= |e.payload| {
      var cut := c[..m - |Front(e)|];
      assert raw[..m] == Front(e) + cut;
      FrontRoundTrip(e, cut);
    } else if DecodeFront(raw[..m]).Ok? {
      FrontExtend(raw[..m], raw[m..]);
      assert raw[..m] + raw[m..] == raw;
    }
  }

  // ---------- canonical encodings ----------

  /** The header bits that decoding does not pin down: a time of more than eight bytes, a root flag
      above one, and the two unused bits. */
  predicate CanonicalHeader(raw: seq<byte>)
    requires 3 <= |raw|
  {
    Pops3(raw)[1] <= 7 && Pops2(raw)[6] <= 1 && Field(LeValue(raw[1..3]), 14, 2) == 0
  }

  lemma ReadUintInverse(b: seq<byte>, n: nat)
    requires 1 <= n <= 8 && ReadUint(b, n).Ok?
    ensures var (v, rest) := ReadUint(b, n).value;
      v < Pow2(8 * n) && b == Compact(v) + rest && |Compact(v)| == n
  {
    Bounds();
    hide Pow2, Packed, Compact;
    var x := b[..n];
    PackedBound(x, 8);
    Pow2Grows(8 * n, 64);
    CompactUnique(x);
    assert b == x + b[n..];
  }

  /** What was read is the compact form of the numbers returned. */
  lemma {:induction false} ReadUintsInverse(b: seq<byte>, sizes: seq<nat>)
    requires ReadUints(b, sizes).Ok? && forall i :: 0 <= i < |sizes| ==> sizes[i] <= 7
    ensures var (vs, rest) := ReadUints(b, sizes).value;
      && b == Compacts(vs) + rest && Sizes(vs) == sizes
      && forall i :: 0 <= i < |vs| ==> vs[i] < Pow2(8 * sizes[i] + 8)
    decreases sizes
  {
    hide Pow2, Compact, ReadUint, Compacts, Sizes;
    NoNumbers();
    if sizes == [] {
      assert b == Compacts([]) + b;
    } else {
      ReadUintInverse(b, sizes[0] + 1);
      var (v, rest) := ReadUint(b, sizes[0] + 1).value;
      ReadUintsInverse(rest, sizes[1..]);
      var (vs, rest') := ReadUints(rest, sizes[1..]).value;
      CompactsCons(v, vs);
      assert ([v] + vs)[1..] == vs && sizes == [sizes[0]] + sizes[1..];
    }
  }

  lemma {:induction false} ReadParentsInverse(b: seq<byte>, epoch: nat, count: nat)
    requires ReadParents(b, epoch, count).Ok?
    ensures var (ps, rest) := ReadParents(b, epoch, count).value;
      && b == Tails(ps) + rest && |ps| == count
      && forall i :: 0 <= i < |ps| ==> ps[i][..4] == Be32(epoch)
    decreases count
  {
    if count == 0 {
    } else {
      ReadParentsInverse(b[28..], epoch, count - 1);
      var (ps, rest) := ReadParents(b[28..], epoch, count - 1).value;
      var p: Hash := Be32(epoch) + b[..28];
      assert ([p] + ps)[1..] == ps && p[4..] == b[..28];
      assert b == b[..28] + b[28..];
    }
  }

  lemma HeaderValues(raw: seq<byte>)
    requires 3 <= |raw|
    ensures LeValue(raw[..1]) == Packed(Pops3(raw), 4)
    ensures Field(LeValue(raw[1..3]), 14, 2) == 0 ==> LeValue(raw[1..3]) == Packed(Pops2(raw), 2)
  {
    Bounds();
    hide Pow2, Packed, LeValue, Field, Digits;
    var n3, n2 := LeValue(raw[..1]), LeValue(raw[1..3]);
    LeBelow(raw[..1]);
    LeBelow(raw[1..3]);
    DigitsPack(n3, 4, 2);
    FieldAll(n3, 8);
    DigitsPack(n2, 2, 7);
    FieldAll(n2, 16);
    FieldSplit(n2, 0, 14, 2);
    assert Pow2(14) * 0 == 0;
  }

  /** Encodings have canonical headers. */
  lemma EncodingIsCanonical(e: Event)
    requires Typed(e) && e.version < 16
    ensures 3 <= |Encode(e)| && CanonicalHeader(Encode(e))
  {
    Bounds();
    hide Pow2, Packed, LeValue, Compact, Field, Digits, Front, Header3, Header2;
    var raw := Encode(e);
    assert raw == Front(e) + (e.payload + e.sig);
    FrontLayout(e, e.payload + e.sig);
    PopHeaders(e, raw);
    HeadersFit(e);
    SizesOfAll(e);
    PackedBound(Header2(e), 2);
    FieldBelow(Packed(Header2(e), 2), 14, 0, 2);
    CompactLength(e.time, 8);
    SizesHead(e);
  }

  lemma SizesHead(e: Event)
    ensures Header3(e)[1] == |Compact(e.time)| - 1
  {
  }
}
