/** Model of `inter/event.go`: the mutable event with its caches, and the events built from it.
    sha256 is an arbitrary function from byte strings to hashes. */
module EventBuild {
  import opened Numbers
  import opened EventCodec
  import opened EventForms
  import opened EventLaws
  import EventSerializer
  import opened Options

  /** An immutable event with its identifier and caches. */
  datatype Built = Built(event: Event, id: Hash, hashToSign: Hash, size: nat)

  /** The identifier: epoch and Lamport time, big-endian, and 24 bytes of the hash. */
  function EventId(epoch: nat, lamport: nat, hash: Hash): Hash {
    Be32(epoch) + Be32(lamport) + hash[..24]
  }

  /** The number that bytes spell, the most significant first. */
  function BigEndian(b: seq<byte>): nat {
    if b == [] then 0 else 256 * BigEndian(b[..|b| - 1]) + b[|b| - 1]
  }

  lemma BeValue(n: nat)
    requires n < U32
    ensures n == 0x100_0000 * (Be32(n)[0] as int) + 0x1_0000 * (Be32(n)[1] as int) + 256 * (Be32(n)[2] as int) + (Be32(n)[3] as int)
  {
    assert n / 0x100_0000 < 256;
    assert n / 0x1_0000 == 256 * (n / 0x100_0000) + n / 0x1_0000 % 256;
    assert n / 256 == 256 * (n / 0x1_0000) + n / 256 % 256;
  }

  lemma BeSpells(n: nat)
    requires n < U32
    ensures BigEndian(Be32(n)) == n
  {
    BeValue(n);
    var b := Be32(n);
    assert BigEndian(b[..1]) == b[0];
    assert b[..2][..1] == b[..1] && BigEndian(b[..2]) == 256 * BigEndian(b[..1]) + b[1];
    assert b[..3][..2] == b[..2] && BigEndian(b[..3]) == 256 * BigEndian(b[..2]) + b[2];
  }

  /** An identifier spells the epoch in its first four bytes and the Lamport time in the next four, and ends
      in the first 24 bytes of the hash. */
  ghost predicate IdOf(id: Hash, epoch: nat, lamport: nat, hash: Hash) {
    BigEndian(id[..4]) == epoch && BigEndian(id[4..8]) == lamport && id[8..] == hash[..24]
  }

  lemma IdParts(epoch: nat, lamport: nat, hash: Hash)
    requires epoch < U32 && lamport < U32
    ensures IdOf(EventId(epoch, lamport, hash), epoch, lamport, hash)
  {
    hide Be32, BigEndian;
    BeSpells(epoch);
    BeSpells(lamport);
    var id := EventId(epoch, lamport, hash);
    assert id[..4] == Be32(epoch) && id[4..8] == Be32(lamport) && id[8..] == hash[..24];
  }

  /** What an event is built into when nothing is cached. */
  function Fresh(sha: seq<byte> -> Hash, e: Event): Built {
    Built(e, EventId(e.epoch, e.lamport, sha(SignedBytes(e))), sha(SignedBytes(e)), |Encode(e)|)
  }

  class MutableEvent {
    const sha: seq<byte> -> Hash
    var event: Event
    var cachedSize: nat
    var cachedHash: Option<Hash>

    /** The caches, where filled, are those of the current fields. */
    ghost predicate Coherent()
      reads this
    {
      && (cachedHash.Some? ==> cachedHash.value == sha(SignedBytes(event)))
      && (cachedSize != 0 ==> cachedSize == |Encode(event)|)
    }

    constructor (sha: seq<byte> -> Hash, event: Event)
      ensures Coherent() && this.sha == sha && this.event == event
      ensures cachedSize == 0 && cachedHash == None
    {
      this.sha, this.event, this.cachedSize, this.cachedHash := sha, event, 0, None;
    }

    /** `SetSig` keeps the caches right: neither the hash nor the size depends on the signature. */
    method SetSig(sig: Signature)
      modifies this
      ensures event == old(event).(sig := sig)
      ensures cachedSize == old(cachedSize) && cachedHash == old(cachedHash)
      ensures old(Coherent()) ==> Coherent()
    {
      hide Front;
      SignedIgnoresSig(event, sig);
      FrontIgnoresSig(event, sig);
      event := event.(sig := sig);
    }

    method FillCaches(b: seq<byte>)
      requires SIG_SIZE <= |b|
      modifies this
      ensures event == old(event) && cachedSize == |b|
      ensures cachedHash == Some(sha(b[..|b| - SIG_SIZE]))
    {
      cachedSize := |b|;
      cachedHash := Some(sha(b[..|b| - SIG_SIZE]));
    }

    /** `HashToSign` of a mutable event: always computed afresh. */
    method HashToSign() returns (h: Hash)
      requires Typed(event) && event.version < 16
      ensures h == sha(SignedBytes(event))
    {
      var b := EventSerializer.MarshalBinary(event);
      h := sha(b[..|b| - SIG_SIZE]);
    }

    /** `Build`: with right caches it is the freshly built event. */
    method Build() returns (r: Built)
      requires Typed(event) && event.version < 16
      ensures r.event == event
      ensures r.id == EventId(event.epoch, event.lamport, if cachedHash.Some? then cachedHash.value else sha(SignedBytes(event)))
      ensures if cachedHash.Some? && cachedSize != 0 then r.hashToSign == cachedHash.value && r.size == cachedSize
              else r.hashToSign == sha(SignedBytes(event)) && r.size == |Encode(event)|
      ensures IdOf(r.id, event.epoch, event.lamport, if cachedHash.Some? then cachedHash.value else sha(SignedBytes(event)))
      ensures Coherent() ==> r == Fresh(sha, event) && r.id[8..] == r.hashToSign[..24]
    {
      hide Front, IdOf;
      IdParts(event.epoch, event.lamport, if cachedHash.Some? then cachedHash.value else sha(SignedBytes(event)));
      var id: Hash;
      if cachedHash.Some? {
        id := EventId(event.epoch, event.lamport, cachedHash.value);
      } else {
        var h := HashToSign();
        id := EventId(event.epoch, event.lamport, h);
      }
      if cachedSize != 0 && cachedHash.Some? {
        return Built(event, id, cachedHash.value, cachedSize);
      }
      var b := EventSerializer.MarshalBinary(event);
      r := Built(event, id, sha(b[..|b| - SIG_SIZE]), |b|);
    }

    /** `UnmarshalBinary` fills the caches from the bytes read; on an error nothing changes. */
    method UnmarshalBinary(raw: array<byte>) returns (r: Result<Event>)
      modifies this
      ensures r == Decode(raw[..])
      ensures r.Ok? ==> event == r.value && cachedSize == raw.Length >= SIG_SIZE
      ensures r.Ok? ==> cachedHash == Some(sha(raw[..raw.Length - SIG_SIZE]))
      ensures r.Err? ==> event == old(event) && cachedSize == old(cachedSize) && cachedHash == old(cachedHash)
      ensures r.Ok? && CanonicalHeader(raw[..]) ==> Coherent()
    {
      hide Encode, Decode, CanonicalHeader, SignedBytes;
      r := EventSerializer.UnmarshalBinary(raw);
      if r.Ok? {
        AcceptedLayout(raw[..]);
        event := r.value;
        assert raw[..][..raw.Length - SIG_SIZE] == raw[..raw.Length - SIG_SIZE];
        FillCaches(raw[..]);
        CachesIff(raw[..]);
        if CanonicalHeader(raw[..]) {
          CanonicalIff(raw[..]);
        }
      }
    }
  }

  /** The signature of an accepted byte string is its last 64 bytes. */
  lemma AcceptedLayout(raw: seq<byte>)
    requires Decode(raw).Ok?
    ensures SIG_SIZE <= |raw| && Decode(raw).value.sig == raw[|raw| - SIG_SIZE..]
  {
    hide Decode, LeValue, Pops2, Pops3, Field, Digits3, Digits2, Packed, LeBytes, Compacts, Tails, Encodable, FormOf;
    AcceptedIsSpelling(raw);
  }

  /** The bytes whose hash the decoder caches are the signed bytes of the decoded event exactly when
      the header is canonical. */
  lemma CachesIff(raw: seq<byte>)
    requires Decode(raw).Ok?
    ensures SIG_SIZE <= |raw|
    ensures raw[..|raw| - SIG_SIZE] == SignedBytes(Decode(raw).value) <==> CanonicalHeader(raw)
  {
    hide Front, DecodeFront, CanonicalHeader;
    var e := Decode(raw).value;
    AcceptedLayout(raw);
    CanonicalIff(raw);
    SignedIs(e);
    assert Encode(e) == SignedBytes(e) + e.sig;
    assert raw == raw[..|raw| - SIG_SIZE] + raw[|raw| - SIG_SIZE..];
  }

  /** In any form but the encoder's, the byte string decodes to the event and leaves a hash of other bytes
      than the signed ones in the cache. */
  lemma WrongCaches(e: Event, x: Form)
    requires Encodable(e) && FormOf(e, x) && x != Canonical(e)
    ensures var raw := Spell(e, x);
      && Decode(raw) == Ok(e) && SIG_SIZE <= |raw|
      && raw[..|raw| - SIG_SIZE] != SignedBytes(e) && raw[|raw| - SIG_SIZE..] == e.sig
  {
    hide Encode, Decode, Spell, Compact, LeValue, CanonicalHeader;
    NonCanonicalIff(e, x);
    CanonicalIff(Spell(e, x));
    CachesIff(Spell(e, x));
    AcceptedLayout(Spell(e, x));
  }

  /** Two built events share an identifier if and only if epoch, Lamport time and the first 24 bytes of their
      hashes agree. */
  lemma SameIdIff(sha: seq<byte> -> Hash, a: Event, b: Event)
    requires Typed(a) && Typed(b)
    ensures Fresh(sha, a).id == Fresh(sha, b).id <==>
      a.epoch == b.epoch && a.lamport == b.lamport && sha(SignedBytes(a))[..24] == sha(SignedBytes(b))[..24]
  {
    hide BigEndian, Be32, SignedBytes, Encode;
    IdParts(a.epoch, a.lamport, sha(SignedBytes(a)));
    IdParts(b.epoch, b.lamport, sha(SignedBytes(b)));
  }

  /** So, for a hash whose first 24 bytes do not collide on the two events, the identifier is that of the
      signed fields: it is shared if and only if the events agree up to the signature and the epochs of
      their parents. */
  lemma SameIdSameEvent(sha: seq<byte> -> Hash, a: Event, b: Event)
    requires Typed(a) && a.version == 0 && Typed(b) && b.version == 0
    requires sha(SignedBytes(a))[..24] == sha(SignedBytes(b))[..24] ==> SignedBytes(a) == SignedBytes(b)
    ensures Fresh(sha, a).id == Fresh(sha, b).id <==> Rehomed(a).(sig := b.sig) == Rehomed(b)
  {
    hide SignedBytes, Encode, Fresh;
    SameIdIff(sha, a, b);
    SignedIff(a, b);
  }

  /** Building after any setters: the caches of the fields as they were when they were filled are right if
      and only if the hash and the length of the encoding are still the same. */
  method BuildAfterSetters(sha: seq<byte> -> Hash, was: Event, now: Event) returns (r: Built)
    requires Typed(was) && was.version < 16 && Typed(now) && now.version < 16
    ensures r.event == now
    ensures r == Fresh(sha, now) <==> sha(SignedBytes(was)) == sha(SignedBytes(now)) && |Encode(was)| == |Encode(now)|
  {
    hide Front;
    var m := new MutableEvent(sha, was);
    var b := EventSerializer.MarshalBinary(was);
    m.FillCaches(b);
    m.event := now;
    r := m.Build();
  }

  /** For a hash that does not collide on the two events: stale caches are right if and only if nothing but
      the signature, or the epochs of the parents, changed. */
  lemma StaleIff(sha: seq<byte> -> Hash, was: Event, now: Event)
    requires Typed(was) && was.version == 0 && Typed(now) && now.version == 0
    requires sha(SignedBytes(was)) == sha(SignedBytes(now)) ==> SignedBytes(was) == SignedBytes(now)
    ensures (sha(SignedBytes(was)) == sha(SignedBytes(now)) && |Encode(was)| == |Encode(now)|)
        <==> Rehomed(was).(sig := now.sig) == Rehomed(now)
  {
    hide Front;
    SignedIff(was, now);
    SignedIs(was);
    SignedIs(now);
  }

  /** Sending an event: the receiver, who builds it from the bytes with cached hash and size, gets the
      same identifier, hash and size as the sender, who computed them. */
  method Transmit(sha: seq<byte> -> Hash, e: Event) returns (sent: Built, received: Built)
    requires Encodable(e)
    ensures sent == received == Fresh(sha, e)
  {
    hide Encode, Decode, CanonicalHeader;
    var a := new MutableEvent(sha, e);
    sent := a.Build();
    var wire := EventSerializer.MarshalBinary(e);
    var raw := new byte[|wire|](i requires 0 <= i < |wire| => wire[i]);
    assert raw[..] == wire;
    RoundTrip(e);
    EncodingIsCanonical(e);
    var b := new MutableEvent(sha, e.(payload := []));
    var r := b.UnmarshalBinary(raw);
    received := b.Build();
  }

  /** Signing: the signed hash is the one the built event carries, and the signature does not change
      the identifier. */
  method Sign(sha: seq<byte> -> Hash, e: Event, sign: Hash -> Signature) returns (unsigned: Built, signed: Built)
    requires Typed(e) && e.version < 16
    ensures signed.event == e.(sig := sign(signed.hashToSign))
    ensures signed.hashToSign == unsigned.hashToSign && signed.id == unsigned.id && signed.size == unsigned.size
    ensures signed == Fresh(sha, signed.event)
  {
    hide Encode, SignedBytes, Front;
    var m := new MutableEvent(sha, e);
    unsigned := m.Build();
    var h := m.HashToSign();
    SignedIgnoresSig(e, sign(h));
    SizeIgnoresSig(e, sign(h));
    m.SetSig(sign(h));
    signed := m.Build();
  }

  lemma SizeIgnoresSig(e: Event, sig: Signature)
    ensures |Encode(e.(sig := sig))| == |Encode(e)|
  {
    hide Front;
    FrontIgnoresSig(e, sig);
  }
}
