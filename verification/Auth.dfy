/**
 The bond's wire codec: the plain v2 frame, the authenticated v3 frame, and the rule that
 decides, rung by rung, which of the two an endpoint emits and accepts.

 The MAC is a parameter: any function from a key and a message to eight bytes.
 */
module Auth {
  import opened ByteStrings

  type Key = seq<Byte>
  /** HMAC-SHA256 truncated to MAC_LEN bytes. */
  type Tag = t: seq<Byte> | |t| == 8 witness [0, 0, 0, 0, 0, 0, 0, 0]
  type Mac = (Key, seq<Byte>) -> Tag

  const MAGIC: seq<Byte> := [0x50, 0x42]
  const VERSION: Byte := 2
  const VERSION_V3: Byte := 3
  const HEADER_LEN := 17
  const SIGNED_LEN := 21
  const HEADER_LEN_V3 := 29

  datatype Frame = Frame(sequence: int, pathId: int, payload: seq<Byte>, flags: int, epoch: int, clientId: int)

  /** `Malformed` is DatapathError, `Unauthenticated` its subclass UnauthenticatedError,
      `Unencodable` the struct.error of a field that does not fit its width. */
  datatype Error = Malformed | Unauthenticated | Unencodable

  datatype Result<+T> = Ok(value: T) | Err(error: Error)

  datatype Level = Off | Observe | Sign | Require {
    /** This rung puts v3 bytes on the wire. */
    predicate Signs() { Sign? || Require? }
    /** This rung checks the MAC of an arriving v3 frame. */
    predicate Verifies() { !Off? }
    /** An unauthenticated v2 frame is still accepted. */
    predicate AcceptsLegacy() { !Require? }

    function Rung(): nat {
      match this case Off => 0 case Observe => 1 case Sign => 2 case Require => 3
    }
  }

  datatype Identity = Identity(clientId: int, key: Key, previousKey: Option<Key>)

  /** Every header field fits the width the wire gives it. */
  predicate Encodable(f: Frame) {
    Fits(f.flags, 1) && Fits(f.pathId, 1) && Fits(f.sequence, 8) && Fits(f.epoch, 4)
  }

  // ---------------------------------------------------------------- v2

  function PackV2(f: Frame): Result<seq<Byte>> {
    if !(0 <= f.sequence < 0x1_0000_0000_0000_0000) || !(0 <= f.pathId <= 255) then
      Err(Malformed)
    else if !Fits(f.flags, 1) || !Fits(f.epoch, 4) then
      Err(Unencodable)
    else
      Pow256Values();
      Ok(MAGIC + [VERSION, f.flags, f.pathId] + BigEndian(f.sequence, 8) + BigEndian(f.epoch, 4) + f.payload)
  }

  function UnpackV2(raw: seq<Byte>): Result<Frame> {
    if |raw| < HEADER_LEN then Err(Malformed)
    else if raw[..2] != MAGIC then Err(Malformed)
    else if raw[2] != VERSION then Err(Malformed)
    else
      Ok(Frame(FromBigEndian(raw[5..13]), raw[4], raw[HEADER_LEN..], raw[3], FromBigEndian(raw[13..17]), 0))
  }

  // ---------------------------------------------------------------- v3

  function SignedHeader(f: Frame, clientId: int): (s: seq<Byte>)
    requires Encodable(f) && Fits(clientId, 4)
    ensures |s| == SIGNED_LEN
  {
    Pow256Values();
    MAGIC + [VERSION_V3, f.flags, f.pathId] + BigEndian(f.sequence, 8) + BigEndian(f.epoch, 4) + BigEndian(clientId, 4)
  }

  function PackAs(mac: Mac, f: Frame, id: Identity): Result<seq<Byte>> {
    if !Encodable(f) || !Fits(id.clientId, 4) then
      Err(Unencodable)
    else
      var signed := SignedHeader(f, id.clientId);
      Ok(signed + mac(id.key, signed + f.payload) + f.payload)
  }

  function UnpackAs(mac: Mac, raw: seq<Byte>, id: Identity): Result<Frame> {
    if |raw| < HEADER_LEN_V3 then Err(Malformed)
    else if raw[..2] != MAGIC then Err(Malformed)
    else if raw[2] != VERSION_V3 then Err(Unauthenticated)
    else if FromBigEndian(raw[17..21]) != id.clientId then Err(Unauthenticated)
    else
      var signed, got, payload := raw[..SIGNED_LEN], raw[SIGNED_LEN..HEADER_LEN_V3], raw[HEADER_LEN_V3..];
      var verified := mac(id.key, signed + payload) == got;
      var verifiedOld := !verified && id.previousKey.Some? && mac(id.previousKey.value, signed + payload) == got;
      if !verified && !verifiedOld then Err(Unauthenticated)
      else Ok(Frame(FromBigEndian(raw[5..13]), raw[4], payload, raw[3], FromBigEndian(raw[13..17]), id.clientId))
  }

  // ---------------------------------------------------------------- the rung decides

  function PackAuth(mac: Mac, f: Frame, id: Option<Identity>, level: Level): Result<seq<Byte>> {
    if id.None? || !level.Signs() then PackV2(f) else PackAs(mac, f, id.value)
  }

  predicate MarkedV3(raw: seq<Byte>) {
    |raw| >= 3 && raw[..2] == MAGIC && raw[2] == VERSION_V3
  }

  /** Total on every byte string: what it does not accept it refuses with a DatapathError, never with a
      failure that would escape the receive loop. */
  function UnpackAuth(mac: Mac, raw: seq<Byte>, id: Option<Identity>, level: Level): (r: Result<(Frame, bool)>)
    ensures r.Err? ==> r.error != Unencodable
    ensures |raw| < HEADER_LEN ==> r == Err(Malformed)
  {
    if id.None? || !level.Verifies() then
      match UnpackV2(raw) case Ok(f) => Ok((f, false)) case Err(e) => Err(e)
    else if MarkedV3(raw) then
      match UnpackAs(mac, raw, id.value) case Ok(f) => Ok((f, true)) case Err(e) => Err(e)
    else
      match UnpackV2(raw)
      case Err(e) => Err(e)
      case Ok(f) => if level.AcceptsLegacy() then Ok((f, false)) else Err(Unauthenticated)
  }

  // ---------------------------------------------------------------- what the codec promises

  /** The one datagram that carries `f` in plain v2. */
  ghost predicate IsPlain(raw: seq<Byte>, f: Frame) {
    Encodable(f) && f.clientId == 0 && PackV2(f) == Ok(raw)
  }

  /** The one datagram that carries `f`, client id included, sealed under `key`. */
  ghost predicate IsSealed(mac: Mac, raw: seq<Byte>, f: Frame, key: Key) {
    Encodable(f) && Fits(f.clientId, 4) && PackAs(mac, f, Identity(f.clientId, key, None)) == Ok(raw)
  }

  /** `raw` is `f` sealed under a key the identity accepts, by the peer it expects. */
  ghost predicate IsSealedFor(mac: Mac, raw: seq<Byte>, f: Frame, id: Identity) {
    f.clientId == id.clientId &&
    (IsSealed(mac, raw, f, id.key) || (id.previousKey.Some? && IsSealed(mac, raw, f, id.previousKey.value)))
  }

  /** Where the v2 layout puts each field. */
  lemma PlainSlices(raw: seq<Byte>, f: Frame)
    requires IsPlain(raw, f)
    ensures |raw| == HEADER_LEN + |f.payload| && raw[..2] == MAGIC && raw[2] == VERSION && raw[3] == f.flags && raw[4] == f.pathId
    ensures FromBigEndian(raw[5..13]) == f.sequence && FromBigEndian(raw[13..17]) == f.epoch && raw[17..] == f.payload
  {
    Pow256Values();
    BigEndianRoundTrip(f.sequence, 8);
    BigEndianRoundTrip(f.epoch, 4);
    assert raw[..2] == MAGIC;
    assert raw[5..13] == BigEndian(f.sequence, 8);
    assert raw[13..17] == BigEndian(f.epoch, 4);
    assert raw[17..] == f.payload;
  }

  lemma PlainPieces(raw: seq<Byte>)
    requires |raw| >= HEADER_LEN
    ensures raw[..2] + [raw[2], raw[3], raw[4]] + raw[5..13] + raw[13..17] + raw[17..] == raw
  {
  }

  /** The plain reader accepts exactly the images of the plain writer, and inverts it. */
  lemma PlainExactly(raw: seq<Byte>, f: Frame)
    ensures UnpackV2(raw) == Ok(f) <==> IsPlain(raw, f)
  {
    hide BigEndian, FromBigEndian;
    Pow256Values();
    if UnpackV2(raw) == Ok(f) {
      FromBigEndianRoundTrip(raw[5..13]);
      FromBigEndianRoundTrip(raw[13..17]);
      PlainPieces(raw);
    }
    if IsPlain(raw, f) {
      PlainSlices(raw, f);
    }
  }

  /** A sealed datagram's slices are the fields it was sealed from. */
  lemma SealedSlices(mac: Mac, raw: seq<Byte>, f: Frame, key: Key)
    requires IsSealed(mac, raw, f, key)
    ensures |raw| >= HEADER_LEN_V3 && MarkedV3(raw) && raw[3] == f.flags && raw[4] == f.pathId
    ensures FromBigEndian(raw[5..13]) == f.sequence && FromBigEndian(raw[13..17]) == f.epoch
    ensures FromBigEndian(raw[17..21]) == f.clientId && raw[29..] == f.payload
    ensures raw[..21] == SignedHeader(f, f.clientId)
    ensures raw[21..29] == mac(key, SignedHeader(f, f.clientId) + f.payload)
  {
    Pow256Values();
    BigEndianRoundTrip(f.sequence, 8);
    BigEndianRoundTrip(f.epoch, 4);
    BigEndianRoundTrip(f.clientId, 4);
    var signed := SignedHeader(f, f.clientId);
    assert raw[..21] == signed;
    assert raw[..2] == signed[..2] == MAGIC;
    assert raw[5..13] == signed[5..13] == BigEndian(f.sequence, 8);
    assert raw[13..17] == signed[13..17] == BigEndian(f.epoch, 4);
    assert raw[17..21] == signed[17..21] == BigEndian(f.clientId, 4);
    assert raw[21..29] == mac(key, signed + f.payload);
    assert raw[29..] == f.payload;
  }

  /** The fields read out of a v3-marked datagram seal back to the same bytes. */
  lemma ReadFieldsSealBack(mac: Mac, raw: seq<Byte>, f: Frame, key: Key)
    requires |raw| >= HEADER_LEN_V3 && MarkedV3(raw)
    requires f == Frame(FromBigEndian(raw[5..13]), raw[4], raw[29..], raw[3], FromBigEndian(raw[13..17]), FromBigEndian(raw[17..21]))
    requires mac(key, raw[..21] + raw[29..]) == raw[21..29]
    ensures IsSealed(mac, raw, f, key)
  {
    Pow256Values();
    hide BigEndian, FromBigEndian;
    FromBigEndianRoundTrip(raw[5..13]);
    FromBigEndianRoundTrip(raw[13..17]);
    FromBigEndianRoundTrip(raw[17..21]);
    HeaderPieces(raw);
    assert raw == raw[..21] + raw[21..29] + raw[29..];
  }

  lemma HeaderPieces(raw: seq<Byte>)
    requires |raw| >= SIGNED_LEN
    ensures raw[..2] + [raw[2], raw[3], raw[4]] + raw[5..13] + raw[13..17] + raw[17..21] == raw[..21]
  {
  }

  /** The verifying reader accepts exactly what was sealed for it: both directions at once. */
  lemma SealedExactly(mac: Mac, raw: seq<Byte>, id: Identity, f: Frame)
    ensures UnpackAs(mac, raw, id) == Ok(f) <==> IsSealedFor(mac, raw, f, id)
  {
    if UnpackAs(mac, raw, id) == Ok(f) {
      if mac(id.key, raw[..21] + raw[29..]) == raw[21..29] {
        ReadFieldsSealBack(mac, raw, f, id.key);
      } else {
        ReadFieldsSealBack(mac, raw, f, id.previousKey.value);
      }
    }
    if IsSealedFor(mac, raw, f, id) {
      SealedSlices(mac, raw, f, if IsSealed(mac, raw, f, id.key) then id.key else id.previousKey.value);
    }
  }

  /** THE RECEIVE RULE, complete: for every byte string, every identity and every rung, what is
      accepted, as which frame, and whether it counts as authenticated. */
  lemma AcceptedExactly(mac: Mac, raw: seq<Byte>, id: Option<Identity>, level: Level, f: Frame, authenticated: bool)
    ensures UnpackAuth(mac, raw, id, level) == Ok((f, authenticated)) <==>
            if authenticated then
              id.Some? && level != Off && IsSealedFor(mac, raw, f, id.value)
            else
              (id.None? || level != Require) && IsPlain(raw, f)
  {
    PlainExactly(raw, f);
    if id.Some? {
      SealedExactly(mac, raw, id.value, f);
      if IsSealedFor(mac, raw, f, id.value) {
        SealedSlices(mac, raw, f, if IsSealed(mac, raw, f, id.value.key) then id.value.key else id.value.previousKey.value);
      }
    }
    if IsPlain(raw, f) {
      assert raw[..2] == MAGIC && raw[2] == VERSION;
    }
  }

  /** A datagram marked v3 is never taken on trust: a verifying rung accepts it only when it is sealed
      under a held key, and an end that does not verify refuses it. */
  lemma V3NeverOnTrust(mac: Mac, raw: seq<Byte>, id: Option<Identity>, level: Level)
    requires MarkedV3(raw)
    requires UnpackAuth(mac, raw, id, level).Ok?
    ensures id.Some? && level != Off
    ensures UnpackAuth(mac, raw, id, level).value.1
    ensures IsSealedFor(mac, raw, UnpackAuth(mac, raw, id, level).value.0, id.value)
  {
    var (f, authenticated) := UnpackAuth(mac, raw, id, level).value;
    AcceptedExactly(mac, raw, id, level, f, authenticated);
  }

  /** Unpacking a packed frame returns every field, with the signer's client id filled in. */
  lemma PackThenUnpack(mac: Mac, f: Frame, id: Identity)
    requires Encodable(f) && Fits(id.clientId, 4)
    ensures PackAs(mac, f, id).Ok?
    ensures UnpackAs(mac, PackAs(mac, f, id).value, id) == Ok(f.(clientId := id.clientId))
  {
    var g := f.(clientId := id.clientId);
    assert SignedHeader(f, id.clientId) == SignedHeader(g, id.clientId);
    assert IsSealed(mac, PackAs(mac, f, id).value, g, id.key);
    SealedExactly(mac, PackAs(mac, f, id).value, id, g);
  }

  /** Re-packing a datagram that verified gives back the raw bytes exactly when it verified under the
      current key; one that verified only under the retired key is re-signed into different bytes. */
  lemma UnpackThenPack(mac: Mac, raw: seq<Byte>, id: Identity)
    requires UnpackAs(mac, raw, id).Ok?
    ensures PackAs(mac, UnpackAs(mac, raw, id).value, id) == Ok(raw) <==> mac(id.key, raw[..21] + raw[29..]) == raw[21..29]
  {
    var f := UnpackAs(mac, raw, id).value;
    SealedExactly(mac, raw, id, f);
    var key := if IsSealed(mac, raw, f, id.key) then id.key else id.previousKey.value;
    SealedSlices(mac, raw, f, key);
    if PackAs(mac, f, id) == Ok(raw) {
      assert IsSealed(mac, raw, f, id.key);
      SealedSlices(mac, raw, f, id.key);
    }
  }

  /** WHAT IS REFUSED, and as what, complete: `Unauthenticated` is a datagram marked v3 and long enough that no held
      key sealed for this peer, at a rung that verifies, or a sound plain frame at the rung that requires;
      everything else that is not accepted is malformed. */
  lemma RefusedExactly(mac: Mac, raw: seq<Byte>, id: Option<Identity>, level: Level)
    ensures UnpackAuth(mac, raw, id, level) == Err(Unauthenticated) <==>
            && id.Some? && level != Off
            && if MarkedV3(raw) then |raw| >= HEADER_LEN_V3 && forall f :: !IsSealedFor(mac, raw, f, id.value)
               else level == Require && exists f :: IsPlain(raw, f)
    ensures UnpackAuth(mac, raw, id, level) in {Err(Unauthenticated), Err(Malformed)} <==> UnpackAuth(mac, raw, id, level).Err?
  {
    var plain := UnpackV2(raw);
    if plain.Ok? {
      PlainExactly(raw, plain.value);
    }
    if f :| IsPlain(raw, f) {
      PlainExactly(raw, f);
    }
    if id.Some? {
      var sealed := UnpackAs(mac, raw, id.value);
      if sealed.Ok? {
        SealedExactly(mac, raw, id.value, sealed.value);
      }
      if f :| IsSealedFor(mac, raw, f, id.value) {
        SealedExactly(mac, raw, id.value, f);
      }
    }
  }

  /** WHAT CAN BE SENT: a signing rung with an identity seals every frame whose fields and client id fit, and any
      other end sends it plain; a plain sequence or path out of range is malformed, and any other field that
      does not fit its width cannot be encoded. */
  lemma SentExactly(mac: Mac, f: Frame, id: Option<Identity>, level: Level)
    ensures var packed, signs := PackAuth(mac, f, id, level), id.Some? && (level == Sign || level == Require);
      && (packed.Ok? <==> Encodable(f) && (signs ==> Fits(id.value.clientId, 4)))
      && (packed.Ok? ==> if signs then IsSealed(mac, packed.value, f.(clientId := id.value.clientId), id.value.key)
                         else IsPlain(packed.value, f.(clientId := 0)))
      && (packed == Err(Malformed) <==> !signs && !(Fits(f.sequence, 8) && Fits(f.pathId, 1)))
      && (packed.Err? ==> packed in {Err(Malformed), Err(Unencodable)})
  {
    Pow256Values();
    if id.Some? && Encodable(f) && Fits(id.value.clientId, 4) {
      assert SignedHeader(f, id.value.clientId) == SignedHeader(f.(clientId := id.value.clientId), id.value.clientId);
    }
  }
}
