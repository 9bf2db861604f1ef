/**
 Reading an APK's signing certificates: the end-of-central-directory scan, the APK Signing Block, and the
 v2 value's nested length-prefixed data. Hashes are a parameter.
 */
module Apk {
  import opened ByteStrings

  const EOCD_SIGNATURE: seq<Byte> := [0x50, 0x4B, 0x05, 0x06]
  // "APK Sig Block 42"
  const SIG_BLOCK_MAGIC: seq<Byte> := [0x41, 0x50, 0x4B, 0x20, 0x53, 0x69, 0x67, 0x20, 0x42, 0x6C, 0x6F, 0x63, 0x6B, 0x20, 0x34, 0x32]
  const V2_BLOCK_ID := 0x7109_871A

  // the least Py_ssize_t, negated
  const MOST_BACKWARD := 0x8000_0000_0000_0000

  /** `NotAnApk` is the reader's own refusal; `StructError` is a struct.error it lets through, and
      `OverflowError` what an offset too far below zero raises instead. */
  datatype Result<+T> = Ok(value: T) | NotAnApk | StructError | OverflowError

  // ---------------------------------------------------------------- Python's slices and unpack_from

  function Clamp(i: int, n: nat): nat {
    if i < 0 then (if i + n < 0 then 0 else i + n) else if i > n then n else i
  }

  /** `buf[lo:hi]`, negative indices counting from the end. */
  function Slice(buf: seq<Byte>, lo: int, hi: int): seq<Byte> {
    var a, b := Clamp(lo, |buf|), Clamp(hi, |buf|);
    if a < b then buf[a..b] else []
  }

  /** A little-endian unsigned field of `size` bytes; a negative offset counts from the end. */
  function UnpackFrom(buf: seq<Byte>, off: int, size: nat): Option<nat> {
    if off < 0 && (off + size > 0 || off + |buf| < 0) then None
    else
      var start := if off < 0 then off + |buf| else off;
      if start + size > |buf| then None else Some(FromLittleEndian(buf[start..start + size]))
  }

  // ---------------------------------------------------------------- the signing block

  predicate SignatureAt(blob: seq<Byte>, i: int) {
    0 <= i && i + 4 <= |blob| && blob[i..i + 4] == EOCD_SIGNATURE
  }

  /** The highest signature position from `i` down to `floor`. */
  function LastSignature(blob: seq<Byte>, i: int, floor: nat): Option<int>
    decreases i
  {
    if i < floor then None
    else if SignatureAt(blob, i) then Some(i)
    else if i == 0 then None
    else LastSignature(blob, i - 1, floor)
  }

  function BlockBefore(blob: seq<Byte>, cdOffset: nat): Result<seq<Byte>> {
    if Slice(blob, cdOffset - 16, cdOffset) != SIG_BLOCK_MAGIC then NotAnApk
    else
      match UnpackFrom(blob, cdOffset - 24, 8)
      case None => StructError
      case Some(sizeAtEnd) =>
        var start := cdOffset - 8 - sizeAtEnd;
        if start < -MOST_BACKWARD then OverflowError
        else
          match UnpackFrom(blob, start, 8)
          case None => StructError
          case Some(sizeAtStart) =>
            if sizeAtStart != sizeAtEnd then NotAnApk else Ok(Slice(blob, start + 8, cdOffset - 24))
  }

  function Floor(blob: seq<Byte>): nat {
    if |blob| - 22 - 65536 > 0 then |blob| - 22 - 65536 else 0
  }

  function BlockOf(blob: seq<Byte>): Result<seq<Byte>> {
    match LastSignature(blob, |blob| - 22, Floor(blob))
    case None => NotAnApk
    case Some(i) =>
      match UnpackFrom(blob, i + 16, 4)
      case None => StructError
      case Some(cdOffset) => BlockBefore(blob, cdOffset)
  }

  method SigningBlock(blob: seq<Byte>) returns (r: Result<seq<Byte>>)
    ensures r == BlockOf(blob)
  {
    var end := |blob| - 22;
    var floor := Floor(blob);
    var i := end;
    while i >= floor
      invariant i <= end
      invariant LastSignature(blob, i, floor) == LastSignature(blob, end, floor)
      decreases i - floor
    {
      if SignatureAt(blob, i) {
        var cdOffset := UnpackFrom(blob, i + 16, 4);
        return if cdOffset.None? then StructError else BlockBefore(blob, cdOffset.value);
      }
      i := i - 1;
    }
    return NotAnApk;
  }

  // ---------------------------------------------------------------- length-prefixed chunks

  /** What the generator yields, and whether it then raises struct.error. */
  datatype Yielded = Yielded(chunks: seq<seq<Byte>>, raised: bool)

  function Chunks(buf: seq<Byte>): Yielded
    decreases |buf|
  {
    if buf == [] then Yielded([], false)
    else if |buf| < 4 then Yielded([], true)
    else
      var n := FromLittleEndian(buf[..4]);
      var end := if 4 + n <= |buf| then 4 + n else |buf|;
      var rest := Chunks(buf[end..]);
      Yielded([buf[4..end]] + rest.chunks, rest.raised)
  }

  /** One turn of the generator, at an offset: it always moves on by at least the header. */
  lemma NextChunk(buf: seq<Byte>, off: nat, n: nat, end: nat)
    requires off + 4 <= |buf| && n == FromLittleEndian(buf[off..off + 4])
    requires end == if off + 4 + n <= |buf| then off + 4 + n else |buf|
    ensures Chunks(buf[off..]) == Yielded([buf[off + 4..end]] + Chunks(buf[end..]).chunks, Chunks(buf[end..]).raised)
  {
    hide FromLittleEndian;
    var left := buf[off..];
    assert left[..4] == buf[off..off + 4];
    assert left[4..end - off] == buf[off + 4..end] && left[end - off..] == buf[end..];
  }

  lemma NoChunkLeft(buf: seq<Byte>, off: nat)
    requires |buf| < off + 4 && off <= |buf|
    ensures Chunks(buf[off..]) == Yielded([], off < |buf|)
  {
  }

  method LengthPrefixed(buf: seq<Byte>) returns (y: Yielded)
    ensures y == Chunks(buf)
  {
    hide Chunks, FromLittleEndian;
    var chunks: seq<seq<Byte>>, off: nat := [], 0;
    ghost var at: nat := 0;
    assert buf[0..] == buf;
    while off < |buf|
      invariant at == if off <= |buf| then off else |buf|
      invariant Chunks(buf) == Yielded(chunks + Chunks(buf[at..]).chunks, Chunks(buf[at..]).raised)
      decreases |buf| - at
    {
      if off + 4 > |buf| {
        NoChunkLeft(buf, off);
        return Yielded(chunks, true);
      }
      var n: nat := FromLittleEndian(buf[off..off + 4]);
      var end := if off + 4 + n <= |buf| then off + 4 + n else |buf|;
      NextChunk(buf, off, n, end);
      Reassociate(chunks, [buf[off + 4..end]], Chunks(buf[end..]).chunks);
      chunks := chunks + [buf[off + 4..end]];
      off := off + 4 + n;
      at := end;
    }
    NoChunkLeft(buf, at);
    return Yielded(chunks, false);
  }

  // ---------------------------------------------------------------- the v2 value

  type Digest = seq<Byte>
  type Hash = seq<Byte> -> Digest

  function Hashes(hash: Hash, ders: seq<seq<Byte>>): (r: seq<Digest>)
    ensures |r| == |ders| && forall i | 0 <= i < |ders| :: r[i] == hash(ders[i])
  {
    seq(|ders|, i requires 0 <= i < |ders| => hash(ders[i]))
  }

  /** One signer's certificate hashes, or None for anything malformed. */
  function SignerHashes(hash: Hash, signer: seq<Byte>): Option<seq<Digest>> {
    var first := Chunks(signer);
    if first.chunks == [] then None
    else
      var sections := Chunks(first.chunks[0]);
      if sections.raised || |sections.chunks| < 2 then None
      else
        var ders := Chunks(sections.chunks[1]);
        if ders.raised then None else Some(Hashes(hash, ders.chunks))
  }

  function AllSigners(hash: Hash, signers: seq<seq<Byte>>): Option<seq<Digest>> {
    if signers == [] then Some([])
    else
      var front := AllSigners(hash, signers[..|signers| - 1]);
      var last := SignerHashes(hash, signers[|signers| - 1]);
      if front.None? || last.None? then None else Some(front.value + last.value)
  }

  function V2Digests(hash: Hash, value: seq<Byte>): Result<seq<Digest>> {
    var outer := Chunks(value);
    if outer.chunks == [] then NotAnApk
    else
      var signers := Chunks(outer.chunks[0]);
      var all := AllSigners(hash, signers.chunks);
      if signers.raised || all.None? || all.value == [] then NotAnApk else Ok(all.value)
  }

  method DigestsOfSigner(hash: Hash, signer: seq<Byte>) returns (r: Option<seq<Digest>>)
    ensures r == SignerHashes(hash, signer)
  {
    hide Chunks;
    var first := LengthPrefixed(signer);
    if first.chunks == [] {
      return None;
    }
    var sections := LengthPrefixed(first.chunks[0]);
    if sections.raised || |sections.chunks| < 2 {
      return None;
    }
    var ders := LengthPrefixed(sections.chunks[1]);
    if ders.raised {
      return None;
    }
    var out: seq<Digest> := [];
    for i := 0 to |ders.chunks|
      invariant out == Hashes(hash, ders.chunks[..i])
    {
      out := out + [hash(ders.chunks[i])];
    }
    assert ders.chunks[..|ders.chunks|] == ders.chunks;
    return Some(out);
  }

  method DigestsOfValue(hash: Hash, value: seq<Byte>) returns (r: Result<seq<Digest>>)
    ensures r == V2Digests(hash, value)
  {
    hide Chunks, SignerHashes;
    var outer := LengthPrefixed(value);
    if outer.chunks == [] {
      return NotAnApk;
    }
    var signers := LengthPrefixed(outer.chunks[0]);
    var out: seq<Digest> := [];
    for i := 0 to |signers.chunks|
      invariant AllSigners(hash, signers.chunks[..i]) == Some(out)
    {
      assert signers.chunks[..i + 1][..i] == signers.chunks[..i];
      var one := DigestsOfSigner(hash, signers.chunks[i]);
      if one.None? {
        OneBadSigner(hash, signers.chunks, i + 1);
        return NotAnApk;
      }
      out := out + one.value;
    }
    assert signers.chunks[..|signers.chunks|] == signers.chunks;
    if signers.raised || out == [] {
      return NotAnApk;
    }
    return Ok(out);
  }

  lemma {:induction false} OneBadSigner(hash: Hash, signers: seq<seq<Byte>>, i: nat)
    requires i <= |signers| && AllSigners(hash, signers[..i]).None?
    ensures AllSigners(hash, signers).None?
    decreases |signers| - i
  {
    if i == |signers| {
      assert signers[..i] == signers;
    } else {
      assert signers[..i + 1][..i] == signers[..i];
      OneBadSigner(hash, signers, i + 1);
    }
  }

  // ---------------------------------------------------------------- the pairs

  function PairsFrom(hash: Hash, block: seq<Byte>, off: nat): Result<seq<Digest>>
    decreases if off <= |block| then |block| - off else 0
  {
    if off >= |block| then NotAnApk
    else
      match (UnpackFrom(block, off, 8), UnpackFrom(block, off + 8, 4))
      case (Some(pairSize), Some(pairId)) =>
        if pairId == V2_BLOCK_ID then V2Digests(hash, Slice(block, off + 12, off + 8 + pairSize))
        else PairsFrom(hash, block, off + 8 + pairSize)
      case _ => StructError
  }

  lemma PairsUnfold(hash: Hash, block: seq<Byte>, off: nat)
    ensures off >= |block| ==> PairsFrom(hash, block, off) == NotAnApk
    ensures off < |block| && (UnpackFrom(block, off, 8).None? || UnpackFrom(block, off + 8, 4).None?) ==>
      PairsFrom(hash, block, off) == StructError
    ensures off < |block| && UnpackFrom(block, off, 8).Some? && UnpackFrom(block, off + 8, 4).Some? ==>
      var pairSize, pairId := UnpackFrom(block, off, 8).value, UnpackFrom(block, off + 8, 4).value;
      PairsFrom(hash, block, off) ==
      if pairId == V2_BLOCK_ID then V2Digests(hash, Slice(block, off + 12, off + 8 + pairSize))
      else PairsFrom(hash, block, off + 8 + pairSize)
  {
    hide V2Digests, UnpackFrom, Slice;
  }

  function DigestsOf(hash: Hash, blob: seq<Byte>): Result<seq<Digest>> {
    match BlockOf(blob)
    case NotAnApk => NotAnApk
    case StructError => StructError
    case OverflowError => OverflowError
    case Ok(block) => PairsFrom(hash, block, 0)
  }

  method SignerDigests(hash: Hash, blob: seq<Byte>) returns (r: Result<seq<Digest>>)
    ensures r == DigestsOf(hash, blob)
  {
    hide BlockOf, V2Digests, PairsFrom, UnpackFrom, Slice;
    var found := SigningBlock(blob);
    if found.StructError? {
      return StructError;
    }
    if found.OverflowError? {
      return OverflowError;
    }
    if found.NotAnApk? {
      return NotAnApk;
    }
    var block, off: nat := found.value, 0;
    while off < |block|
      invariant PairsFrom(hash, block, off) == PairsFrom(hash, block, 0)
      decreases if off <= |block| then |block| - off else 0
    {
      PairsUnfold(hash, block, off);
      var pairSize := UnpackFrom(block, off, 8);
      if pairSize.None? {
        return StructError;
      }
      var pairId := UnpackFrom(block, off + 8, 4);
      if pairId.None? {
        return StructError;
      }
      if pairId.value == V2_BLOCK_ID {
        r := DigestsOfValue(hash, Slice(block, off + 12, off + 8 + pairSize.value));
        return;
      }
      off := off + 8 + pairSize.value;
    }
    PairsUnfold(hash, block, off);
    return NotAnApk;
  }

  // ---------------------------------------------------------------- the format, written out

  predicate Short(x: seq<Byte>) {
    Fits(|x|, 4)
  }

  function Prefixed(x: seq<Byte>): seq<Byte> {
    LittleEndian(|x|, 4) + x
  }

  function PrefixedAll(xs: seq<seq<Byte>>): seq<Byte> {
    if xs == [] then [] else Prefixed(xs[0]) + PrefixedAll(xs[1..])
  }

  predicate AllShort(xs: seq<seq<Byte>>) {
    forall i | 0 <= i < |xs| :: Short(xs[i])
  }

  lemma UnpackAt(buf: seq<Byte>, before: seq<Byte>, v: nat, size: nat, after: seq<Byte>)
    requires Fits(v, size) && buf == before + LittleEndian(v, size) + after
    ensures UnpackFrom(buf, |before|, size) == Some(v)
  {
    LittleEndianRoundTrip(v, size);
    assert buf[|before|..|before| + size] == LittleEndian(v, size);
  }

  /** Chunks written one after another are yielded one by one. */
  lemma {:induction false} ChunksInvert(xs: seq<seq<Byte>>)
    requires AllShort(xs)
    ensures Chunks(PrefixedAll(xs)) == Yielded(xs, false)
  {
    if xs != [] {
      FirstChunkIs(xs[0], PrefixedAll(xs[1..]));
      ChunksInvert(xs[1..]);
      assert xs == [xs[0]] + xs[1..];
    }
  }

  lemma FirstChunkIs(x: seq<Byte>, rest: seq<Byte>)
    requires Short(x)
    ensures Chunks(Prefixed(x) + rest) == Yielded([x] + Chunks(rest).chunks, Chunks(rest).raised)
  {
    hide LittleEndian, FromLittleEndian;
    LittleEndianRoundTrip(|x|, 4);
    var buf := Prefixed(x) + rest;
    assert buf[..4] == LittleEndian(|x|, 4);
    assert buf[4..4 + |x|] == x && buf[4 + |x|..] == rest;
  }

  /** How a buffer of chunks ends: after a whole chunk, in a chunk that claims more bytes than are left, or
      in a header. */
  datatype Ending = Whole | Clipped(claim: nat, left: seq<Byte>) | Cut(header: seq<Byte>)

  predicate IsEnding(e: Ending) {
    match e
    case Whole => true
    case Clipped(n, x) => Fits(n, 4) && |x| < n
    case Cut(t) => 0 < |t| < 4
  }

  function EndingBytes(e: Ending): seq<Byte>
    requires IsEnding(e)
  {
    match e
    case Whole => []
    case Clipped(n, x) => LittleEndian(n, 4) + x
    case Cut(t) => t
  }

  /** The bytes an ending still yields as a chunk. */
  function Leftover(e: Ending): seq<seq<Byte>> {
    if e.Clipped? then [e.left] else []
  }

  lemma EndingIsRead(e: Ending)
    requires IsEnding(e)
    ensures Chunks(EndingBytes(e)) == Yielded(Leftover(e), e.Cut?)
  {
    hide LittleEndian, FromLittleEndian;
    if e.Clipped? {
      LittleEndianRoundTrip(e.claim, 4);
      var buf := EndingBytes(e);
      assert buf[..4] == LittleEndian(e.claim, 4) && buf[4..|buf|] == e.left && buf[|buf|..] == [];
      assert [e.left] + [] == [e.left];
    }
  }

  lemma PrefixedAllFront(x: seq<Byte>, xs: seq<seq<Byte>>, tail: seq<Byte>)
    ensures PrefixedAll([x] + xs) + tail == Prefixed(x) + (PrefixedAll(xs) + tail)
  {
    assert ([x] + xs)[1..] == xs;
    Reassociate(Prefixed(x), PrefixedAll(xs), tail);
  }

  /** Chunks, then an ending: the chunks are yielded, then what is left of a clipped one, and only a cut
      header raises. */
  lemma {:induction false} ChunksThenEnding(xs: seq<seq<Byte>>, e: Ending)
    requires AllShort(xs) && IsEnding(e)
    ensures Chunks(PrefixedAll(xs) + EndingBytes(e)) == Yielded(xs + Leftover(e), e.Cut?)
  {
    hide Chunks, EndingBytes, Prefixed;
    if xs == [] {
      EndingIsRead(e);
      assert [] + EndingBytes(e) == EndingBytes(e) && xs + Leftover(e) == Leftover(e);
    } else {
      var x, rest := xs[0], xs[1..];
      assert xs == [x] + rest;
      ChunksThenEnding(rest, e);
      PrefixedAllFront(x, rest, EndingBytes(e));
      FirstChunkIs(x, PrefixedAll(rest) + EndingBytes(e));
      assert [x] + (rest + Leftover(e)) == xs + Leftover(e);
    }
  }

  /** EVERY BUFFER is some whole chunks and one of the three endings. */
  lemma {:induction false} EveryBufferEnds(buf: seq<Byte>) returns (xs: seq<seq<Byte>>, e: Ending)
    ensures AllShort(xs) && IsEnding(e) && buf == PrefixedAll(xs) + EndingBytes(e)
    decreases |buf|
  {
    hide LittleEndian, FromLittleEndian;
    if |buf| < 4 {
      xs, e := [], if buf == [] then Whole else Cut(buf);
      assert [] + EndingBytes(e) == buf;
    } else {
      var n := FromLittleEndian(buf[..4]);
      FromLittleEndianRoundTrip(buf[..4]);
      if 4 + n > |buf| {
        xs, e := [], Clipped(n, buf[4..]);
        assert buf == LittleEndian(n, 4) + buf[4..] == [] + EndingBytes(e);
      } else {
        var x := buf[4..4 + n];
        assert buf == Prefixed(x) + buf[4 + n..];
        var more, last := EveryBufferEnds(buf[4 + n..]);
        xs, e := [x] + more, last;
        PrefixedAllFront(x, more, EndingBytes(e));
      }
    }
  }

  /** The bytes stop inside a header. */
  ghost predicate StopsInAHeader(buf: seq<Byte>) {
    exists xs, header :: AllShort(xs) && 0 < |header| < 4 && buf == PrefixedAll(xs) + header
  }

  /** A LIST IS REPORTED TRUNCATED EXACTLY WHEN IT STOPS IN A HEADER, on every buffer: a last chunk cut anywhere
      else is yielded short and nothing is raised. */
  lemma RaisedExactly(buf: seq<Byte>)
    ensures Chunks(buf).raised <==> StopsInAHeader(buf)
  {
    hide Chunks, PrefixedAll;
    var xs, e := EveryBufferEnds(buf);
    ChunksThenEnding(xs, e);
    if e.Cut? {
      assert buf == PrefixedAll(xs) + e.header;
    }
    if StopsInAHeader(buf) {
      var ys, header :| AllShort(ys) && 0 < |header| < 4 && buf == PrefixedAll(ys) + header;
      ChunksThenEnding(ys, Cut(header));
      assert EndingBytes(Cut(header)) == header;
    }
  }

  /** A CLIPPED CHUNK IS NOT AN ERROR: behind any whole chunks, a last one that claims more bytes than are
      left is yielded short and nothing is raised. */
  lemma ClippedChunkIsYielded(xs: seq<seq<Byte>>, n: nat, x: seq<Byte>)
    requires AllShort(xs) && Fits(n, 4) && |x| < n
    ensures Chunks(PrefixedAll(xs) + (LittleEndian(n, 4) + x)) == Yielded(xs + [x], false)
  {
    ChunksThenEnding(xs, Clipped(n, x));
  }

  /** A v2 signer: the signed data's digests, certificates and further sections, then the signatures and
      the public key as they come. The certificates and the sections may each end whole, clipped or cut. */
  datatype Signer = Signer(digests: seq<Byte>, certificates: seq<seq<Byte>>, certificatesEnd: Ending,
                           more: seq<seq<Byte>>, moreEnd: Ending, rest: seq<Byte>)

  predicate SignerEnds(s: Signer) {
    IsEnding(s.certificatesEnd) && IsEnding(s.moreEnd)
  }

  function CertificateSection(s: Signer): seq<Byte>
    requires SignerEnds(s)
  {
    PrefixedAll(s.certificates) + EndingBytes(s.certificatesEnd)
  }

  function SignedData(s: Signer): seq<Byte>
    requires SignerEnds(s)
  {
    PrefixedAll([s.digests, CertificateSection(s)] + s.more) + EndingBytes(s.moreEnd)
  }

  function SignerBytes(s: Signer): seq<Byte>
    requires SignerEnds(s)
  {
    Prefixed(SignedData(s)) + s.rest
  }

  predicate SignerFits(s: Signer) {
    && SignerEnds(s)
    && Short(s.digests) && AllShort(s.certificates) && Short(CertificateSection(s)) && AllShort(s.more)
    && Short(SignedData(s)) && Short(SignerBytes(s))
  }

  /** Whether either of a signer's two lists stops inside a header. */
  predicate SignerIsCut(s: Signer) {
    s.certificatesEnd.Cut? || s.moreEnd.Cut?
  }

  /** What stands where a certificate should: the whole ones, and what is left of a clipped last one. */
  function Presented(s: Signer): seq<seq<Byte>> {
    s.certificates + Leftover(s.certificatesEnd)
  }

  predicate AllSignersFit(signers: seq<Signer>) {
    forall i | 0 <= i < |signers| :: SignerFits(signers[i])
  }

  function AllSignerBytes(signers: seq<Signer>): (r: seq<seq<Byte>>)
    requires AllSignersFit(signers)
    ensures |r| == |signers|
  {
    seq(|signers|, i requires 0 <= i < |signers| => SignerBytes(signers[i]))
  }

  predicate AnySignerIsCut(signers: seq<Signer>) {
    exists i | 0 <= i < |signers| :: SignerIsCut(signers[i])
  }

  function CertificateHashes(hash: Hash, signers: seq<Signer>): seq<Digest> {
    if signers == [] then []
    else CertificateHashes(hash, signers[..|signers| - 1]) + Hashes(hash, Presented(signers[|signers| - 1]))
  }

  function V2Value(signers: seq<Signer>, extra: seq<Byte>): seq<Byte>
    requires AllSignersFit(signers)
  {
    Prefixed(PrefixedAll(AllSignerBytes(signers))) + extra
  }

  /** A SIGNER IS REFUSED EXACTLY WHEN ONE OF ITS LISTS STOPS IN A HEADER. A certificate cut off anywhere
      else is hashed as it stands, and a further section cut off there is not looked at. */
  lemma SignerIsRead(hash: Hash, s: Signer)
    requires SignerFits(s)
    ensures SignerHashes(hash, SignerBytes(s)) == if SignerIsCut(s) then None else Some(Hashes(hash, Presented(s)))
  {
    hide Chunks, PrefixedAll, LittleEndian, EndingBytes;
    FirstChunkIs(SignedData(s), s.rest);
    ChunksThenEnding([s.digests, CertificateSection(s)] + s.more, s.moreEnd);
    ChunksThenEnding(s.certificates, s.certificatesEnd);
    var sections := [s.digests, CertificateSection(s)] + s.more + Leftover(s.moreEnd);
    assert sections[1] == CertificateSection(s);
  }

  /** So a signer whose last certificate is clipped is accepted, and the bytes left of it are hashed. */
  lemma ClippedCertificateIsHashed(hash: Hash, s: Signer)
    requires SignerFits(s) && s.certificatesEnd.Clipped? && !s.moreEnd.Cut?
    ensures SignerHashes(hash, SignerBytes(s)) == Some(Hashes(hash, s.certificates + [s.certificatesEnd.left]))
  {
    SignerIsRead(hash, s);
  }

  /** Any bytes at all as a signer: refused exactly when there is no header to read, the signed data stops in
      one, it has no certificate section, or that section stops in a header. */
  ghost predicate SignerIsMalformed(signer: seq<Byte>) {
    var chunks := Chunks(signer).chunks;
    |signer| < 4 || chunks == [] ||
    var sections := Chunks(chunks[0]).chunks;
    StopsInAHeader(chunks[0]) || |sections| < 2 || StopsInAHeader(sections[1])
  }

  lemma SignerRefusedExactly(hash: Hash, signer: seq<Byte>)
    ensures SignerHashes(hash, signer).None? <==> SignerIsMalformed(signer)
  {
    hide StopsInAHeader;
    ShortYieldsNothing(signer);
    if |signer| >= 4 {
      var data := Chunks(signer).chunks[0];
      RaisedExactly(data);
      if |Chunks(data).chunks| >= 2 {
        RaisedExactly(Chunks(data).chunks[1]);
      }
    }
  }

  lemma ShortYieldsNothing(buf: seq<Byte>)
    ensures Chunks(buf).chunks == [] <==> |buf| < 4
  {
  }

  lemma {:induction false} OneRefusedRefusesAll(hash: Hash, signers: seq<seq<Byte>>)
    ensures AllSigners(hash, signers).None? <==> exists i | 0 <= i < |signers| :: SignerHashes(hash, signers[i]).None?
  {
    hide SignerHashes;
    if signers != [] {
      var front := signers[..|signers| - 1];
      OneRefusedRefusesAll(hash, front);
      assert forall i | 0 <= i < |front| :: front[i] == signers[i];
    }
  }

  /** The certificate section of a signer, where there is one, is empty. */
  ghost predicate CarriesNoCertificate(signer: seq<Byte>) {
    SignerIsMalformed(signer) || Chunks(Chunks(signer).chunks[0]).chunks[1] == []
  }

  lemma NoHashExactly(hash: Hash, signer: seq<Byte>)
    ensures SignerHashes(hash, signer) in {None, Some([])} <==> CarriesNoCertificate(signer)
  {
    hide StopsInAHeader;
    SignerRefusedExactly(hash, signer);
    if !SignerIsMalformed(signer) {
      var section := Chunks(Chunks(signer).chunks[0]).chunks[1];
      RaisedExactly(section);
      ShortYieldsNothing(section);
    }
  }

  lemma {:induction false} NoHashesExactly(hash: Hash, signers: seq<seq<Byte>>)
    ensures AllSigners(hash, signers).Some? ==>
              (AllSigners(hash, signers).value == [] <==> forall i | 0 <= i < |signers| :: CarriesNoCertificate(signers[i]))
  {
    hide SignerHashes, CarriesNoCertificate;
    if signers != [] {
      var front, last := signers[..|signers| - 1], signers[|signers| - 1];
      NoHashesExactly(hash, front);
      NoHashExactly(hash, last);
      assert forall i | 0 <= i < |front| :: front[i] == signers[i];
    }
  }

  /** Any bytes at all as a v2 value: refused exactly when the signer list is missing or stops in a header,
      when one of its signers is malformed, or when no signer carries a certificate. */
  lemma ValueRefusedExactly(hash: Hash, value: seq<Byte>)
    ensures V2Digests(hash, value).NotAnApk? <==>
      || |value| < 4
      || StopsInAHeader(Chunks(value).chunks[0])
      || (exists i | 0 <= i < |Chunks(Chunks(value).chunks[0]).chunks| :: SignerIsMalformed(Chunks(Chunks(value).chunks[0]).chunks[i]))
      || (forall i | 0 <= i < |Chunks(Chunks(value).chunks[0]).chunks| :: CarriesNoCertificate(Chunks(Chunks(value).chunks[0]).chunks[i]))
    ensures V2Digests(hash, value).Ok? || V2Digests(hash, value).NotAnApk?
  {
    hide SignerHashes, StopsInAHeader, SignerIsMalformed, Chunks, CarriesNoCertificate;
    ShortYieldsNothing(value);
    if |value| >= 4 {
      var list := Chunks(value).chunks[0];
      RaisedExactly(list);
      var signers := Chunks(list).chunks;
      OneRefusedRefusesAll(hash, signers);
      forall i | 0 <= i < |signers| ensures SignerHashes(hash, signers[i]).None? <==> SignerIsMalformed(signers[i]) {
        SignerRefusedExactly(hash, signers[i]);
      }
      NoHashesExactly(hash, signers);
    }
  }

  lemma {:induction false} SignersAreRead(hash: Hash, signers: seq<Signer>)
    requires AllSignersFit(signers)
    ensures AllSigners(hash, AllSignerBytes(signers)) ==
            if AnySignerIsCut(signers) then None else Some(CertificateHashes(hash, signers))
  {
    hide SignerFits, SignerBytes, SignerIsCut, SignerHashes, Presented;
    if signers != [] {
      var front, last := signers[..|signers| - 1], signers[|signers| - 1];
      assert forall i | 0 <= i < |front| :: front[i] == signers[i];
      SignersAreRead(hash, front);
      SignerIsRead(hash, last);
      assert AllSignerBytes(signers)[..|signers| - 1] == AllSignerBytes(front);
      assert AnySignerIsCut(signers) <==> AnySignerIsCut(front) || SignerIsCut(last);
    }
  }

  lemma V2ValueIsRead(hash: Hash, signers: seq<Signer>, extra: seq<Byte>)
    requires AllSignersFit(signers)
    requires Short(PrefixedAll(AllSignerBytes(signers)))
    ensures V2Digests(hash, V2Value(signers, extra)) ==
            if AnySignerIsCut(signers) || CertificateHashes(hash, signers) == [] then NotAnApk
            else Ok(CertificateHashes(hash, signers))
  {
    hide Chunks, PrefixedAll, SignerBytes, AllSigners, CertificateHashes, AnySignerIsCut;
    FirstChunkIs(PrefixedAll(AllSignerBytes(signers)), extra);
    forall i | 0 <= i < |signers| ensures Short(AllSignerBytes(signers)[i]) {
      assert SignerFits(signers[i]);
    }
    ChunksInvert(AllSignerBytes(signers));
    SignersAreRead(hash, signers);
  }

  // ---------------------------------------------------------------- a value cut at any byte

  /** The first `t` bytes. */
  function First(buf: seq<Byte>, t: int): seq<Byte> {
    if t <= 0 then [] else if t < |buf| then buf[..t] else buf
  }

  /** Where the k-th chunk's header starts. */
  function Start(xs: seq<seq<Byte>>, k: nat): nat
    requires k <= |xs|
  {
    |PrefixedAll(xs[..k])|
  }

  /** A cut after `t` bytes leaves part of some chunk's header. */
  ghost predicate InHeader(xs: seq<seq<Byte>>, t: int) {
    exists k | 0 <= k < |xs| :: 0 < t - Start(xs, k) < 4
  }

  /** The chunks whose header is complete in the first `t` bytes, with the bytes there are of them. */
  function KeptChunks(xs: seq<seq<Byte>>, t: int): seq<seq<Byte>> {
    if xs == [] || t < 4 then [] else [First(xs[0], t - 4)] + KeptChunks(xs[1..], t - 4 - |xs[0]|)
  }

  lemma StartShifts(xs: seq<seq<Byte>>, k: nat)
    requires k < |xs|
    ensures Start(xs, k + 1) == 4 + |xs[0]| + Start(xs[1..], k)
  {
    assert xs[..k + 1][1..] == xs[1..][..k];
  }

  lemma InHeaderUnfolds(xs: seq<seq<Byte>>, t: int)
    requires xs != []
    ensures InHeader(xs, t) <==> 0 < t < 4 || InHeader(xs[1..], t - 4 - |xs[0]|)
  {
    assert Start(xs, 0) == 0;
    hide PrefixedAll;
    if InHeader(xs, t) && !(0 < t < 4) {
      var k :| 0 <= k < |xs| && 0 < t - Start(xs, k) < 4;
      StartShifts(xs, k - 1);
    }
    if InHeader(xs[1..], t - 4 - |xs[0]|) {
      var k :| 0 <= k < |xs[1..]| && 0 < t - 4 - |xs[0]| - Start(xs[1..], k) < 4;
      StartShifts(xs, k);
      assert 0 < t - Start(xs, k + 1) < 4;
    }
  }

  lemma NotInHeaderBefore(xs: seq<seq<Byte>>, t: int)
    requires t <= 0 || xs == []
    ensures !InHeader(xs, t) && KeptChunks(xs, t) == []
  {
  }

  lemma FirstOfTwo(a: seq<Byte>, b: seq<Byte>, t: int)
    ensures t >= |a| ==> First(a + b, t) == a + First(b, t - |a|)
    ensures t <= |a| ==> First(a + b, t) == First(a, t)
  {
  }

  /** A chunk and what follows, cut inside the chunk. */
  lemma CutInside(x: seq<Byte>, rest: seq<Byte>, t: int)
    requires Short(x) && 4 <= t < 4 + |x|
    ensures Chunks(First(Prefixed(x) + rest, t)) == Yielded([First(x, t - 4)], false)
  {
    hide Chunks, LittleEndian;
    var e := Clipped(|x|, First(x, t - 4));
    FirstOfTwo(LittleEndian(|x|, 4), x + rest, t);
    FirstOfTwo(x, rest, t - 4);
    assert Prefixed(x) + rest == LittleEndian(|x|, 4) + (x + rest);
    EndingIsRead(e);
  }

  /** A LIST CUT AT ANY BYTE: the chunks whose header is there are yielded, the last with the bytes there
      are, and the cut is reported exactly when it falls in a header. */
  lemma {:induction false} TruncatedList(xs: seq<seq<Byte>>, t: int)
    requires AllShort(xs)
    ensures Chunks(First(PrefixedAll(xs), t)) == Yielded(KeptChunks(xs, t), InHeader(xs, t))
    decreases |xs|
  {
    hide InHeader, LittleEndian, FromLittleEndian;
    if xs == [] || t <= 0 {
      NotInHeaderBefore(xs, t);
    } else {
      var x, rest := xs[0], xs[1..];
      InHeaderUnfolds(xs, t);
      if t < 4 + |x| {
        NotInHeaderBefore(rest, t - 4 - |x|);
        if t >= 4 {
          CutInside(x, PrefixedAll(rest), t);
        }
      } else {
        FirstOfTwo(Prefixed(x), PrefixedAll(rest), t);
        FirstChunkIs(x, First(PrefixedAll(rest), t - 4 - |x|));
        TruncatedList(rest, t - 4 - |x|);
      }
    }
  }

  /** The first chunk of a cut buffer. */
  lemma HeadOfCut(x: seq<Byte>, rest: seq<Byte>, t: int)
    requires Short(x)
    ensures var chunks := Chunks(First(Prefixed(x) + rest, t)).chunks;
            if t < 4 then chunks == [] else chunks != [] && chunks[0] == First(x, t - 4)
  {
    hide Chunks, LittleEndian;
    if t < 4 {
      ShortYieldsNothing(First(Prefixed(x) + rest, t));
    } else if t < 4 + |x| {
      CutInside(x, rest, t);
    } else {
      FirstOfTwo(Prefixed(x), rest, t);
      FirstChunkIs(x, First(rest, t - 4 - |x|));
    }
  }

  predicate WholeSigner(s: Signer) {
    SignerFits(s) && s.certificatesEnd.Whole? && s.moreEnd.Whole?
  }

  function Sections(s: Signer): seq<seq<Byte>>
    requires SignerEnds(s)
  {
    [s.digests, CertificateSection(s)] + s.more
  }

  /** Where a signer's certificates start: behind its own header's length, the digests, and two more. */
  function CertificatesAt(s: Signer): nat {
    12 + |s.digests|
  }

  /** Whether a signer cut after `u` bytes is refused, by position: before its certificate section's header
      is complete, in a certificate's header, or in a section's. */
  ghost predicate SignerLost(s: Signer, u: int)
    requires SignerEnds(s)
  {
    u < CertificatesAt(s) || InHeader(s.certificates, u - CertificatesAt(s)) || InHeader(Sections(s), u - 4)
  }

  /** A WHOLE SIGNER CUT AT ANY BYTE. */
  lemma TruncatedSigner(hash: Hash, s: Signer, u: int)
    requires WholeSigner(s)
    ensures SignerHashes(hash, First(SignerBytes(s), u)) ==
            if SignerLost(s, u) then None else Some(Hashes(hash, KeptChunks(s.certificates, u - CertificatesAt(s))))
  {
    hide Chunks, PrefixedAll, LittleEndian, First, InHeader;
    var sections := Sections(s);
    assert SignedData(s) == PrefixedAll(sections);
    assert CertificateSection(s) == PrefixedAll(s.certificates);
    HeadOfCut(SignedData(s), s.rest, u);
    assert AllShort(sections);
    TruncatedList(sections, u - 4);
    assert sections[1..][0] == sections[1] && KeptChunks(sections, u - 4) ==
      if u < 8 then [] else [First(sections[0], u - 8)] + KeptChunks(sections[1..], u - 8 - |s.digests|);
    TruncatedList(s.certificates, u - CertificatesAt(s));
  }

  /** Where the i-th signer's bytes start in the value, behind the list's length and its own. */
  function SignerAt(signers: seq<Signer>, i: nat): nat
    requires AllSignersFit(signers) && i <= |signers|
  {
    8 + Start(AllSignerBytes(signers), i)
  }

  predicate AllWhole(signers: seq<Signer>) {
    forall i | 0 <= i < |signers| :: WholeSigner(signers[i])
  }

  /** Whether one of the signers that start in the first `t` bytes is refused. */
  ghost predicate AnySignerLost(signers: seq<Signer>, t: int)
    requires AllSignersFit(signers)
  {
    exists i | 0 <= i < |signers| :: SignerAt(signers, i) <= t && SignerLost(signers[i], t - SignerAt(signers, i))
  }

  /** Whether a value cut after `t` bytes is refused, by position. */
  ghost predicate ValueLost(signers: seq<Signer>, t: int)
    requires AllSignersFit(signers)
  {
    t < 4 || InHeader(AllSignerBytes(signers), t - 4) || AnySignerLost(signers, t)
  }

  /** Whether the header of some certificate is complete in the first `t` bytes. */
  ghost predicate CertificateReached(signers: seq<Signer>, t: int)
    requires AllSignersFit(signers)
  {
    exists i | 0 <= i < |signers| ::
      signers[i].certificates != [] && t >= SignerAt(signers, i) + CertificatesAt(signers[i]) + 4
  }

  /** The certificates whose header is there, with the bytes there are of them. */
  function KeptCertificates(signers: seq<Signer>, t: int): seq<seq<Byte>>
    requires AllSignersFit(signers)
  {
    if signers == [] then []
    else
      var front, last := signers[..|signers| - 1], signers[|signers| - 1];
      KeptCertificates(front, t) + KeptChunks(last.certificates, t - SignerAt(signers, |front|) - CertificatesAt(last))
  }

  lemma {:induction false} KeptOneMore(xs: seq<seq<Byte>>, x: seq<Byte>, t: int)
    ensures KeptChunks(xs + [x], t) ==
            KeptChunks(xs, t) + if t < |PrefixedAll(xs)| + 4 then [] else [First(x, t - |PrefixedAll(xs)| - 4)]
    decreases |xs|
  {
    if xs != [] && t >= 4 {
      assert (xs + [x])[1..] == xs[1..] + [x];
      KeptOneMore(xs[1..], x, t - 4 - |xs[0]|);
    }
  }

  lemma LastSigner(signers: seq<Signer>)
    requires AllSignersFit(signers) && signers != []
    ensures var front, last := signers[..|signers| - 1], signers[|signers| - 1];
      && AllSignerBytes(signers) == AllSignerBytes(front) + [SignerBytes(last)]
      && SignerAt(signers, |front|) == 8 + |PrefixedAll(AllSignerBytes(front))|
  {
    var front := signers[..|signers| - 1];
    assert AllSignerBytes(signers)[..|front|] == AllSignerBytes(front);
  }

  lemma FrontSigners(signers: seq<Signer>)
    requires AllSignersFit(signers) && signers != []
    ensures var front := signers[..|signers| - 1];
      forall i | 0 <= i < |front| :: SignerAt(signers, i) == SignerAt(front, i)
  {
    var front := signers[..|signers| - 1];
    forall i | 0 <= i < |front| ensures AllSignerBytes(signers)[..i] == AllSignerBytes(front)[..i] {
    }
  }

  lemma OneMoreSignerLost(signers: seq<Signer>, t: int)
    requires AllSignersFit(signers) && signers != []
    ensures var front, last := signers[..|signers| - 1], signers[|signers| - 1];
      && AllSignersFit(front)
      && (AnySignerLost(signers, t) <==>
            AnySignerLost(front, t) || (SignerAt(signers, |front|) <= t && SignerLost(last, t - SignerAt(signers, |front|))))
      && (CertificateReached(signers, t) <==>
            CertificateReached(front, t) || (last.certificates != [] && t >= SignerAt(signers, |front|) + CertificatesAt(last) + 4))
  {
    hide SignerLost, SignerAt, CertificatesAt, SignerFits;
    FrontSigners(signers);
    var front := signers[..|signers| - 1];
    assert forall i | 0 <= i < |front| :: front[i] == signers[i];
    assert forall i | 0 <= i < |signers| - 1 :: signers[i] == front[i];
  }

  lemma FrontIsWhole(signers: seq<Signer>)
    requires AllSignersFit(signers) && AllWhole(signers) && signers != []
    ensures AllSignersFit(signers[..|signers| - 1]) && AllWhole(signers[..|signers| - 1])
    ensures WholeSigner(signers[|signers| - 1]) && SignerFits(signers[|signers| - 1])
  {
  }

  lemma {:induction false} ReachedExactly(signers: seq<Signer>, t: int)
    requires AllSignersFit(signers)
    ensures KeptCertificates(signers, t) != [] <==> CertificateReached(signers, t)
  {
    hide SignerFits, CertificateReached, SignerAt, CertificatesAt, KeptChunks, AnySignerLost, SignerLost;
    if signers == [] {
      NoSigners(t);
    } else {
      var front, last := signers[..|signers| - 1], signers[|signers| - 1];
      OneMoreSignerLost(signers, t);
      ReachedExactly(front, t);
      SomeKeptExactly(last.certificates, t - SignerAt(signers, |front|) - CertificatesAt(last));
    }
  }

  lemma LastKept(signers: seq<Signer>, t: int)
    requires AllSignersFit(signers) && signers != []
    ensures var front, last := signers[..|signers| - 1], signers[|signers| - 1];
      var at := SignerAt(signers, |front|);
      && KeptCertificates(signers, t) == KeptCertificates(front, t) + KeptChunks(last.certificates, t - at - CertificatesAt(last))
      && (t < at ==> KeptCertificates(signers, t) == KeptCertificates(front, t))
      && KeptChunks(AllSignerBytes(signers), t - 4) ==
         KeptChunks(AllSignerBytes(front), t - 4) + if t < at then [] else [First(SignerBytes(last), t - at)]
  {
    hide KeptChunks, SignerBytes, CertificatesAt, First, SignerAt, AllSignerBytes;
    var front, last := signers[..|signers| - 1], signers[|signers| - 1];
    var at := SignerAt(signers, |front|);
    LastSigner(signers);
    KeptOneMore(AllSignerBytes(front), SignerBytes(last), t - 4);
    if t < at {
      SomeKeptExactly(last.certificates, t - at - CertificatesAt(last));
    }
  }

  lemma {:induction false} TruncatedSigners(hash: Hash, signers: seq<Signer>, t: int)
    requires AllSignersFit(signers) && AllWhole(signers)
    ensures AllSigners(hash, KeptChunks(AllSignerBytes(signers), t - 4)) ==
            if AnySignerLost(signers, t) then None else Some(Hashes(hash, KeptCertificates(signers, t)))
  {
    hide *;
    if signers == [] {
      NoSigners(t);
      NoneKept(hash, t);
    } else {
      var front, last := signers[..|signers| - 1], signers[|signers| - 1];
      var at := SignerAt(signers, |front|);
      FrontIsWhole(signers);
      OneMoreSignerLost(signers, t);
      TruncatedSigners(hash, front, t);
      LastKept(signers, t);
      if t >= at {
        TruncatedSigner(hash, last, t - at);
        OneMoreSigner(hash, KeptChunks(AllSignerBytes(front), t - 4), KeptCertificates(front, t), AnySignerLost(front, t),
                      First(SignerBytes(last), t - at), KeptChunks(last.certificates, t - at - CertificatesAt(last)), SignerLost(last, t - at));
      } else {
        Reassociate(KeptChunks(AllSignerBytes(front), t - 4), [], []);
      }
    }
  }

  lemma NoneKept(hash: Hash, t: int)
    ensures AllSigners(hash, KeptChunks([], t - 4)) == Some(Hashes(hash, KeptCertificates([], t)))
  {
  }

  lemma NoSigners(t: int)
    ensures !AnySignerLost([], t) && !CertificateReached([], t) && AllSignerBytes([]) == []
  {
  }

  lemma SomeKeptExactly(xs: seq<seq<Byte>>, t: int)
    ensures KeptChunks(xs, t) != [] <==> xs != [] && t >= 4
  {
  }

  lemma HashesAppend(hash: Hash, a: seq<seq<Byte>>, b: seq<seq<Byte>>)
    ensures Hashes(hash, a + b) == Hashes(hash, a) + Hashes(hash, b)
    ensures Hashes(hash, []) == []
  {
  }

  lemma OneMoreSigner(hash: Hash, signers: seq<seq<Byte>>, certificates: seq<seq<Byte>>, lost: bool,
                      last: seq<Byte>, more: seq<seq<Byte>>, lastLost: bool)
    requires AllSigners(hash, signers) == if lost then None else Some(Hashes(hash, certificates))
    requires SignerHashes(hash, last) == if lastLost then None else Some(Hashes(hash, more))
    ensures AllSigners(hash, signers + [last]) == if lost || lastLost then None else Some(Hashes(hash, certificates + more))
  {
    hide SignerHashes, Hashes;
    assert (signers + [last])[..|signers|] == signers;
    HashesAppend(hash, certificates, more);
  }

  /** TRUNCATION OF A V2 VALUE, AT EVERY BYTE: refused exactly when the cut falls where `ValueLost` says, or
      before the first certificate's bytes. Anywhere else what is left is hashed and accepted. */
  lemma TruncatedValue(hash: Hash, signers: seq<Signer>, extra: seq<Byte>, t: int)
    requires AllSignersFit(signers) && AllWhole(signers) && Short(PrefixedAll(AllSignerBytes(signers)))
    ensures V2Digests(hash, First(V2Value(signers, extra), t)) ==
            if ValueLost(signers, t) || !CertificateReached(signers, t) then NotAnApk
            else Ok(Hashes(hash, KeptCertificates(signers, t)))
  {
    hide Chunks, PrefixedAll, AllSigners, KeptCertificates, KeptChunks, AnySignerLost, CertificateReached, SignerBytes, InHeader, First;
    var list := AllSignerBytes(signers);
    HeadOfCut(PrefixedAll(list), extra, t);
    forall i | 0 <= i < |signers| ensures Short(list[i]) {
      assert SignerFits(signers[i]);
    }
    TruncatedList(list, t - 4);
    TruncatedSigners(hash, signers, t);
    ReachedExactly(signers, t);
  }

  lemma {:induction false} PastTheEnd(xs: seq<seq<Byte>>, t: int)
    requires t >= |PrefixedAll(xs)|
    ensures !InHeader(xs, t) && KeptChunks(xs, t) == xs
  {
    hide InHeader;
    if xs == [] {
      NotInHeaderBefore(xs, t);
    } else {
      InHeaderUnfolds(xs, t);
      PastTheEnd(xs[1..], t - 4 - |xs[0]|);
      assert xs == [xs[0]] + xs[1..];
    }
  }

  /** A cut in a signer's signatures or key, headers included, is not noticed. */
  lemma CutBehindSignedData(s: Signer, u: int)
    requires WholeSigner(s) && u >= 4 + |SignedData(s)|
    ensures !SignerLost(s, u) && KeptChunks(s.certificates, u - CertificatesAt(s)) == s.certificates
  {
    hide InHeader, KeptChunks, LittleEndian;
    PastTheEnd(Sections(s), u - 4);
    assert SignedData(s) == PrefixedAll(Sections(s));
    SectionsAreLong(s);
    PastTheEnd(s.certificates, u - CertificatesAt(s));
  }

  lemma SectionsAreLong(s: Signer)
    requires WholeSigner(s)
    ensures |SignedData(s)| >= 8 + |s.digests| + |PrefixedAll(s.certificates)|
  {
    var sections := Sections(s);
    assert sections[1..][0] == CertificateSection(s);
    assert |PrefixedAll(sections)| >= 4 + |s.digests| + |PrefixedAll(sections[1..])|;
  }

  // ---------------------------------------------------------------- pairs and the whole file

  datatype Pair = Pair(id: nat, value: seq<Byte>)

  predicate PairFits(p: Pair) {
    Fits(p.id, 4) && Fits(4 + |p.value|, 8)
  }

  function PairBytes(p: Pair): seq<Byte>
    requires PairFits(p)
  {
    LittleEndian(4 + |p.value|, 8) + LittleEndian(p.id, 4) + p.value
  }

  predicate AllPairsFit(pairs: seq<Pair>) {
    forall i | 0 <= i < |pairs| :: PairFits(pairs[i])
  }

  function PairsBytes(pairs: seq<Pair>): seq<Byte>
    requires AllPairsFit(pairs)
  {
    if pairs == [] then [] else PairBytes(pairs[0]) + PairsBytes(pairs[1..])
  }

  /** The value of the first v2 pair. */
  function FirstV2(pairs: seq<Pair>): Option<seq<Byte>> {
    if pairs == [] then None else if pairs[0].id == V2_BLOCK_ID then Some(pairs[0].value) else FirstV2(pairs[1..])
  }

  /** One pair at an offset: its two fields and its value. */
  lemma PairIsRead(before: seq<Byte>, p: Pair, after: seq<Byte>)
    requires PairFits(p)
    ensures var block, off := before + PairBytes(p) + after, |before|;
            && UnpackFrom(block, off, 8) == Some(4 + |p.value|)
            && UnpackFrom(block, off + 8, 4) == Some(p.id)
            && Slice(block, off + 12, off + 8 + (4 + |p.value|)) == p.value
            && |PairBytes(p)| == 12 + |p.value| && off < |block|
  {
    hide UnpackFrom, LittleEndian;
    var block := before + PairBytes(p) + after;
    var size, id := LittleEndian(4 + |p.value|, 8), LittleEndian(p.id, 4);
    assert block == before + size + (id + p.value + after);
    UnpackAt(block, before, 4 + |p.value|, 8, id + p.value + after);
    assert block == (before + size) + id + (p.value + after);
    UnpackAt(block, before + size, p.id, 4, p.value + after);
    assert block == (before + size + id) + (p.value + after);
    assert block[|before| + 12..|before| + 12 + |p.value|] == p.value;
  }

  lemma {:induction false} PairsAreRead(hash: Hash, before: seq<Byte>, pairs: seq<Pair>)
    requires AllPairsFit(pairs)
    ensures PairsFrom(hash, before + PairsBytes(pairs), |before|) ==
            if FirstV2(pairs).None? then NotAnApk else V2Digests(hash, FirstV2(pairs).value)
    decreases |pairs|
  {
    hide UnpackFrom, Slice, V2Digests, PairBytes;
    if pairs == [] {
      assert before + PairsBytes(pairs) == before;
    } else {
      var p, rest := pairs[0], pairs[1..];
      var block := before + PairsBytes(pairs);
      assert block == before + PairBytes(p) + PairsBytes(rest);
      PairIsRead(before, p, PairsBytes(rest));
      PairsAreRead(hash, before + PairBytes(p), rest);
    }
  }

  function SigningBlockBytes(pairs: seq<Byte>): seq<Byte>
    requires Fits(|pairs| + 24, 8)
  {
    LittleEndian(|pairs| + 24, 8) + pairs + LittleEndian(|pairs| + 24, 8) + SIG_BLOCK_MAGIC
  }

  /** The end record: signature, twelve bytes of counts and sizes, the directory's offset, the comment. */
  function EndRecord(counts: seq<Byte>, cdOffset: nat, comment: seq<Byte>): seq<Byte>
    requires |counts| == 12 && Fits(cdOffset, 4) && |comment| <= 65535
  {
    EOCD_SIGNATURE + counts + LittleEndian(cdOffset, 4) + LittleEndian(|comment|, 2) + comment
  }

  lemma {:induction false} LastSignatureIs(blob: seq<Byte>, i: int, floor: nat, at: nat)
    requires SignatureAt(blob, at) && floor <= at <= i
    requires forall k | at < k <= i :: !SignatureAt(blob, k)
    ensures LastSignature(blob, i, floor) == Some(at)
    decreases i
  {
    if i > at {
      LastSignatureIs(blob, i - 1, floor, at);
    }
  }

  /** Six stretches of bytes, cut at the second, the third, the fourth and the fifth. */
  lemma Cuts(a: seq<Byte>, b: seq<Byte>, c: seq<Byte>, d: seq<Byte>, e: seq<Byte>, f: seq<Byte>)
    ensures var whole := a + (b + c + d + e) + f;
      && whole == a + b + (c + d + e + f)
      && whole == (a + b + c) + d + (e + f)
      && whole[|a| + |b|..|a| + |b| + |c|] == c
      && whole[|a| + |b| + |c| + |d|..|a| + |b| + |c| + |d| + |e|] == e
  {
    assert a + (b + c + d + e) + f == a + b + (c + d + e + f);
    assert a + (b + c + d + e) + f == (a + b + c) + d + (e + f);
    assert a + (b + c + d + e) + f == (a + b) + c + (d + e + f);
    assert a + (b + c + d + e) + f == (a + b + c + d) + e + f;
  }

  /** The signing block in front of the central directory. */
  lemma BlockBeforeIs(body: seq<Byte>, pairs: seq<Byte>, rest: seq<Byte>)
    requires Fits(|pairs| + 24, 8)
    ensures BlockBefore(body + SigningBlockBytes(pairs) + rest, |body| + |pairs| + 32) == Ok(pairs)
  {
    hide UnpackFrom, LittleEndian;
    var size := LittleEndian(|pairs| + 24, 8);
    var blob := body + SigningBlockBytes(pairs) + rest;
    Cuts(body, size, pairs, size, SIG_BLOCK_MAGIC, rest);
    UnpackAt(blob, body, |pairs| + 24, 8, pairs + size + SIG_BLOCK_MAGIC + rest);
    UnpackAt(blob, body + size + pairs, |pairs| + 24, 8, SIG_BLOCK_MAGIC + rest);
  }

  /** The last end record decides where the block is looked for. */
  lemma EndRecordIsFound(front: seq<Byte>, counts: seq<Byte>, cdOffset: nat, comment: seq<Byte>)
    requires Fits(cdOffset, 4) && |counts| == 12 && |comment| <= 65535
    requires var blob := front + EndRecord(counts, cdOffset, comment);
             forall k | |front| < k <= |front| + |comment| :: !SignatureAt(blob, k)
    ensures BlockOf(front + EndRecord(counts, cdOffset, comment)) == BlockBefore(front + EndRecord(counts, cdOffset, comment), cdOffset)
  {
    hide BlockBefore, LastSignature, UnpackFrom, LittleEndian;
    var record := EndRecord(counts, cdOffset, comment);
    var blob, at := front + record, |front|;
    assert blob[at..at + 4] == record[..4] == EOCD_SIGNATURE;
    LastSignatureIs(blob, |blob| - 22, Floor(blob), at);
    assert blob == (front + EOCD_SIGNATURE + counts) + LittleEndian(cdOffset, 4) + (LittleEndian(|comment|, 2) + comment);
    UnpackAt(blob, front + EOCD_SIGNATURE + counts, cdOffset, 4, LittleEndian(|comment|, 2) + comment);
  }

  /** THE READER INVERTS THE FORMAT: for any zip body, pairs, central directory and comment in which no
      later end-record signature appears, the signing block's pairs come back exactly. */
  lemma SigningBlockIsFound(body: seq<Byte>, pairs: seq<Byte>, directory: seq<Byte>, counts: seq<Byte>, comment: seq<Byte>)
    requires Fits(|pairs| + 24, 8) && Fits(|body| + |pairs| + 32, 4) && |counts| == 12 && |comment| <= 65535
    requires var blob := body + SigningBlockBytes(pairs) + (directory + EndRecord(counts, |body| + |pairs| + 32, comment));
             var at := |body| + |SigningBlockBytes(pairs)| + |directory|;
             forall k | at < k <= at + |comment| :: !SignatureAt(blob, k)
    ensures BlockOf(body + SigningBlockBytes(pairs) + (directory + EndRecord(counts, |body| + |pairs| + 32, comment))) == Ok(pairs)
  {
    hide BlockOf, BlockBefore, EndRecord;
    var cdOffset := |body| + |pairs| + 32;
    var record := EndRecord(counts, cdOffset, comment);
    var front := body + SigningBlockBytes(pairs) + directory;
    assert body + SigningBlockBytes(pairs) + (directory + record) == front + record;
    EndRecordIsFound(front, counts, cdOffset, comment);
    BlockBeforeIs(body, pairs, directory + record);
  }

  /** The digests of a file are those of its first v2 pair's value. */
  lemma FileIsItsFirstValue(hash: Hash, body: seq<Byte>, pairs: seq<Pair>, directory: seq<Byte>, counts: seq<Byte>, comment: seq<Byte>)
    requires AllPairsFit(pairs)
    requires Fits(|PairsBytes(pairs)| + 24, 8) && Fits(|body| + |PairsBytes(pairs)| + 32, 4) && |counts| == 12 && |comment| <= 65535
    requires var block := SigningBlockBytes(PairsBytes(pairs));
             var blob := body + block + (directory + EndRecord(counts, |body| + |PairsBytes(pairs)| + 32, comment));
             var at := |body| + |block| + |directory|;
             forall k | at < k <= at + |comment| :: !SignatureAt(blob, k)
    ensures var blob := body + SigningBlockBytes(PairsBytes(pairs)) + (directory + EndRecord(counts, |body| + |PairsBytes(pairs)| + 32, comment));
            DigestsOf(hash, blob) == if FirstV2(pairs).None? then NotAnApk else V2Digests(hash, FirstV2(pairs).value)
  {
    hide BlockOf, PairsFrom, V2Digests, SigningBlockBytes, EndRecord;
    SigningBlockIsFound(body, PairsBytes(pairs), directory, counts, comment);
    PairsAreRead(hash, [], pairs);
    assert [] + PairsBytes(pairs) == PairsBytes(pairs);
  }

  /** ... AND EVERY CERTIFICATE IS HASHED, through three levels of length prefixes: the digests of a file
      whose first v2 pair carries some signers are the hashes of every signer's certificates, in order,
      the short remains of a clipped last one included. The file is refused exactly when it has no v2 pair,
      when the pair carries no certificate, or when a signer's certificates or sections stop in a header. */
  lemma EveryCertificateIsHashed(hash: Hash, body: seq<Byte>, pairs: seq<Pair>, signers: seq<Signer>, extra: seq<Byte>,
                                 directory: seq<Byte>, counts: seq<Byte>, comment: seq<Byte>)
    requires AllPairsFit(pairs)
    requires Fits(|PairsBytes(pairs)| + 24, 8) && Fits(|body| + |PairsBytes(pairs)| + 32, 4) && |counts| == 12 && |comment| <= 65535
    requires AllSignersFit(signers)
    requires FirstV2(pairs).Some? ==> FirstV2(pairs).value == V2Value(signers, extra)
    requires Short(PrefixedAll(AllSignerBytes(signers)))
    requires var block := SigningBlockBytes(PairsBytes(pairs));
             var blob := body + block + (directory + EndRecord(counts, |body| + |PairsBytes(pairs)| + 32, comment));
             var at := |body| + |block| + |directory|;
             forall k | at < k <= at + |comment| :: !SignatureAt(blob, k)
    ensures var blob := body + SigningBlockBytes(PairsBytes(pairs)) + (directory + EndRecord(counts, |body| + |PairsBytes(pairs)| + 32, comment));
            DigestsOf(hash, blob) ==
            if FirstV2(pairs).None? || AnySignerIsCut(signers) || CertificateHashes(hash, signers) == [] then NotAnApk
            else Ok(CertificateHashes(hash, signers))
  {
    hide DigestsOf, V2Digests, SigningBlockBytes, EndRecord, PrefixedAll, CertificateHashes, AnySignerIsCut, AllSignersFit;
    FileIsItsFirstValue(hash, body, pairs, directory, counts, comment);
    V2ValueIsRead(hash, signers, extra);
  }

  /** The same of a file whose v2 pair holds only the first `t` bytes of a value. */
  lemma TruncatedValueInAFile(hash: Hash, body: seq<Byte>, pairs: seq<Pair>, signers: seq<Signer>, extra: seq<Byte>, t: int,
                              directory: seq<Byte>, counts: seq<Byte>, comment: seq<Byte>)
    requires AllPairsFit(pairs)
    requires Fits(|PairsBytes(pairs)| + 24, 8) && Fits(|body| + |PairsBytes(pairs)| + 32, 4) && |counts| == 12 && |comment| <= 65535
    requires AllSignersFit(signers) && AllWhole(signers) && Short(PrefixedAll(AllSignerBytes(signers)))
    requires FirstV2(pairs) == Some(First(V2Value(signers, extra), t))
    requires var block := SigningBlockBytes(PairsBytes(pairs));
             var blob := body + block + (directory + EndRecord(counts, |body| + |PairsBytes(pairs)| + 32, comment));
             var at := |body| + |block| + |directory|;
             forall k | at < k <= at + |comment| :: !SignatureAt(blob, k)
    ensures var blob := body + SigningBlockBytes(PairsBytes(pairs)) + (directory + EndRecord(counts, |body| + |PairsBytes(pairs)| + 32, comment));
            DigestsOf(hash, blob) ==
            if ValueLost(signers, t) || !CertificateReached(signers, t) then NotAnApk
            else Ok(Hashes(hash, KeptCertificates(signers, t)))
  {
    hide DigestsOf, V2Digests, SigningBlockBytes, EndRecord, PrefixedAll, KeptCertificates, ValueLost, CertificateReached, AllSignersFit, First;
    FileIsItsFirstValue(hash, body, pairs, directory, counts, comment);
    TruncatedValue(hash, signers, extra, t);
  }

  // ---------------------------------------------------------------- what escapes the reader

  /** The last end record within reach is at `i`, and names `cdOffset`. */
  ghost predicate EndRecordNames(blob: seq<Byte>, i: nat, cdOffset: nat) {
    && SignatureAt(blob, i) && Floor(blob) <= i <= |blob| - 22
    && (forall k | i < k <= |blob| - 22 :: !SignatureAt(blob, k))
    && cdOffset == FromLittleEndian(blob[i + 16..i + 20])
  }

  predicate MagicBefore(blob: seq<Byte>, cdOffset: nat) {
    16 <= cdOffset <= |blob| && blob[cdOffset - 16..cdOffset] == SIG_BLOCK_MAGIC
  }

  /** The size in front of the magic; at an offset of 16 Python reads it from the end of the file. */
  function TrailingSize(blob: seq<Byte>, cdOffset: nat): nat
    requires |blob| >= 8 && (cdOffset == 16 || 24 <= cdOffset <= |blob|)
  {
    FromLittleEndian(if cdOffset == 16 then blob[|blob| - 8..] else blob[cdOffset - 24..cdOffset - 16])
  }

  /** There is no trailing size to read, or it leads to a leading size that hangs over the start of the
      file or lies before its mirror image. */
  ghost predicate SizesUnreadable(blob: seq<Byte>, cdOffset: nat)
    requires |blob| >= 22 && MagicBefore(blob, cdOffset)
  {
    || 16 < cdOffset < 24
    || cdOffset - 8 < TrailingSize(blob, cdOffset) < cdOffset
    || cdOffset - 8 + |blob| < TrailingSize(blob, cdOffset) <= cdOffset - 8 + MOST_BACKWARD
  }

  ghost predicate SizeOverflows(blob: seq<Byte>, cdOffset: nat)
    requires |blob| >= 22 && MagicBefore(blob, cdOffset)
  {
    !(16 < cdOffset < 24) && TrailingSize(blob, cdOffset) > cdOffset - 8 + MOST_BACKWARD
  }

  lemma MagicExactly(blob: seq<Byte>, cdOffset: nat)
    requires |blob| >= 22
    ensures Slice(blob, cdOffset - 16, cdOffset) == SIG_BLOCK_MAGIC <==> MagicBefore(blob, cdOffset)
  {
    assert |SIG_BLOCK_MAGIC| == 16;
  }

  lemma BlockBeforeRaisesExactly(blob: seq<Byte>, cdOffset: nat)
    requires 22 <= |blob| <= MOST_BACKWARD
    ensures BlockBefore(blob, cdOffset).StructError? <==> MagicBefore(blob, cdOffset) && SizesUnreadable(blob, cdOffset)
    ensures BlockBefore(blob, cdOffset).OverflowError? <==> MagicBefore(blob, cdOffset) && SizeOverflows(blob, cdOffset)
  {
    hide FromLittleEndian;
    MagicExactly(blob, cdOffset);
    if MagicBefore(blob, cdOffset) && !(16 < cdOffset < 24) {
      assert blob[|blob| - 8..] == blob[|blob| - 8..|blob|];
    }
  }

  lemma {:induction false} LastSignatureExactly(blob: seq<Byte>, i: int, floor: nat)
    ensures match LastSignature(blob, i, floor)
            case None => forall k | floor <= k <= i :: !SignatureAt(blob, k)
            case Some(at) => floor <= at <= i && SignatureAt(blob, at) && forall k | at < k <= i :: !SignatureAt(blob, k)
    decreases i
  {
    if i >= floor && i != 0 && !SignatureAt(blob, i) {
      LastSignatureExactly(blob, i - 1, floor);
    }
  }

  /** WHEN THE SCAN FOR THE BLOCK RAISES, for every file: struct.error when the sizes around the block cannot
      be read, OverflowError when the trailing one is near its maximum. */
  lemma BlockRaisesExactly(blob: seq<Byte>)
    requires |blob| <= MOST_BACKWARD
    ensures BlockOf(blob).StructError? <==>
              exists i: nat, cdOffset: nat | EndRecordNames(blob, i, cdOffset) :: MagicBefore(blob, cdOffset) && SizesUnreadable(blob, cdOffset)
    ensures BlockOf(blob).OverflowError? <==>
              exists i: nat, cdOffset: nat | EndRecordNames(blob, i, cdOffset) :: MagicBefore(blob, cdOffset) && SizeOverflows(blob, cdOffset)
  {
    hide LastSignature, BlockBefore, FromLittleEndian, SizesUnreadable, SizeOverflows, MagicBefore;
    LastSignatureExactly(blob, |blob| - 22, Floor(blob));
    var found := LastSignature(blob, |blob| - 22, Floor(blob));
    if found.Some? {
      var i := found.value;
      var cdOffset := FromLittleEndian(blob[i + 16..i + 20]);
      assert EndRecordNames(blob, i, cdOffset);
      BlockBeforeRaisesExactly(blob, cdOffset);
      forall j: nat, named: nat | EndRecordNames(blob, j, named) ensures j == i && named == cdOffset {
      }
    }
  }

  /** A trailing size that leads further back than an offset can say raises OverflowError, whatever stands
      in front of it and behind the magic. */
  lemma OversizedTrailerEscapes(hash: Hash, body: seq<Byte>, size: nat, directory: seq<Byte>, counts: seq<Byte>, comment: seq<Byte>,
                                front: seq<Byte>, blob: seq<Byte>)
    requires Fits(size, 8) && size > |body| + 16 + MOST_BACKWARD
    requires Fits(|body| + 24, 4) && |counts| == 12 && |comment| <= 65535
    requires front == body + LittleEndian(size, 8) + SIG_BLOCK_MAGIC + directory
    requires blob == front + EndRecord(counts, |body| + 24, comment)
    requires forall k | |front| < k <= |front| + |comment| :: !SignatureAt(blob, k)
    ensures DigestsOf(hash, blob) == OverflowError
  {
    hide BlockOf, UnpackFrom, LittleEndian, EndRecord;
    var cdOffset := |body| + 24;
    var after := directory + EndRecord(counts, cdOffset, comment);
    EndRecordIsFound(front, counts, cdOffset, comment);
    assert blob == body + LittleEndian(size, 8) + (SIG_BLOCK_MAGIC + after);
    UnpackAt(blob, body, size, 8, SIG_BLOCK_MAGIC + after);
    assert blob[|body| + 8..cdOffset] == SIG_BLOCK_MAGIC;
  }

  /** The pair loop, started at `off`, comes to `at`: over pairs with whole headers, none of them v2. */
  ghost predicate ComesTo(block: seq<Byte>, off: nat, at: nat)
    decreases if off <= |block| then |block| - off else 0
  {
    || at == off
    || (off + 12 <= |block|
        && FromLittleEndian(block[off + 8..off + 12]) != V2_BLOCK_ID
        && ComesTo(block, off + 8 + FromLittleEndian(block[off..off + 8]), at))
  }

  lemma ComesToHere(block: seq<Byte>, off: nat)
    ensures ComesTo(block, off, off)
  {
  }

  /** The pair loop comes to fewer than twelve bytes. */
  ghost predicate ComesToACutPair(block: seq<Byte>, off: nat) {
    exists at: nat | at < |block| < at + 12 :: ComesTo(block, off, at)
  }

  lemma CutPairUnfolds(block: seq<Byte>, off: nat)
    ensures off < |block| < off + 12 ==> ComesToACutPair(block, off)
    ensures off >= |block| ==> !ComesToACutPair(block, off)
    ensures off + 12 <= |block| ==>
              (ComesToACutPair(block, off) <==>
                 && FromLittleEndian(block[off + 8..off + 12]) != V2_BLOCK_ID
                 && ComesToACutPair(block, off + 8 + FromLittleEndian(block[off..off + 8])))
  {
    hide FromLittleEndian;
    if off < |block| < off + 12 {
      assert ComesTo(block, off, off);
      assert ComesToACutPair(block, off);
    } else if off < |block| {
      var next := off + 8 + FromLittleEndian(block[off..off + 8]);
      if ComesToACutPair(block, off) {
        var at: nat :| at < |block| < at + 12 && ComesTo(block, off, at);
        assert ComesTo(block, next, at);
      }
      if ComesToACutPair(block, next) {
        var at: nat :| at < |block| < at + 12 && ComesTo(block, next, at);
        assert FromLittleEndian(block[off + 8..off + 12]) != V2_BLOCK_ID ==> ComesTo(block, off, at);
      }
    }
  }

  /** WHEN THE PAIR LOOP RAISES, for every block: it comes to fewer than twelve bytes. */
  lemma {:induction false} PairsRaiseExactly(hash: Hash, block: seq<Byte>, off: nat)
    ensures PairsFrom(hash, block, off).StructError? <==> ComesToACutPair(block, off)
    ensures !PairsFrom(hash, block, off).OverflowError?
    decreases if off <= |block| then |block| - off else 0
  {
    hide V2Digests, FromLittleEndian, PairsFrom, ComesToACutPair;
    PairsUnfold(hash, block, off);
    CutPairUnfolds(block, off);
    if off < |block| < off + 12 {
      assert UnpackFrom(block, off + 8, 4).None?;
    } else if off < |block| {
      var size, id := FromLittleEndian(block[off..off + 8]), FromLittleEndian(block[off + 8..off + 12]);
      assert UnpackFrom(block, off, 8) == Some(size) && UnpackFrom(block, off + 8, 4) == Some(id);
      ValueRefusedExactly(hash, Slice(block, off + 12, off + 8 + size));
      PairsRaiseExactly(hash, block, off + 8 + size);
    }
  }

  /** WHEN A FILE RAISES INSTEAD OF BEING REFUSED, in all. */
  lemma FileRaisesExactly(hash: Hash, blob: seq<Byte>)
    requires |blob| <= MOST_BACKWARD
    ensures DigestsOf(hash, blob).OverflowError? <==>
              exists i: nat, cdOffset: nat | EndRecordNames(blob, i, cdOffset) :: MagicBefore(blob, cdOffset) && SizeOverflows(blob, cdOffset)
    ensures DigestsOf(hash, blob).StructError? <==>
      || (exists i: nat, cdOffset: nat | EndRecordNames(blob, i, cdOffset) :: MagicBefore(blob, cdOffset) && SizesUnreadable(blob, cdOffset))
      || (BlockOf(blob).Ok? && ComesToACutPair(BlockOf(blob).value, 0))
  {
    hide BlockOf, PairsFrom, EndRecordNames, MagicBefore, SizesUnreadable, SizeOverflows, ComesToACutPair;
    BlockRaisesExactly(blob);
    if BlockOf(blob).Ok? {
      PairsRaiseExactly(hash, BlockOf(blob).value, 0);
    }
  }
}
