/**
 The two ends of the bond as a state machine: each end restarts on its own with a rung and one or two
 keys, and the documented orders - climbing the ladder, rotating the key, rolling either back - must
 never cut the link.
 */
module Bond {
  import opened ByteStrings
  import opened Auth

  type Secret = seq<Byte>
  /** SHA-256 over the bond label and the secret. */
  type Kdf = Secret -> Key

  const MIN_BOND_SECRET := 16
  const PREVIOUS_KEY_SUFFIX := ".previous"

  // ---------------------------------------------------------------- loading the credential

  datatype KeyFile = KeyFile(mode: nat, content: seq<Byte>)

  datatype Refusal = KeyWithAuthOff | NoKeyFile | FileMissing | ReadableByOthers | TooShort | PeerIdZero | PeerIdOutOfRange

  datatype Loaded<+T> = Loaded(value: T) | Refused(why: Refusal)

  predicate IsSpace(b: Byte) {
    b == 32 || 9 <= b <= 13
  }

  function TrimLeft(s: seq<Byte>): seq<Byte> {
    if s != [] && IsSpace(s[0]) then TrimLeft(s[1..]) else s
  }

  function TrimRight(s: seq<Byte>): seq<Byte> {
    if s != [] && IsSpace(s[|s| - 1]) then TrimRight(s[..|s| - 1]) else s
  }

  function Trim(s: seq<Byte>): seq<Byte> {
    TrimRight(TrimLeft(s))
  }

  function LoadSecret(files: map<string, KeyFile>, path: string): Loaded<Secret> {
    if path !in files then Refused(FileMissing)
    else if files[path].mode % 64 != 0 then Refused(ReadableByOthers)
    else
      var secret := Trim(files[path].content);
      if |secret| < MIN_BOND_SECRET then Refused(TooShort) else Loaded(secret)
  }

  function LoadPreviousSecret(files: map<string, KeyFile>, keyFile: string): Loaded<Option<Secret>> {
    match LoadSecret(files, keyFile + PREVIOUS_KEY_SUFFIX)
    case Loaded(secret) => Loaded(Some(secret))
    case Refused(FileMissing) => Loaded(None)
    case Refused(why) => Refused(why)
  }

  function BuildIdentity(kdf: Kdf, level: Level, keyFile: string, peerId: int, files: map<string, KeyFile>): Loaded<Option<Identity>> {
    if level.Off? then
      if keyFile != "" then Refused(KeyWithAuthOff) else Loaded(None)
    else if keyFile == "" then Refused(NoKeyFile)
    else
      match LoadSecret(files, keyFile)
      case Refused(why) => Refused(why)
      case Loaded(secret) =>
        match LoadPreviousSecret(files, keyFile)
        case Refused(why) => Refused(why)
        case Loaded(previous) =>
          if peerId == 0 then Refused(PeerIdZero)
          else if !(0 < peerId <= 0xFFFF_FFFF) then Refused(PeerIdOutOfRange)
          else
            Loaded(Some(Identity(peerId, kdf(secret), if previous.Some? then Some(kdf(previous.value)) else None)))
  }

  /** Whitespace the file was written with, at either side, never reaches the key. */
  lemma {:induction false} TrimIgnoresPadding(before: seq<Byte>, s: seq<Byte>, after: seq<Byte>)
    requires forall b | b in before :: IsSpace(b)
    requires forall b | b in after :: IsSpace(b)
    requires s != [] && !IsSpace(s[0]) && !IsSpace(s[|s| - 1])
    ensures Trim(before + s + after) == s
    decreases |before| + |after|
  {
    var whole := before + s + after;
    if before != [] {
      assert whole[1..] == before[1..] + s + after;
      TrimIgnoresPadding(before[1..], s, after);
    } else {
      assert whole == s + after && whole[0] == s[0];
      TrimRightDropsPadding(s, after);
    }
  }

  lemma {:induction false} TrimRightDropsPadding(s: seq<Byte>, after: seq<Byte>)
    requires forall b | b in after :: IsSpace(b)
    requires s != [] && !IsSpace(s[|s| - 1])
    ensures TrimRight(s + after) == s
  {
    var whole := s + after;
    if after != [] {
      assert whole[..|whole| - 1] == s + after[..|after| - 1];
      TrimRightDropsPadding(s, after[..|after| - 1]);
    } else {
      assert whole == s;
    }
  }

  // ---------------------------------------------------------------- the two ends

  /** One running end: its rung, and the secrets its key files held when it started. */
  datatype End = End(level: Level, current: Secret, previous: Option<Secret>)

  datatype Pair = Pair(home: End, router: End)

  predicate IsSecret(s: Secret) {
    |s| >= MIN_BOND_SECRET && !IsSpace(s[0]) && !IsSpace(s[|s| - 1])
  }

  predicate HoldsSecrets(e: End) {
    IsSecret(e.current) && (e.previous.Some? ==> IsSecret(e.previous.value))
  }

  /** The credential an end runs with. */
  function IdentityOf(kdf: Kdf, peerId: int, e: End): Option<Identity> {
    if e.level.Off? then None
    else Some(Identity(peerId, kdf(e.current), if e.previous.Some? then Some(kdf(e.previous.value)) else None))
  }

  /** A key file no one else may read, holding a secret with any whitespace around it. */
  ghost predicate FileHolds(files: map<string, KeyFile>, path: string, secret: Secret) {
    && path in files && files[path].mode % 64 == 0
    && exists before, after | files[path].content == before + secret + after ::
         (forall b | b in before + after :: IsSpace(b))
  }

  /** An end's key files as the operator leaves them, each in its own way. */
  ghost predicate FilesHold(files: map<string, KeyFile>, keyFile: string, e: End) {
    && FileHolds(files, keyFile, e.current)
    && (if e.previous.Some? then FileHolds(files, keyFile + PREVIOUS_KEY_SUFFIX, e.previous.value)
        else keyFile + PREVIOUS_KEY_SUFFIX !in files)
  }

  lemma FileIsLoaded(files: map<string, KeyFile>, path: string, secret: Secret)
    requires FileHolds(files, path, secret) && IsSecret(secret)
    ensures LoadSecret(files, path) == Loaded(secret)
  {
    var before, after :| files[path].content == before + secret + after && forall b | b in before + after :: IsSpace(b);
    TrimIgnoresPadding(before, secret, after);
  }

  /** Restarting an end loads exactly the credential the state machine says it runs with. */
  lemma RestartLoadsTheFiles(kdf: Kdf, peerId: int, e: End, keyFile: string, files: map<string, KeyFile>)
    requires 0 < peerId <= 0xFFFF_FFFF
    requires HoldsSecrets(e) && FilesHold(files, keyFile, e) && keyFile != ""
    ensures BuildIdentity(kdf, e.level, if e.level.Off? then "" else keyFile, peerId, files) == Loaded(IdentityOf(kdf, peerId, e))
  {
    hide LoadSecret, FileHolds, IsSecret;
    FileIsLoaded(files, keyFile, e.current);
    if e.previous.Some? {
      FileIsLoaded(files, keyFile + PREVIOUS_KEY_SUFFIX, e.previous.value);
    } else {
      MissingIsRefused(files, keyFile + PREVIOUS_KEY_SUFFIX);
    }
  }

  lemma MissingIsRefused(files: map<string, KeyFile>, path: string)
    requires path !in files
    ensures LoadSecret(files, path) == Refused(FileMissing)
  {
  }

  lemma {:induction false} TrimLeftIs(s: seq<Byte>) returns (before: seq<Byte>)
    ensures s == before + TrimLeft(s) && forall b | b in before :: IsSpace(b)
    ensures TrimLeft(s) != [] ==> !IsSpace(TrimLeft(s)[0])
  {
    before := [];
    if s != [] && IsSpace(s[0]) {
      var rest := TrimLeftIs(s[1..]);
      before := [s[0]] + rest;
      hide TrimLeft, IsSpace;
      assert s == [s[0]] + s[1..];
      Reassociate([s[0]], rest, TrimLeft(s[1..]));
    } else {
      assert s == [] + s;
    }
  }

  lemma {:induction false} TrimRightIs(s: seq<Byte>) returns (after: seq<Byte>)
    ensures s == TrimRight(s) + after && forall b | b in after :: IsSpace(b)
    ensures TrimRight(s) != [] ==> !IsSpace(TrimRight(s)[|TrimRight(s)| - 1]) && TrimRight(s)[0] == s[0]
  {
    after := [];
    if s != [] && IsSpace(s[|s| - 1]) {
      var rest := TrimRightIs(s[..|s| - 1]);
      after := rest + [s[|s| - 1]];
      hide TrimRight, IsSpace;
      assert s == s[..|s| - 1] + [s[|s| - 1]];
      Reassociate(TrimRight(s[..|s| - 1]), rest, [s[|s| - 1]]);
    } else {
      assert s == s + [];
    }
  }

  /** A SECRET IS LOADED EXACTLY from a file no one else may read that holds it, 16 bytes or longer, with any
      whitespace around it. */
  lemma SecretExactly(files: map<string, KeyFile>, path: string, secret: Secret)
    ensures LoadSecret(files, path) == Loaded(secret) <==> FileHolds(files, path, secret) && IsSecret(secret)
    ensures LoadSecret(files, path) == Refused(FileMissing) <==> path !in files
    ensures LoadSecret(files, path) == Refused(ReadableByOthers) <==> path in files && files[path].mode % 64 != 0
    ensures LoadSecret(files, path) in {Refused(FileMissing), Refused(ReadableByOthers), Refused(TooShort)} <==> LoadSecret(files, path).Refused?
  {
    if FileHolds(files, path, secret) && IsSecret(secret) {
      FileIsLoaded(files, path, secret);
    }
    if LoadSecret(files, path) == Loaded(secret) {
      var content := files[path].content;
      var before := TrimLeftIs(content);
      var after := TrimRightIs(TrimLeft(content));
      assert content == before + secret + after;
    }
  }

  /** An end is given a credential at all. */
  ghost predicate MayLoad(level: Level, keyFile: string, peerId: int) {
    !level.Off? && keyFile != "" && 0 < peerId <= 0xFFFF_FFFF
  }

  /** A CREDENTIAL IS BUILT EXACTLY from a rung above off, a key file that holds a secret, a retired one that holds
      one too or is absent, and a peer id in range; and none exactly from the off rung without a key file. */
  lemma IdentityExactly(kdf: Kdf, level: Level, keyFile: string, peerId: int, files: map<string, KeyFile>)
    ensures var built, retired := BuildIdentity(kdf, level, keyFile, peerId, files), keyFile + PREVIOUS_KEY_SUFFIX;
      && (built == Loaded(None) <==> level.Off? && keyFile == "")
      && (built == Refused(KeyWithAuthOff) <==> level.Off? && keyFile != "")
      && (built == Refused(NoKeyFile) <==> !level.Off? && keyFile == "")
      && (built in {Refused(PeerIdZero), Refused(PeerIdOutOfRange)} ==> (built == Refused(PeerIdZero) <==> peerId == 0))
      && (built.Loaded? && built.value.Some? <==>
            && MayLoad(level, keyFile, peerId) && LoadSecret(files, keyFile).Loaded?
            && (retired !in files || LoadSecret(files, retired).Loaded?))
      && (built.Loaded? && built.value.Some? ==>
            && built.value.value.clientId == peerId && built.value.value.key == kdf(LoadSecret(files, keyFile).value)
            && built.value.value.previousKey == if retired in files then Some(kdf(LoadSecret(files, retired).value)) else None)
  {
    hide FileHolds, IsSecret;
    SecretExactly(files, keyFile, []);
    SecretExactly(files, keyFile + PREVIOUS_KEY_SUFFIX, []);
    hide LoadSecret;
  }

  // ---------------------------------------------------------------- steps

  function Gap(p: Pair): nat {
    var h, r := p.home.level.Rung(), p.router.level.Rung();
    if h < r then r - h else h - r
  }

  predicate OneRung(a: Level, b: Level) {
    a.Rung() == b.Rung() + 1 || b.Rung() == a.Rung() + 1
  }

  /** One end moves one rung, up or down, and the ends stay within one rung of each other. */
  predicate LadderMove(s: Pair, t: Pair) {
    && Gap(t) <= 1
    && (|| (t.router == s.router && OneRung(s.home.level, t.home.level) && t.home == s.home.(level := t.home.level))
        || (t.home == s.home && OneRung(s.router.level, t.router.level) && t.router == s.router.(level := t.router.level)))
  }

  /** Where a rotation stands. Every phase is a fact about the four key files and nothing else. */
  datatype Phase = Steady | Offered | Swapped | Adopted

  predicate InPhase(p: Pair, phase: Phase) {
    match phase
    case Steady => p.home.current == p.router.current && p.home.previous.None? && p.router.previous.None?
    case Offered => p.home.current == p.router.current && p.home.previous.Some? && p.router.previous.None?
    case Swapped => p.home.previous == Some(p.router.current) && p.router.previous == Some(p.home.current)
    case Adopted => p.home.current == p.router.current && p.home.previous.None? && p.router.previous.Some?
  }

  /** The four documented steps of a rotation, each one end's files changed and that end restarted. */
  predicate RotationStep(s: Pair, t: Pair) {
    // 1. home: the NEW secret, any secret, goes to .previous
    || (&& InPhase(s, Steady) && t.router == s.router
        && t.home.previous.Some? && t.home == s.home.(previous := t.home.previous))
    // 2. router: NEW to current, OLD to .previous
    || (&& InPhase(s, Offered) && t.home == s.home
        && t.router == s.router.(current := s.home.previous.value, previous := Some(s.router.current)))
    // 3. home: NEW to current, .previous removed
    || (&& InPhase(s, Swapped) && t.router == s.router
        && t.home == s.home.(current := s.home.previous.value, previous := None))
    // 4. router: .previous removed
    || (&& InPhase(s, Adopted) && t.home == s.home && t.router == s.router.(previous := None))
  }

  /** A step taken, or a step rolled back by restoring that end's files. */
  predicate Step(s: Pair, t: Pair) {
    LadderMove(s, t) || RotationStep(s, t) || RotationStep(t, s)
  }

  /** What every state reachable from an agreed key and adjacent rungs satisfies. */
  predicate Agreed(p: Pair) {
    Gap(p) <= 1 && (InPhase(p, Steady) || InPhase(p, Offered) || InPhase(p, Swapped) || InPhase(p, Adopted))
  }

  ghost predicate IsRun(run: seq<Pair>) {
    |run| > 0 && Agreed(run[0]) && forall i | 0 <= i < |run| - 1 :: Step(run[i], run[i + 1])
  }

  // ---------------------------------------------------------------- the link carries

  /** Whatever encodable frame `from` emits, `to` accepts as that frame, counted as authenticated
      exactly when `from` signs. */
  ghost predicate Carries(mac: Mac, kdf: Kdf, peerId: int, from: End, to: End, f: Frame) {
    var packed := PackAuth(mac, f, IdentityOf(kdf, peerId, from), from.level);
    packed.Ok? &&
    UnpackAuth(mac, packed.value, IdentityOf(kdf, peerId, to), to.level)
      == Ok((f.(clientId := if from.level.Signs() then peerId else 0), from.level.Signs()))
  }

  ghost predicate CarriesBothWays(mac: Mac, kdf: Kdf, peerId: int, p: Pair, f: Frame) {
    Carries(mac, kdf, peerId, p.home, p.router, f) && Carries(mac, kdf, peerId, p.router, p.home, f)
  }

  /** The rungs allow the sender's format. */
  predicate RungsAllow(from: Level, to: Level) {
    if from.Signs() then to.Verifies() else to.AcceptsLegacy()
  }

  /** The tag the receiver would compute, under either key it holds, for a frame as the sender signs it. */
  ghost predicate TagMatches(mac: Mac, kdf: Kdf, peerId: int, to: End, key: Secret, f: Frame)
    requires Encodable(f) && Fits(peerId, 4)
  {
    var message := SignedHeader(f, peerId) + f.payload;
    || mac(kdf(to.current), message) == mac(kdf(key), message)
    || (to.previous.Some? && mac(kdf(to.previous.value), message) == mac(kdf(key), message))
  }

  /** Exactly when a frame emitted by one end is accepted by the other: the rungs allow the format, and
      a signed frame's tag matches one of the receiver's keys. */
  lemma CarriesExactly(mac: Mac, kdf: Kdf, peerId: int, from: End, to: End, f: Frame)
    requires Encodable(f) && Fits(peerId, 4)
    ensures Carries(mac, kdf, peerId, from, to, f) <==>
            RungsAllow(from.level, to.level) && (from.level.Signs() ==> TagMatches(mac, kdf, peerId, to, from.current, f))
  {
    Pow256Values();
    var sender, receiver := IdentityOf(kdf, peerId, from), IdentityOf(kdf, peerId, to);
    var raw := PackAuth(mac, f, sender, from.level).value;
    var signs := from.level.Signs();
    var g := f.(clientId := if signs then peerId else 0);
    AcceptedExactly(mac, raw, receiver, to.level, g, signs);
    if signs {
      assert SignedHeader(f, peerId) == SignedHeader(g, peerId);
      assert IsSealed(mac, raw, g, kdf(from.current));
      SealedSlices(mac, raw, g, kdf(from.current));
      SealsAlikeExactly(mac, raw, g, kdf(from.current), kdf(to.current));
      if to.previous.Some? {
        SealsAlikeExactly(mac, raw, g, kdf(from.current), kdf(to.previous.value));
      }
    } else {
      assert IsPlain(raw, g);
    }
  }

  /** A sealed datagram is also sealed under another key exactly when the two tags coincide. */
  lemma SealsAlikeExactly(mac: Mac, raw: seq<Byte>, f: Frame, key: Key, other: Key)
    requires IsSealed(mac, raw, f, key)
    ensures IsSealed(mac, raw, f, other) <==>
            mac(key, SignedHeader(f, f.clientId) + f.payload) == mac(other, SignedHeader(f, f.clientId) + f.payload)
  {
    SealedSlices(mac, raw, f, key);
    if IsSealed(mac, raw, f, other) {
      SealedSlices(mac, raw, f, other);
    }
  }

  /** THE ONE RULE: two ends holding the same key interoperate in both directions exactly when their
      rungs are at most one apart. No assumption about the MAC is needed for either half. */
  lemma InteroperateExactlyWhenAdjacent(mac: Mac, kdf: Kdf, peerId: int, p: Pair, f: Frame)
    requires Encodable(f) && Fits(peerId, 4)
    requires p.home.current == p.router.current
    ensures CarriesBothWays(mac, kdf, peerId, p, f) <==> Gap(p) <= 1
  {
    CarriesExactly(mac, kdf, peerId, p.home, p.router, f);
    CarriesExactly(mac, kdf, peerId, p.router, p.home, f);
  }

  lemma StepKeepsAgreement(s: Pair, t: Pair)
    requires Agreed(s) && Step(s, t)
    ensures Agreed(t)
    ensures t.home == s.home || t.router == s.router
  {
  }

  lemma AgreedCarries(mac: Mac, kdf: Kdf, peerId: int, p: Pair, f: Frame)
    requires Encodable(f) && Fits(peerId, 4) && Agreed(p)
    ensures CarriesBothWays(mac, kdf, peerId, p, f)
  {
    CarriesExactly(mac, kdf, peerId, p.home, p.router, f);
    CarriesExactly(mac, kdf, peerId, p.router, p.home, f);
  }

  /** NO RUN EVER CUTS THE BOND. Over any number of ladder moves and rotations, interleaved, with any
      step rolled back: in every state each end accepts every frame the other emits, and a frame that
      is still in flight while either end takes one more step is accepted after it. */
  lemma {:induction false} NoRunCutsTheBond(mac: Mac, kdf: Kdf, peerId: int, run: seq<Pair>, i: nat, f: Frame)
    requires Encodable(f) && Fits(peerId, 4)
    requires IsRun(run) && i < |run|
    ensures Agreed(run[i]) && CarriesBothWays(mac, kdf, peerId, run[i], f)
    ensures i + 1 < |run| ==> Carries(mac, kdf, peerId, run[i].home, run[i + 1].router, f)
    ensures i + 1 < |run| ==> Carries(mac, kdf, peerId, run[i].router, run[i + 1].home, f)
  {
    if i > 0 {
      NoRunCutsTheBond(mac, kdf, peerId, run, i - 1, f);
      StepKeepsAgreement(run[i - 1], run[i]);
    }
    AgreedCarries(mac, kdf, peerId, run[i], f);
    if i + 1 < |run| {
      StepKeepsAgreement(run[i], run[i + 1]);
      AgreedCarries(mac, kdf, peerId, run[i + 1], f);
    }
  }

  // ---------------------------------------------------------------- one step is the exact bound

  /** The keys of the two ends give different tags on this frame. */
  ghost predicate TagsDiffer(mac: Mac, kdf: Kdf, peerId: int, a: Secret, b: Secret, f: Frame)
    requires Encodable(f) && Fits(peerId, 4)
  {
    mac(kdf(a), SignedHeader(f, peerId) + f.payload) != mac(kdf(b), SignedHeader(f, peerId) + f.payload)
  }

  /** A frame delayed across TWO rotation steps: with distinct tags it is refused in exactly two cases,
      the router's signed frame sent when the new key had only been offered, and home's signed frame sent
      just before home adopted it. */
  lemma TwoStepsExactly(mac: Mac, kdf: Kdf, peerId: int, s: Pair, m: Pair, t: Pair, f: Frame)
    requires Encodable(f) && Fits(peerId, 4)
    requires Agreed(s) && RotationStep(s, m) && RotationStep(m, t)
    requires InPhase(s, Offered) || InPhase(s, Swapped) ==> TagsDiffer(mac, kdf, peerId, s.home.current, s.home.previous.value, f)
    ensures Carries(mac, kdf, peerId, s.router, t.home, f) <==> !(InPhase(s, Offered) && s.router.level.Signs())
    ensures Carries(mac, kdf, peerId, s.home, t.router, f) <==> !(InPhase(s, Swapped) && s.home.level.Signs())
  {
    hide Carries;
    CarriesExactly(mac, kdf, peerId, s.router, t.home, f);
    CarriesExactly(mac, kdf, peerId, s.home, t.router, f);
  }

  /** The same bound on the way down: two steps rolled back. */
  lemma TwoStepsBackExactly(mac: Mac, kdf: Kdf, peerId: int, s: Pair, m: Pair, t: Pair, f: Frame)
    requires Encodable(f) && Fits(peerId, 4)
    requires Agreed(s) && RotationStep(t, m) && RotationStep(m, s)
    requires InPhase(s, Swapped) || InPhase(s, Adopted) ==> TagsDiffer(mac, kdf, peerId, s.router.current, s.router.previous.value, f)
    ensures Carries(mac, kdf, peerId, s.router, t.home, f) <==> !(InPhase(s, Swapped) && s.router.level.Signs())
    ensures Carries(mac, kdf, peerId, s.home, t.router, f) <==> !(InPhase(s, Adopted) && s.home.level.Signs())
  {
    hide Carries;
    CarriesExactly(mac, kdf, peerId, s.router, t.home, f);
    CarriesExactly(mac, kdf, peerId, s.home, t.router, f);
  }

  /** Two rungs between which a frame in flight is lost: the sender's format, as it was sent, is one the
      receiver no longer takes. */
  predicate Cuts(sent: Level, received: Level) {
    (sent.Observe? && received.Require?) || (sent.Sign? && received.Off?)
  }

  /** A frame delayed across TWO LADDER MOVES, up or down and by either end, is refused in exactly two cases:
      sent plain at observe to an end that has reached require, and sent signed at sign to an end that has
      gone back to off. No assumption on the MAC is needed. */
  lemma TwoLadderMovesExactly(mac: Mac, kdf: Kdf, peerId: int, s: Pair, m: Pair, t: Pair, f: Frame)
    requires Encodable(f) && Fits(peerId, 4)
    requires Agreed(s) && LadderMove(s, m) && LadderMove(m, t)
    ensures Carries(mac, kdf, peerId, s.home, t.router, f) <==> !Cuts(s.home.level, t.router.level)
    ensures Carries(mac, kdf, peerId, s.router, t.home, f) <==> !Cuts(s.router.level, t.home.level)
  {
    hide Carries;
    CarriesExactly(mac, kdf, peerId, s.home, t.router, f);
    CarriesExactly(mac, kdf, peerId, s.router, t.home, f);
  }

  /** What one end sends the other can take: the rungs allow it, and its key is held. */
  predicate Takes(from: End, to: End) {
    RungsAllow(from.level, to.level) && (to.current == from.current || to.previous == Some(from.current))
  }

  lemma RotationAfterMove(s: Pair, m: Pair, t: Pair)
    requires Agreed(s) && LadderMove(s, m) && (RotationStep(m, t) || RotationStep(t, m))
    ensures Takes(s.home, t.router) && Takes(s.router, t.home)
  {
  }

  lemma MoveAfterRotation(s: Pair, m: Pair, t: Pair)
    requires Agreed(s) && (RotationStep(s, m) || RotationStep(m, s)) && LadderMove(m, t)
    ensures Takes(s.home, t.router) && Takes(s.router, t.home)
  {
  }

  lemma ThereAndBack(s: Pair, m: Pair, t: Pair)
    requires Agreed(s)
    requires (RotationStep(s, m) && RotationStep(t, m)) || (RotationStep(m, s) && RotationStep(m, t))
    ensures Takes(s.home, t.router) && Takes(s.router, t.home)
  {
  }

  /** ANY OTHER TWO STEPS ARE SAFE: unless both are ladder moves, both rotate forward or both roll back, a frame
      sent before the first is accepted after the second, in both directions. No assumption on the MAC. */
  lemma OtherTwoStepsCarry(mac: Mac, kdf: Kdf, peerId: int, s: Pair, m: Pair, t: Pair, f: Frame)
    requires Encodable(f) && Fits(peerId, 4)
    requires Agreed(s) && Step(s, m) && Step(m, t)
    requires !(LadderMove(s, m) && LadderMove(m, t))
    requires !(RotationStep(s, m) && RotationStep(m, t)) && !(RotationStep(m, s) && RotationStep(t, m))
    ensures Carries(mac, kdf, peerId, s.home, t.router, f) && Carries(mac, kdf, peerId, s.router, t.home, f)
  {
    hide LadderMove, RotationStep, Agreed, Carries;
    if LadderMove(s, m) {
      RotationAfterMove(s, m, t);
    } else if LadderMove(m, t) {
      MoveAfterRotation(s, m, t);
    } else {
      ThereAndBack(s, m, t);
    }
    CarriesExactly(mac, kdf, peerId, s.home, t.router, f);
    CarriesExactly(mac, kdf, peerId, s.router, t.home, f);
  }

  /** Both cases are reached, by climbing from observe and sign and by descending from sign and observe. */
  lemma TwoLadderMovesCanCut(mac: Mac, kdf: Kdf, peerId: int, secret: Secret, f: Frame)
    returns (up: seq<Pair>, down: seq<Pair>)
    requires Encodable(f) && Fits(peerId, 4)
    ensures IsRun(up) && |up| == 3 && IsRun(down) && |down| == 3
    ensures !Carries(mac, kdf, peerId, up[0].home, up[2].router, f)
    ensures !Carries(mac, kdf, peerId, down[0].home, down[2].router, f)
  {
    var off, observing := End(Off, secret, None), End(Observe, secret, None);
    var signing, requiring := End(Sign, secret, None), End(Require, secret, None);
    up := [Pair(observing, signing), Pair(signing, signing), Pair(signing, requiring)];
    down := [Pair(signing, observing), Pair(observing, observing), Pair(observing, off)];
    TwoLadderMovesExactly(mac, kdf, peerId, up[0], up[1], up[2], f);
    TwoLadderMovesExactly(mac, kdf, peerId, down[0], down[1], down[2], f);
  }

  /** During a rotation from `old`, each end refuses a frame sealed under `old` exactly once its own
      last step is done: home after step 3, the router after step 4. */
  lemma OldKeyRefusedExactly(mac: Mac, kdf: Kdf, peerId: int, p: Pair, sender: End, f: Frame)
    requires Encodable(f) && Fits(peerId, 4)
    requires Agreed(p) && p.home.level.Verifies() && p.router.level.Verifies() && sender.level.Signs()
    requires !InPhase(p, Steady)
    requires sender.current == if InPhase(p, Adopted) then p.router.previous.value else p.home.current
    requires TagsDiffer(mac, kdf, peerId, sender.current, if InPhase(p, Adopted) then p.router.current else p.home.previous.value, f)
    ensures Carries(mac, kdf, peerId, sender, p.home, f) <==> !InPhase(p, Adopted)
    ensures Carries(mac, kdf, peerId, sender, p.router, f)
    ensures forall q: Pair | InPhase(p, Adopted) && RotationStep(p, q) :: !Carries(mac, kdf, peerId, sender, q.router, f)
  {
    CarriesExactly(mac, kdf, peerId, sender, p.home, f);
    CarriesExactly(mac, kdf, peerId, sender, p.router, f);
    forall q: Pair | InPhase(p, Adopted) && RotationStep(p, q)
      ensures !Carries(mac, kdf, peerId, sender, q.router, f)
    {
      CarriesExactly(mac, kdf, peerId, sender, q.router, f);
    }
  }
}
