# Zippie, modelled and proved

Zippie bonds several internet legs of a travelling router into one tunnel to a home exit. This project is a model, in Dafny, of the parts of it
whose behaviour is hardest to see by reading one function, with proofs of what they promise.

| file | what it models |
|---|---|
| `ByteStrings.dfy`, `Decimal.dfy`, `Sets.dfy` | bytes, fixed-width integers, decimal numerals, members of sets |
| `Auth.dfy` | the bond's wire codec: plain v2 frames, authenticated v3 frames, and the rung that chooses between them |
| `Bond.dfy` | the two ends as a state machine: the rollout ladder and the key rotation, each end restarting on its own |
| `Reassembler.dfy`, `Delivery.dfy` | the receive side: duplicates dropped, order restored, gaps given up after a bounded stall; and when, over every run, it does each |
| `Redirect.dfy` | the home exit's port redirects and the script that converges the firewall chain |
| `ConfText.dfy`, `HomeServer.dfy` | the WireGuard conf as text, the state file, and the commands that provision clients |
| `Statsd.dfy`, `Pipeline.dfy` | the hub's metric lines, their packing into datagrams, and the concurrent pipeline they travel through |
| `Freshness.dfy` | the hub's poll loop, its registry, and the answers given from the snapshot |
| `Counters.dfy`, `Series.dfy` | byte counters turned into rates, even downsampling, and the phone's incremental copy of the history |
| `Impair.dfy` | the impairment harness: seeded loss and per-leg delay queues |
| `DnsName.dfy`, `Apk.dfy`, `Fingerprint.dfy` | the binary readers, and the stream of bytes a package fingerprint hashes |

Objects whose methods update their fields are classes here, with the same fields; each method is proved against a function of the old state, and
what the source promises is then proved about that function over whole runs. Code made of expressions is functions. Threads are steps of a
machine, one step for each action no other thread can be seen inside.

Parameters stand for what cannot be seen or must not matter: the MAC, the key derivation and the other hashes, the seeded random stream, the
clock readings, what a socket or a sender answers, Python's `int`, and `%g`. The "refused" halves of the key rotation theorems need the two keys
to give different tags on the frame in question; that assumption is written as `Bond.TagsDiffer` and used nowhere else.

## What the proofs found

- **Redirects of ports that leave the mapping stay** (`Redirect.DroppedPortKeepsItsRedirect`). The purge covers the ports owned now, so a
  redirect for a port removed from `ports` is left in the chain by every later `up`.
- **A transport with no WAN interface on record loops** (`Redirect.TransportLoopsExactly`). The scope comes from `wan_iface`; when that is empty
  the rule is unscoped and the transport's own output is redirected back into it. The names that catch loopback are exactly the empty one, `lo`,
  and the wildcards `+`, `l+` and `lo+`.
- **A transport port that is not an integer, or an empty list of ports, stops `up` half way** (`HomeServer.HomeExit.Up`): the state, and
  the conf where it can be rendered, are already rewritten, the chain is not.
- **A field can forge peers, and exactly when** (`ConfText.RefreshKeepsPeersExactly`): a rewrite keeps the peer section, and a second one changes nothing,
  if and only if no line after the first of the private key, the address or the WAN name begins, past its indentation, with `[Peer]` or `# client:`.
  A newline alone does no harm. Otherwise the stanza's own text is taken for peers and the conf grows at every `up`
  (`ConfText.UncleanFieldForgesPeers`, `HomeServer.UpKeepsPeersExactly`).
- **A DNS label of 192 to 255 bytes is written and not read back** (`DnsName.RoundTripExactly`): its length byte is a pointer to the reader. Section
  2.3.4 of RFC 1035 allows 63, which neither side checks; no caller reaches it, since the four names asked for
  (companion-android/mdm/restore/adb-port.py:42-47) have short labels.
- **`records` can raise, and exactly when** (`DnsName.RecordsRaiseExactly`): when it comes to half a pointer, the last byte of the buffer with a pointer's
  first bits, in the name of a question or a record or in an SRV target, or to SRV or A data past the end. A name can be read from anywhere in a
  buffer if and only if its last byte is below 0xC0 (`DnsName.ReadingIsSafeExactly`). Thirteen bytes are enough to raise
  (`DnsName.HalfPointerEscapes`), and nothing in companion-android/mdm/restore/adb-port.py:81-102 catches it.
- **Truncation of a v2 block is reported or not by where it falls** (`Apk.TruncatedValue`), though the comment at companion-android/ci/apk-facts.py:168-171
  says a truncated block is reported. A value cut at any byte is refused if and only if the cut falls in the signer list's header or in a signer's, in a
  certificate's or in a signed section's, or before the certificates of the signer it falls in, or before the first certificate's bytes. Anywhere else what is
  left is hashed and accepted: a certificate cut short as it stands, a signer without its last certificates, and a cut in the signatures is not noticed at all
  (`Apk.CutBehindSignedData`). The same holds up to the digests of the whole file (`Apk.TruncatedValueInAFile`).
- **A trailing size near its maximum escapes the APK reader** (`Apk.FileRaisesExactly`, `Apk.OversizedTrailerEscapes`): Python refuses an offset below -2^63
  with OverflowError, which companion-android/ci/apk-facts.py:207-218 does not catch. The struct.error of a short one is caught.
- **The history sync needs increasing stamps twice over, and exactly how far.** A reply holds the newest point if and only if it is newer than the cursor, so
  a point stamped no later is never sent (`Series.ServedIs`, `Series.NewestIsHeldExactly`, `Series.RepeatedStampIsNeverSent`). And the buffer stays in order,
  over every run with any stamps, if and only if no reply brings back a point left behind, one from before the last point held and newer than the
  cursor (`Series.OrderIsKeptExactly`). Without thinning there is never one, as long as the store is no longer than the buffer (`Series.UnthinnedKeepsOrder`,
  `Series.OrderNeedsRoom`); a thinned reply and one step back of the clock are enough to leave one (`Series.ThinnedPointComesBack`).
- **An address can be handed out twice, and exactly when** (`HomeServer.AddressesAreDistinctExactly`): when something is provisioned after a command that was
  killed between its append to the conf and its save of the state.
- **A gap can be counted as given up though there is none** (`Delivery.GapsExactly`): when the next payload is the one that takes the buffer over its cap,
  `gaps_abandoned` goes up and nothing is lost (`Delivery.ArrivalGivesUpExactly`).
- **The reassembler's cap does not hold inside an origin grace** (`Reassembler.CapHoldsExactlyWithoutGrace`), and a payload whose waiting copy has
  fallen out of the duplicate window replaces that copy uncounted (`Reassembler.EveryFrameIsAccountedFor`), which some run reaches whatever the window, if
  and only if anything can wait at all (`Reassembler.CopyIsForgottenExactly`).
- **One step in flight is safe and two may not be, in exactly these cases**: two rotation steps in one phase each way (`Bond.TwoStepsExactly`,
  `Bond.TwoStepsBackExactly`), two ladder moves from observe to require and from sign to off (`Bond.TwoLadderMovesExactly`). Any other
  two steps are safe (`Bond.OtherTwoStepsCarry`).
- **A frame accepted under the retired key packs again to other bytes** (`Auth.UnpackThenPack`).

## Model

| member | source | states |
|---|---|---|
| Auth.UnpackAuth | travel/bond-agent/zippie/auth.py:551-578 | total on every byte string: what is not accepted is refused with DatapathError or its subclass, and a short datagram is malformed at every rung, never an authentication failure |
| Auth.PlainExactly | travel/bond-agent/zippie/datapath.py:144-169 | the v2 reader accepts exactly the images of the v2 writer, and as the frame that was written |
| Auth.PlainSlices | travel/bond-agent/zippie/auth.py:154-155 | each field of a plain frame lies where the v2 layout puts it, behind 17 bytes of header |
| Auth.SealedSlices | travel/bond-agent/zippie/auth.py:154-171 | each field of a sealed frame lies where the v3 layout puts it, and the MAC covers the whole header before it and the payload |
| Auth.SealedExactly | travel/bond-agent/zippie/auth.py:476-536 | the v3 reader accepts a datagram as a frame if and only if it is that frame sealed by the expected peer under the current or the retired key |
| Auth.AcceptedExactly | travel/bond-agent/zippie/auth.py:551-578 | the whole receive rule, for every byte string, identity and rung: what is accepted, as which frame, and whether it counts as authenticated |
| Auth.RefusedExactly | travel/bond-agent/zippie/auth.py:476-578 | the whole refusal rule: unauthenticated is a long enough v3 datagram no held key sealed, at a rung that verifies, or a sound plain frame at require; anything else refused is malformed |
| Auth.SentExactly | travel/bond-agent/zippie/auth.py:455-549 | which format an end sends, which frames it can, and which error the others give |
| Auth.V3NeverOnTrust | travel/bond-agent/zippie/auth.py:561-570 | a datagram marked v3 is accepted only by a verifying rung, only sealed under a held key, and always counted as authenticated |
| Auth.PackThenUnpack | travel/bond-agent/zippie/auth.py:455-536 | any in-range frame comes back with every field, and with the signer's client id |
| Auth.UnpackThenPack | travel/bond-agent/zippie/auth.py:455-536 | packing again what verified gives back the raw bytes if and only if the current key verified it |
| Bond.TrimIgnoresPadding | travel/bond-agent/zippie/auth.py:293-305 | whitespace around the secret in its file, on either side, never reaches the key |
| Bond.RestartLoadsTheFiles | travel/bond-agent/zippie/auth.py:581-633 | from key files closed to others, each of any mode and with any whitespace around its secret, a restart loads exactly the credential the state machine gives that end |
| Bond.SecretExactly | travel/bond-agent/zippie/auth.py:282-311 | a secret is loaded if and only if the file is closed to others and holds it, 16 bytes or longer, with any whitespace around it; and when each refusal is given |
| Bond.IdentityExactly | travel/bond-agent/zippie/auth.py:581-633 | a credential is built if and only if the rung, both key files and the peer id allow one, with which keys, and none exactly at off without a key file |
| Bond.CarriesExactly | travel/bond-agent/zippie/auth.py:539-578 | one end accepts the other's frame if and only if the rungs allow the format and, for a signed frame, a held key gives its tag |
| Bond.InteroperateExactlyWhenAdjacent | travel/bond-agent/zippie/auth.py:22-41 | with one shared key, both directions carry every frame if and only if the rungs differ by at most one; no assumption on the MAC |
| Bond.StepKeepsAgreement | travel/bond-agent/zippie/auth.py:87-109 | every ladder move, rotation step and rollback leads from an agreed pair to an agreed pair and changes one end only |
| Bond.NoRunCutsTheBond | travel/bond-agent/zippie/auth.py:33-109 | over any run of ladder moves, rotations and rollbacks, each end accepts every frame of the other in every state, and a frame in flight across one more step of either end |
| Bond.TwoStepsExactly | travel/bond-agent/zippie/auth.py:93-104 | a frame delayed across two rotation steps, with distinct tags, is refused exactly when it was signed in one of two phases, one in each direction |
| Bond.TwoStepsBackExactly | travel/bond-agent/zippie/auth.py:106-109 | the same exact bound for two steps rolled back |
| Bond.TwoLadderMovesExactly | travel/bond-agent/zippie/auth.py:33-41 | a frame delayed across any two ladder moves is refused if and only if it was sent at observe to an end now at require, or at sign to an end now at off |
| Bond.OtherTwoStepsCarry | travel/bond-agent/zippie/auth.py:33-109 | a frame delayed across any two steps of which one is a ladder move and one a rotation, or one rotates forward and one rolls back, is accepted in both directions |
| Bond.TwoLadderMovesCanCut | travel/bond-agent/zippie/auth.py:33-41 | legal runs, one up and one down, that reach both cases |
| Bond.OldKeyRefusedExactly | travel/bond-agent/zippie/auth.py:101-104 | a frame under the old key is refused by home exactly after step 3, accepted by the router until step 4 and refused after it |
| Reassembler.HeapPushAdds | travel/bond-agent/zippie/datapath.py:603 | pushing onto the sequence index adds that sequence and loses none |
| Reassembler.Reassembler.constructor | travel/bond-agent/zippie/datapath.py:481-532 | a fresh reassembler is the plain form's empty stream |
| Reassembler.Reassembler.Remember | travel/bond-agent/zippie/datapath.py:534-543 | reports whether the sequence is outside the duplicate window, and keeps the newest ones the window holds |
| Reassembler.Reassembler.Sweep | travel/bond-agent/zippie/datapath.py:628-682 | the fronts of the two lazily swept indexes are the earliest first arrival and the lowest sequence of everything that waits; nothing waiting leaves both indexes empty |
| Reassembler.Reassembler.Drain | travel/bond-agent/zippie/datapath.py:608-616 | hands up what the plain form hands up, in the same order, and leaves both indexes covering the buffer |
| Reassembler.Reassembler.ForceSkip | travel/bond-agent/zippie/datapath.py:618-626 | moves to the minimum of the whole buffer and counts the gap, as the plain form does by scanning |
| Reassembler.Reassembler.Push | travel/bond-agent/zippie/datapath.py:559-606 | refines the plain form on every frame, given a clock that never runs backwards |
| Reassembler.Reassembler.Tick | travel/bond-agent/zippie/datapath.py:684-705 | refines the plain form, where "overdue" is asked of every waiting payload, and keeps the indexes of an idle in-order stream empty |
| Reassembler.Reassembler.ResetStream | travel/bond-agent/zippie/datapath.py:545-557 | forgets the stream and both indexes, keeps the counters, counts the restart |
| Reassembler.EveryRunIsSound | travel/bond-agent/zippie/datapath.py:559-705 | the invariant of every state of every run of arrivals, ticks and restarts at any clock readings |
| Reassembler.HandsUpInOrderOnce | travel/bond-agent/zippie/datapath.py:465-478 | over any run, sequences go up strictly increasing, hence none twice, whatever the duplicate window; each payload is one that arrived under that number since the last restart |
| Reassembler.LossIsCountedExactly | travel/bond-agent/zippie/datapath.py:624-626 | what the loss estimate has grown by since the restart is the number of sequences skipped between the first handed up and the next expected |
| Reassembler.OrderIsRestored | travel/bond-agent/zippie/datapath.py:465-478 | with nothing given up, what went up is exactly the unbroken run of arrivals from the first one, in whatever order they came, up to the first that never came |
| Reassembler.TickReleasesExactly | travel/bond-agent/zippie/datapath.py:684-705 | in any reachable state a tick hands something up if and only if some payload has been waiting the deadline or the grace is over, lowest first |
| Reassembler.SettledIsBounded | travel/bond-agent/zippie/datapath.py:602-606 | settling, overflow and drain leave a buffer within the cap, or smaller than the one that already held the arrival |
| Reassembler.ArrivalIsBounded | travel/bond-agent/zippie/datapath.py:559-606 | across a whole arrival at a settled stream the buffer stays within the cap, or, if it was above it, grows no further |
| Reassembler.CapHoldsExactlyWithoutGrace | travel/bond-agent/zippie/datapath.py:595-606 | the buffer stays within its cap over every run if and only if no origin grace is configured |
| Reassembler.EveryFrameIsAccountedFor | travel/bond-agent/zippie/datapath.py:559-606 | a payload frame adds one to delivered, duplicates, late or waiting together, unless it replaces a waiting copy the window has forgotten |
| Reassembler.CopyIsForgottenExactly | travel/bond-agent/zippie/datapath.py:536-606 | whatever the duplicate window, some run leaves a waiting payload whose sequence has fallen out of it, if and only if the cap leaves room or a grace is configured |
| Reassembler.TickKeepsAccounts | travel/bond-agent/zippie/datapath.py:684-705 | a tick moves payloads from waiting to delivered and loses none |
| Reassembler.PushCountsUp | travel/bond-agent/zippie/datapath.py:608-616 | the delivery counters grow by exactly the payloads and the bytes an arrival hands up |
| Reassembler.TickCountsUp | travel/bond-agent/zippie/datapath.py:684-705 | and by exactly those a tick hands up |
| Delivery.ArrivalGivesUpExactly | travel/bond-agent/zippie/datapath.py:602-606 | over every run, an arrival raises the loss if and only if, at a stream under way, more waits with it than the cap and the next payload is not there; by how much |
| Delivery.ArrivalHandsUp | travel/bond-agent/zippie/datapath.py:559-616 | at a stream under way an arrival that is taken hands up the unbroken run from the next payload, or from the lowest waiting one when a gap is given up, each payload as it came; any other hands up nothing |
| Delivery.GapsExactly | travel/bond-agent/zippie/datapath.py:602-627 | when an arrival counts a gap as given up, the case included in which nothing is lost |
| Delivery.TickGivesUpExactly | travel/bond-agent/zippie/datapath.py:684-705 | over every run, a tick releases a stream under way if and only if some payload's first copy came the deadline ago, and one not yet started if and only if the grace since its first payload is over; what goes up and what is lost |
| Delivery.StartIsSettledExactly | travel/bond-agent/zippie/datapath.py:567-606 | a stream starts at the first arrival that finds the grace over, with the lowest payload that has come and no loss; until then everything that has come waits |
| Delivery.NothingIsLostExactly | travel/bond-agent/zippie/datapath.py:559-705 | over every run, the loss since the restart is zero if and only if no arrival and no tick gave a gap up |
| Delivery.InOrderUnlessGivenUp | travel/bond-agent/zippie/datapath.py:559-705 | so then the hand-ups are the unbroken run from the first payload, and the next one has not come |
| Delivery.DuplicateExactly | travel/bond-agent/zippie/datapath.py:534-565 | over every run, exactly the payloads among the last so many taken into the window are dropped as duplicates, changing nothing else |
| Delivery.TooLateExactly | travel/bond-agent/zippie/datapath.py:583-590 | exactly the payloads outside the window and no later than the last one handed up are dropped as too late |
| Delivery.RestartForgets | travel/bond-agent/zippie/datapath.py:545-557 | a restart forgets the stream and keeps every counter but its own |
| Statsd.TagIsHarmless | hub/hub.py:689-700 | whatever the value, the tag has no newline, comma, bar or hash of its own and a bounded length |
| Statsd.LineIsOneLine | hub/hub.py:689-713 | a line built from any router name and configured service, env and version is one line |
| Statsd.TagComesThroughExactly | hub/hub.py:700 | a value comes through unchanged if and only if it is safe and within the bound; otherwise what each character becomes |
| Statsd.LineReadsBack | hub/hub.py:703-713 | metric, number, kind and each tag are read back from a line |
| Statsd.RouterTagsReadBack | hub/hub.py:689-713 | the tags of a line are the router and the configured extras under their keys, and no value splits one |
| Statsd.SplitInvertsJoin | hub/hub.py:747-769 | splitting a datagram at newlines gives back the lines joined into it |
| Statsd.StatsdDatagrams | hub/hub.py:747-769 | the datagrams are a grouping of all the lines in order, each within 1400 bytes or a single line, and no such grouping has fewer |
| Statsd.AgentReadsTheLines | hub/hub.py:747-769 | the agent reads back exactly the lines, and an oversized datagram is one of them |
| Pipeline.EveryRunInv | hub/hub.py:899-995 | queue order, the counters and the sentinel agree in every reachable state of any number of producers and the worker (the same machine as hub/hub.py lines 323-471) |
| Pipeline.HandedInOrder | hub/hub.py:938-953 | in any interleaving, lines handed over, held and queued are the accepted ones in order; a worker that has exited has handed over exactly what was queued before the sentinel |
| Pipeline.EveryLineIsAccountedFor | hub/hub.py:899-972 | accepted lines equal sent, lost, queued and held together at every instant; `submitted` lags by at most the item its producer has put and not counted; `dropped` counts the refused items |
| Pipeline.BatchesAreWholeItems | hub/hub.py:912-953 | every batch is a run of whole consecutive items, so a cycle's four lines are never split between batches |
| Pipeline.BatchesAreBounded | hub/hub.py:938-953 | no batch passes the limit by more than the item that crossed it |
| Pipeline.DrainHandsOverEverything | hub/hub.py:938-995 | from any reachable state the worker alone comes to rest having handed over, exactly once and counted, all that was accepted before the first sentinel, whatever the sender does |
| Pipeline.OfferedExactly | hub/hub.py:912-932 | an offer is queued whole and counted by its lines exactly when there is room, and refused whole and counted once otherwise; it never waits |
| Pipeline.ClosedExactly | hub/hub.py:988-995 | the sentinel is queued exactly when there is room |
| Pipeline.FilledExactly | hub/hub.py:943-953 | the worker stops filling a batch if and only if it has reached its size, the queue is empty or a sentinel comes |
| Pipeline.CountersFollowTheSender | hub/hub.py:955-972 | in every interleaving `sent` is the lines of the batches the sender took, `failed` the batches it raised on, and the lines of those are the lost ones |
| Pipeline.DrainFollowsTheSender | hub/hub.py:938-972 | a drain asks the sender about each further batch once, in order, and its counters follow the answers |
| Pipeline.Metrics.constructor | hub/hub.py:852-893 | a new emitter is at the machine's start |
| Pipeline.Metrics.ObserveRouter | hub/hub.py:899-936 | queues or refuses a cycle whole: two steps of the machine |
| Pipeline.Metrics.Close | hub/hub.py:988-995 | queues the sentinel when there is room, and otherwise nothing |
| Pipeline.Metrics.Send | hub/hub.py:955-972 | a success counts the batch's lines, a raise counts one failure, and the worker is where the machine's worker is |
| Pipeline.Metrics.DrainQueue | hub/hub.py:938-953 | the worker's nested loops come to rest exactly where the machine's worker does |
| Redirect.PatternPicksOnePort | home/bond-server/zippie_home.py:278-286 | the purge pattern matches a listed port if and only if it is that port |
| Redirect.PurgeableExactly | home/bond-server/zippie_home.py:281-283 | a listed redirect matches the purge pattern if and only if it is a redirect of that port, whatever its own target port |
| Redirect.SpacelessPatternTakesMore | home/bond-server/zippie_home.py:278-286 | without its trailing space the pattern would match every port that continues the digits |
| Redirect.SortedKeys | home/bond-server/zippie_home.py:289-291 | the one increasing listing of the mapping's ports |
| Redirect.OneListing | home/bond-server/zippie_home.py:289-291 | a set of ports has one increasing listing, so the script is the same on every run |
| Redirect.WriteRedirectScript | home/bond-server/zippie_home.py:228-304 | one purge for each managed port in increasing order, and an append for each not mapped to itself: a function of the mapping and the scope alone |
| Redirect.NatTable.FirstListed | home/bond-server/zippie_home.py:281-283 | the first rule in the chain the pattern matches, or none if there is none |
| Redirect.NatTable.PurgePort | home/bond-server/zippie_home.py:278-286 | terminates from any chain, and leaves it without this port's redirects, the rest in order |
| Redirect.NatTable.Run | home/bond-server/zippie_home.py:289-300 | a script's effect on the chain, command by command |
| Redirect.NatTable.Converge | home/bond-server/zippie_home.py:228-304 | from any chain: the old rules minus every redirect of a managed port, then the mapping's rules in port order |
| Redirect.ScriptEffect | home/bond-server/zippie_home.py:289-300 | purging and appending port by port amounts to purging all ports first and appending all rules after |
| Redirect.ConvergedIsStable | home/bond-server/zippie_home.py:270-277 | a second run changes nothing |
| Redirect.LastMappingWins | home/bond-server/zippie_home.py:270-277 | a new mapping over the same or more ports leaves no trace of the old targets |
| Redirect.KeptExactly | home/bond-server/zippie_home.py:272-290 | a purge takes only redirects of its ports, rule by rule and in order |
| Redirect.DroppedPortKeepsItsRedirect | home/bond-server/zippie_home.py:275-277 | an old redirect survives a new mapping if and only if its port has left it, or the mapping asks for the very same rule |
| Redirect.PacketFate | home/bond-server/zippie_home.py:197-304 | the first match of every packet after the script: a kept rule that hits, else its port's mapped target in scope, else nothing |
| Redirect.ScopesThatCatchLoopback | home/bond-server/zippie_home.py:256-265 | the interface arguments that match loopback are exactly five |
| Redirect.TransportLoopsExactly | home/bond-server/zippie_home.py:256-265 | the transport's output on loopback is redirected into it if and only if it claims the wg port and the scope catches loopback |
| Redirect.StagedRolloutIsSafe | home/bond-server/zippie_home.py:209-225 | with the transport on spare ports only, the wg port meets no redirect and every other port reaches its listener |
| Redirect.RouteModeFate | home/bond-server/zippie_home.py:222-223 | without a transport every listed port but the first reaches the first, in scope, and nothing else is redirected |
| Redirect.TransportModeFate | home/bond-server/zippie_home.py:222-225 | with one, a listed port it claims reaches it and any other the wg port, in scope, its own target left alone |
| ConfText.IsIn | home/bond-server/zippie_home.py:508 | the substring search behind the "already present" guard is exact |
| ConfText.StanzaIsPlain | home/bond-server/zippie_home.py:344-355 | no line of a stanza with newline-free fields reads as the start of a peer |
| ConfText.PeerSectionAppend | home/bond-server/zippie_home.py:358-364 | whole lines in front either start the peer section or leave it to what follows |
| ConfText.StanzaHoldsNoneExactly | home/bond-server/zippie_home.py:344-364 | the rendered stanza holds a peer section of its own if and only if a later line of one of its three text fields begins with a marker |
| ConfText.RefreshKeepsPeersExactly | home/bond-server/zippie_home.py:367-411 | from any old text, a rewrite keeps the peer section byte for byte, and a second rewrite changes nothing, each if and only if no later line of a field begins with a marker |
| ConfText.RefreshKeepsPeers | home/bond-server/zippie_home.py:367-411 | so newline-free fields keep the peers of any old text and make the rewrite stable |
| ConfText.RefreshedShape | home/bond-server/zippie_home.py:395-399 | the refreshed text is the stanza, a blank line if there are peers, and the old peer section |
| ConfText.UncleanFieldForgesPeers | home/bond-server/zippie_home.py:358-364 | either marker on a later line of any of the three fields changes the peer section of any old text |
| ConfText.AppendPeer | home/bond-server/zippie_home.py:499-509 | the appended text, unchanged when the key occurs anywhere in it |
| ConfText.AppendExtends | home/bond-server/zippie_home.py:499-509 | a fresh peer is added at the end and nothing before it is touched |
| ConfText.RefreshReplacesStanza | home/bond-server/zippie_home.py:380-399 | refreshing a provisioned conf swaps the stanza and keeps all its peers |
| ConfText.ParsedPeersAreTheAppended | home/bond-server/zippie_home.py:499-509 | reading the conf line by line gives back exactly the appended peers in order |
| ConfText.StanzaReadsBack | home/bond-server/zippie_home.py:344-355 | whatever follows the stanza, its lines say the key, the address, the port and the masqueraded interface it was rendered from |
| ConfText.PeerAddedOnce | home/bond-server/zippie_home.py:506-509 | a text in which the key occurs is left alone, so appending a peer twice adds it once |
| HomeServer.ParsePorts | home/bond-server/zippie_home.py:79-99 | all parts usable gives all the ports in order, and any unusable part gives none |
| HomeServer.ReconcileEnv | home/bond-server/zippie_home.py:131-173 | the environment's values for its three keys where usable, and exactly the keys that moved |
| HomeServer.ReconcileIsStable | home/bond-server/zippie_home.py:131-173 | a second restart moves nothing, key material and clients are untouched, and ports and WAN never become empty |
| HomeServer.EnvironmentWins | home/bond-server/zippie_home.py:79-173 | the endpoint, the WAN and the ports follow what the environment says, whatever whitespace is around it; left out, blank or out of range changes nothing |
| HomeServer.TransportComesFrom | home/bond-server/zippie_home.py:736-752 | the transport port and its public ports are the environment's where it is set, blank parts left out, and the state's otherwise |
| HomeServer.AddressInjective | home/bond-server/zippie_home.py:534-535 | different octets give different addresses |
| HomeServer.NetworkPrefixIs | home/bond-server/zippie_home.py:192-194 | the prefix is what stands before the last component, mask or no mask |
| HomeServer.PathsRotate | home/bond-server/zippie_home.py:532-558 | each path gets its own address and the ports in rotation, and its peer the same key and address |
| HomeServer.ClientAddedExactly | home/bond-server/zippie_home.py:517-562 | when a client is added, and everything that changes and stays |
| HomeServer.PathAddedExactly | home/bond-server/zippie_home.py:611-646 | when a path is added, with which address and port, and everything that changes and stays |
| HomeServer.AddPathContinues | home/bond-server/zippie_home.py:517-646 | minting a client and then one more path leaves exactly what minting it with that path last would have |
| HomeServer.UpRenders | home/bond-server/zippie_home.py:701-725 | with nothing missing, the conf `up` leaves says the state's key and address and the reconciled port and interface |
| HomeServer.HomeExit.Init | home/bond-server/zippie_home.py:414-472 | fresh state and a conf without peers, or nothing at all when initialised and not forced |
| HomeServer.HomeExit.AddClient | home/bond-server/zippie_home.py:517-562 | one peer for each path at consecutive octets, ports in rotation, the record replaced when forced; nothing added exactly when unforced and known, or when there is no port to hand out |
| HomeServer.HomeExit.AppendToConf | home/bond-server/zippie_home.py:499-509 | an absent conf stays absent, a present one gets the block |
| HomeServer.HomeExit.AddPath | home/bond-server/zippie_home.py:611-646 | one more peer and record for a known client without that path, at the next octet, unless a port is needed and there is none |
| HomeServer.HomeExit.Up | home/bond-server/zippie_home.py:684-757 | from every state: the state and conf after bring-up, whether the conf changed, when it stops half way, an empty port list included, and the converged chain with its scope |
| HomeServer.WithPeersExtends | home/bond-server/zippie_home.py:532-558 | appending fresh peers one by one extends the conf by exactly those |
| HomeServer.ProvisionedPeersSurvive | home/bond-server/zippie_home.py:499-725 | over any run of commands since an init, killed ones included: the peers read from the conf are the provisioned ones in order, every recorded path is a peer, addresses are distinct if and only if nothing was provisioned after an unsaved append, and below the counter when there was none |
| HomeServer.AddressesAreDistinctExactly | home/bond-server/zippie_home.py:527-562 | over any run, two peers share an address if and only if something was provisioned after a command killed between its append and its save |
| HomeServer.AddressesAreNumbered | home/bond-server/zippie_home.py:526-558 | in a network a.b/mask the i-th peer of a run is given a.(2 + i)/32 |
| HomeServer.UpKeepsPeersExactly | home/bond-server/zippie_home.py:684-725 | from any state and conf, `up` keeps the peer section, and a repeated `up` changes nothing, each if and only if the conf is not rendered or its fields are harmless |
| HomeServer.UpKeepsAnyPeers | home/bond-server/zippie_home.py:701-725 | so with newline-free fields, from any conf, hand edits included, both hold |
| Freshness.Registry.NoteRouter | hub/hub.py:1049-1074 | the router's sample is replaced, reachability defaulting to whether there was a document; no other sample changes |
| Freshness.Registry.RouterSample | hub/hub.py:1076-1106 | the last sample, or none for a router never polled |
| Freshness.Registry.CachedStatus | hub/hub.py:1445-1504 | the code and document given from the snapshot alone, in the source's order of cases |
| Freshness.LiveSamplesAreFresh | hub/hub.py:1384-1416 | with fetches and sleeps within their limits, for any number of routers: after the first pass every sample is at most one cycle old at every instant, and no answer is 503 or 504 |
| Freshness.CycleIsReached | hub/hub.py:1399-1416 | for every list of routers that are all dialled, and every position with a name of its own, a live run reaches the bound of one cycle |
| Freshness.AnswersMeanTheLatestPoll | hub/hub.py:1445-1504 | in any run each code is decided by the latest note and its age; a 200 carries the document of a latest poll that succeeded within the limit |
| Freshness.SampleIsTheLastFetch | hub/hub.py:1384-1396 | over every run, a router's sample is the document, reachability and time of its last fetch, or the error that kept it from being dialled |
| Freshness.AnswerIsTheLastFetch | hub/hub.py:1384-1504 | so code and document are decided by the last fetch and its age alone |
| Freshness.WedgedPollerIsCaught | hub/hub.py:1409-1416 | once the loop has been silent longer than the limit nothing is answered 200, and a router that last answered is answered 504 |
| Counters.RoundIsNear | travel/bond-agent/zippie/counters.py:113 | the rounded quotient is within a half of the exact one |
| Counters.GapIsEven | travel/bond-agent/zippie/counters.py:111-113 | neighbouring picks differ by the floor or the ceiling of the stride |
| Counters.PicksIncrease | travel/bond-agent/zippie/counters.py:111-113 | picks strictly increase under round-half-even |
| Counters.PicksAreNearest | travel/bond-agent/zippie/counters.py:111-113 | each pick is the nearest index to its even share of the way, a tie going to the even one |
| Counters.ThinIsEven | travel/bond-agent/zippie/counters.py:95-113 | exactly k points of the window, strictly increasing, first and last kept, every gap the floor or ceiling of the stride |
| Counters.CounterSampler.Sample | travel/bond-agent/zippie/counters.py:134-173 | the baseline kept or dropped, and the rates, none of them across a failed read, a stalled clock or a decrease |
| Counters.ReportedBits | travel/bond-agent/zippie/counters.py:156-173 | a reported rate times the time it covers is eight times a counter difference, and never negative |
| Counters.SampleExactly | travel/bond-agent/zippie/counters.py:134-173 | over every run, what a sample shows of each counter, and that it gives rates if and only if the sample before read both, the clock went on and neither counter went back, each eight times its own gain over the time between |
| Counters.RatesNeverExceedReality | travel/bond-agent/zippie/counters.py:127-173 | over any run of transfers, resets seen or unseen, failed reads and stalled clocks, the sum of rate times elapsed is at most eight times the bytes truly moved |
| Counters.UndisturbedRatesAreExact | travel/bond-agent/zippie/counters.py:127-173 | with equality, counted from the first sample, when nothing reset, failed or stalled |
| Series.SeriesStore.Append | travel/bond-agent/zippie/counters.py:190-203 | the newest points up to the capacity, the stamp truncated to the millisecond |
| Series.PathMapIs | travel/bond-agent/zippie/counters.py:193-202 | each name read gets its last reading, and no other is there |
| Series.StampIsTheMillisecond | travel/bond-agent/zippie/counters.py:193 | the stamp is the wall clock's millisecond, cut toward zero |
| Series.SeriesStore.ToDict | travel/bond-agent/zippie/counters.py:205-240 | what is served for a cursor and a cap, its count, and when it says it was thinned |
| Series.Phone.ComputeCursor | companion/ZippieCompanionApp/Design/BondModel.swift:333 | the greatest stamp held, or none |
| Series.Phone.RefreshSeries | companion/ZippieCompanionApp/Design/BondModel.swift:327-357 | the first candidate that answers is used and merged; when none does nothing changes |
| Series.Phone.ExtendOrder | companion/ZippieCompanionApp/Design/BondModel.swift:344-353 | the display order is kept and extended by exactly the names not yet in it, each once |
| Series.ServedAreMembers | travel/bond-agent/zippie/counters.py:221-228 | a reply is made of the store's points in the store's order, within the cap |
| Series.ServedIs | travel/bond-agent/zippie/counters.py:221-228 | all of a reply is newer than the cursor, and it ends with the newest point exactly when that one is |
| Series.WholeReplyIsComplete | travel/bond-agent/zippie/counters.py:221-228 | a reply that is not thinned holds exactly what is newer than the cursor, in order |
| Series.MergedInOrder | companion/ZippieCompanionApp/Design/BondModel.swift:337-343 | merging a later run keeps the buffer in order, bounded once incremental, ending where the run ends |
| Series.PollStaysSynced | travel/bond-agent/zippie/counters.py:205-240 | a successful poll keeps the invariant and ends the buffer with the store's newest point |
| Series.SyncIsSound | travel/bond-agent/zippie/counters.py:187-240 | over any run of appends, evictions, restarts, thinned replies and failed polls with increasing stamps: the buffer is an in-order subsequence of everything appended, within its cap once incremental, and ends with the newest point after each success |
| Series.NothingIsMissed | travel/bond-agent/zippie/counters.py:187-240 | with increasing stamps, whole replies and a store no longer than the buffer, every point in the store is in the buffer after every successful poll of any run |
| Series.FirstFetchIsBounded | travel/bond-agent/zippie/counters.py:205-228 | the first, full reply is bounded by the server's cap or the store's capacity |
| Series.NewestIsHeldExactly | travel/bond-agent/zippie/counters.py:221-228 | from any store and any buffer, whatever the stamps, a successful poll ends the buffer with the newest point if and only if there was no cursor, or it is newer, or nothing is and the buffer already ended with it |
| Series.RepeatedStampIsNeverSent | travel/bond-agent/zippie/counters.py:222-223 | from any store and buffer, a new point stamped no later than the cursor is the store's newest and is not in the buffer after the next poll unless it already was |
| Series.PollKeepsOrderExactly | travel/bond-agent/zippie/counters.py:221-228 | whatever the stamps, from a buffer in order of appending the next one is in order if and only if the reply does not bring back a point left behind |
| Series.OrderIsKeptExactly | travel/bond-agent/zippie/counters.py:187-240 | over every run, with any stamps, capacity and replies, the buffer is always in order of appending if and only if no poll brings back a point left behind |
| Series.OrderedEntriesExactly | travel/bond-agent/zippie/counters.py:187-240 | such a buffer is a subsequence of everything appended; and where no two points are alike it is one if and only if its places are in order |
| Series.UnthinnedKeepsOrder | travel/bond-agent/zippie/counters.py:221-228 | a run without thinned replies keeps the order whatever the stamps, from a store no longer than the buffer |
| Series.OrderNeedsRoom | companion/ZippieCompanionApp/Design/BondModel.swift:337-343 | every run without thinned replies keeps the order if and only if the store is no longer than the buffer |
| Series.ThinnedPointComesBack | travel/bond-agent/zippie/counters.py:224-228 | of three points the middle one, thinned out, comes back behind the third if and only if its stamp exceeds both others', and the buffer is then no subsequence |
| Impair.LegSeedsDiffer | travel/bond-agent/tools/impairment.py:151-155 | distinct 32-bit path ids give distinct seeds under every run seed |
| Impair.RunSeedsDiffer | travel/bond-agent/tools/impairment.py:151-155 | distinct 32-bit run seeds give distinct seeds on every leg |
| Impair.LegState.Put | travel/bond-agent/tools/impairment.py:231-240 | one sendto, counted as passed unless it raised, and the value returned |
| Impair.LegState.Release | travel/bond-agent/tools/impairment.py:242-246 | releases from the head while it is due, in queue order |
| Impair.LegState.Hold | travel/bond-agent/tools/impairment.py:219-227 | what is due leaves before the bound is looked at, and a full queue counts the datagram and loses it |
| Impair.LegState.Send | travel/bond-agent/tools/impairment.py:202-229 | loss is decided before the queue and never signalled: the caller is told the full length in every case but a socket's own answer |
| Impair.Impairer.Wrap | travel/bond-agent/tools/impairment.py:179-200 | a known leg keeps counters, queue and stream and swaps only its socket; a new one starts from its plan |
| Impair.Impairer.AddLeg | travel/bond-agent/tools/impairment.py:197-199 | a leg with no entry in the plan is wrapped clean |
| Impair.Impairer.Send | travel/bond-agent/tools/impairment.py:202-229 | the named leg sends and no other leg changes |
| Impair.Impairer.Pump | travel/bond-agent/tools/impairment.py:248-259 | every leg with a queue is released, whatever order the legs are visited in |
| Impair.Impairer.Pending | travel/bond-agent/tools/impairment.py:261-262 | the length of the leg's queue |
| Impair.ReleaseKeepsBooks | travel/bond-agent/tools/impairment.py:242-246 | a release keeps conservation, order and due times, touches nothing else, and leaves a head that is due later |
| Impair.ReleaseIs | travel/bond-agent/tools/impairment.py:242-246 | a release lets exactly the entries due from the head go, in order, through the leg's socket |
| Impair.HeldExactly | travel/bond-agent/tools/impairment.py:219-227 | on a delayed leg a datagram that is not lost overflows if and only if the queue is still full once what is due has left, and otherwise is due its delay later |
| Impair.ToldExactly | travel/bond-agent/tools/impairment.py:202-240 | the caller is told the whole length except when a socket takes the datagram at once |
| Impair.DropsAreDeterministic | travel/bond-agent/tools/impairment.py:148-229 | over any interleaving of sends, pumps and re-wraps, the n-th offer on a leg is dropped exactly when the n-th value of its stream is below its loss |
| Impair.TwoRunsAgree | travel/bond-agent/tools/impairment.py:148-229 | two runs of one seed and plan drop the same offers leg by leg, however scheduled and whatever the sockets answer |
| Impair.QueuesConserveAndKeepOrder | travel/bond-agent/tools/impairment.py:202-274 | every offer is dropped, overflowed, held or put; the queue is bounded; survivors leave in offered order and not before they are due |
| Impair.ReleaseLeavesOnlyLater | travel/bond-agent/tools/impairment.py:242-246 | a release of a sorted queue leaves only entries due later |
| Impair.PumpLeavesNothingDue | travel/bond-agent/tools/impairment.py:248-259 | with a monotone clock, after any run a pump leaves nothing due on any leg |
| Impair.NoOverflowWithinTheBound | travel/bond-agent/tools/impairment.py:219-227 | over every run, a leg offered at most 8192 datagrams loses none to a full queue |
| Impair.EveryDatagramWaits | travel/bond-agent/tools/impairment.py:219-246 | over every run, whatever was let go had been offered on its leg at least the delay before, and whatever waits is due exactly that long after it was offered |
| Impair.SocketIsTheLast | travel/bond-agent/tools/impairment.py:177-199 | a leg exists once it was wrapped, and sends through the socket it was last wrapped around |
| DnsName.EncodeName | companion-android/mdm/restore/adb-port.py:50-55 | the non-empty labels behind their lengths and a zero, or nothing when a length does not fit a byte |
| DnsName.ReadName | companion-android/mdm/restore/adb-port.py:64-78 | terminates on every buffer, pointer loops included, with the name and offset of the recursive reading |
| DnsName.StoredNameIsRead | companion-android/mdm/restore/adb-port.py:64-78 | a name spread over at most 16 pointers to non-empty suffixes is read whole, with the offset past its in-place part |
| DnsName.DeepNameIsCut | companion-android/mdm/restore/adb-port.py:67-68 | past the depth limit the name read is shorter than the name stored |
| DnsName.ReadWholeExactly | companion-android/mdm/restore/adb-port.py:64-78 | a stored name is read whole if and only if it takes at most 16 pointers |
| DnsName.LongLabelStopsShort | companion-android/mdm/restore/adb-port.py:72-76 | a label of 192 bytes or more makes the reader stop short of the name's end, or raise |
| DnsName.RoundTripExactly | companion-android/mdm/restore/adb-port.py:50-78 | reading inverts writing at any offset if and only if no label is longer than 191 bytes |
| DnsName.ReadRaisesExactly | companion-android/mdm/restore/adb-port.py:72-74 | a name raises if and only if its reading comes to the last byte of the buffer and that byte begins a pointer |
| DnsName.ReadingIsSafeExactly | companion-android/mdm/restore/adb-port.py:64-78 | no offset raises if and only if the buffer is empty or its last byte does not begin a pointer |
| DnsName.Records | companion-android/mdm/restore/adb-port.py:81-102 | what the generator yields on any buffer, and whether it then raises |
| DnsName.ReadRecords | companion-android/mdm/restore/adb-port.py:90-102 | the entries of the record section in order, stopping at a truncated record and raising where a name does |
| DnsName.ReadEntry | companion-android/mdm/restore/adb-port.py:96-101 | the SRV or A entry of one record, and nothing when it raises |
| DnsName.MessageIsRead | companion-android/mdm/restore/adb-port.py:81-102 | a well-formed message yields exactly the SRV and A entries of its three record sections in order, names decompressed, nothing raised |
| DnsName.RecordsRaiseExactly | companion-android/mdm/restore/adb-port.py:81-102 | on every buffer, `records` raises if and only if it comes to a question or record whose name, or SRV target, is half a pointer, or whose SRV or A data lies past the end |
| DnsName.HalfPointerEscapes | companion-android/mdm/restore/adb-port.py:81-89 | a datagram of thirteen bytes that raises |
| DnsName.DataPastEndEscapes | companion-android/mdm/restore/adb-port.py:94-101 | a datagram of twenty-three bytes that raises |
| Apk.SigningBlock | companion-android/ci/apk-facts.py:131-147 | the block in front of the directory named by the last end record within reach, or the reason there is none, negative offsets read from the end as Python does, and OverflowError below -2^63 |
| Apk.LengthPrefixed | companion-android/ci/apk-facts.py:150-155 | makes progress on any input, yielding the chunks of the recursive reading |
| Apk.ChunksInvert | companion-android/ci/apk-facts.py:150-155 | chunks written one after another are yielded one by one |
| Apk.EveryBufferEnds | companion-android/ci/apk-facts.py:150-155 | every buffer is some whole chunks and then nothing, a chunk that claims more than is left, or a cut header |
| Apk.ChunksThenEnding | companion-android/ci/apk-facts.py:150-155 | in each of the three cases what is yielded, and that only the cut header raises |
| Apk.RaisedExactly | companion-android/ci/apk-facts.py:150-155 | a buffer raises if and only if it stops inside a header |
| Apk.ClippedChunkIsYielded | companion-android/ci/apk-facts.py:150-155 | behind any whole chunks, one claiming more than is left is yielded short and nothing is raised |
| Apk.DigestsOfSigner | companion-android/ci/apk-facts.py:174-181 | the hashes of one signer's certificates, or nothing for any malformed level |
| Apk.SignerIsRead | companion-android/ci/apk-facts.py:174-181 | a signer whose outer lengths hold is refused if and only if its certificates or its sections stop in a header; otherwise its whole certificates and the remains of a clipped last one are hashed |
| Apk.ClippedCertificateIsHashed | companion-android/ci/apk-facts.py:174-181 | a signer whose last certificate is clipped is accepted with the hash of the bytes left |
| Apk.SignerRefusedExactly | companion-android/ci/apk-facts.py:174-183 | any bytes as a signer: refused if and only if a header is missing or cut, or there is no certificate section |
| Apk.ValueRefusedExactly | companion-android/ci/apk-facts.py:172-186 | any bytes as a v2 value: refused if and only if the signer list is missing or cut, a signer is malformed, or every signer's certificate section is empty; nothing else escapes |
| Apk.DigestsOfValue | companion-android/ci/apk-facts.py:172-186 | all signers' hashes in order, or the refusal when one is malformed or there is none |
| Apk.SignerDigests | companion-android/ci/apk-facts.py:158-188 | the first v2 pair decides, with progress on every pair |
| Apk.SigningBlockIsFound | companion-android/ci/apk-facts.py:131-147 | for any body, pairs, directory and comment with no later end signature, the pair bytes come back exactly |
| Apk.EveryCertificateIsHashed | companion-android/ci/apk-facts.py:158-188 | the digests of a file whose outer lengths hold are the hashes of every signer's certificates in order, remains of a clipped last one included; it is refused if and only if there is no v2 pair, no certificate, or a list that stops in a header |
| Apk.TruncatedList | companion-android/ci/apk-facts.py:150-155 | a list of chunks cut at any byte yields the chunks whose header is there, the last with the bytes there are, and raises if and only if the cut is in a header |
| Apk.TruncatedSigner | companion-android/ci/apk-facts.py:174-181 | a whole signer cut at any byte: refused if and only if before its certificate section begins, in a certificate's header or in a section's; otherwise which certificates are hashed, and how much of the last |
| Apk.CutBehindSignedData | companion-android/ci/apk-facts.py:174-181 | a signer cut anywhere in its signatures or key keeps all its certificates |
| Apk.TruncatedValue | companion-android/ci/apk-facts.py:172-186 | a whole v2 value of any signers cut at any byte: refused if and only if the position says so, and otherwise the hashes of the certificates reached |
| Apk.TruncatedValueInAFile | companion-android/ci/apk-facts.py:158-188 | the same for the digests of a file whose v2 pair holds such a value |
| Apk.BlockRaisesExactly | companion-android/ci/apk-facts.py:131-147 | for every file, when the scan for the block raises struct.error or OverflowError instead of refusing, by the sizes around the block |
| Apk.PairsRaiseExactly | companion-android/ci/apk-facts.py:163-187 | for every block, the pair loop raises struct.error if and only if it comes to fewer than twelve bytes |
| Apk.FileRaisesExactly | companion-android/ci/apk-facts.py:158-188 | for every file, both together |
| Apk.OversizedTrailerEscapes | companion-android/ci/apk-facts.py:142-144 | a trailing size that leads back past -2^63 raises OverflowError, whatever the file around it |
| Fingerprint.Fingerprint | travel/bond-agent/zippie/build.py:62-80 | the digest of the stream of the sorted listing, cut to sixteen characters unless full |
| Fingerprint.SortedIsSorted | travel/bond-agent/zippie/build.py:72 | the listing sorted by name holds the same files |
| Fingerprint.LessExactly | travel/bond-agent/zippie/build.py:72 | the order is that of the first differing byte, a name before what continues it |
| Fingerprint.SortedListingIsUnique | travel/bond-agent/zippie/build.py:72 | a set of files has one sorted listing |
| Fingerprint.RecordReadsBack | travel/bond-agent/zippie/build.py:74-78 | name, length and contents are read back from the stream, up to the next record |
| Fingerprint.StreamIsUniquelyDecodable | travel/bond-agent/zippie/build.py:74-78 | two listings with the same stream are the same listing: no name or content can be mistaken for a boundary |
| Fingerprint.SameStreamExactly | travel/bond-agent/zippie/build.py:62-80 | two packages with NUL-free names feed the hash the same bytes if and only if they hold the same files with the same contents, in whatever order they are listed |

## Left out

- Sockets, HTTP handlers, subprocesses, `wg`, file permissions and the running of the generated script by bash and iptables: foreign effects. The chain,
  the texts, the queues and the bytes they carry are modelled.
- Cryptographic strength, replay, and timing of comparisons (travel/bond-agent/zippie/auth.py:111-126): not functional properties.
- Logging, and the key ids printed in it (travel/bond-agent/zippie/auth.py:368-398).
- Parsing of the rung (travel/bond-agent/zippie/auth.py:226-238): a table.
- Text is ASCII: `str.encode` gives one byte a character, `splitlines` splits at newlines only, `strip` knows ASCII whitespace, and labels and file
  names are taken as their encoded bytes (for file names, UTF-8 order is code point order, so sorting agrees).
- Floating point: rates, delays, clock readings and the loss comparison are exact reals, and `round` of a quotient is exact; rounding of a quotient whose
  operands exceed 53 bits is not modelled.
- The sequence index of the reassembler is the ascending list its heap pops, not the array `heapq` keeps; `OrderedDict` is the list of its keys.
- The reassembler's constructor refusing a negative deadline, and the scheduler, retransmission and statistics around it.
- The frame's `is_keepalive` flag is a field of the reassembler's own frame type, which leaves out the header fields the reassembler does not read.
- `flush` before `close` (hub/hub.py:974-995): a wait bounded by a clock, which the proofs about the sentinel do not need.
- Pipeline.Metrics.ObserveRouter: does not build the four lines; any list of lines is accepted, and the line builders are in `Statsd.dfy`.
- Span contents and trace routes (hub/hub.py:362-413), `router_samples` and leg counting (hub/hub.py:660-744), and the `finally` around the datagram socket.
- The hub's host probing and address screening (a router's configuration error is a given), clients of the registry and their eviction, and the live read.
- Response bodies: a 200 carries the router's document; the `hub` object added to it and the error texts are not modelled.
- Redirect.NatTable.FirstListed: the listing's text is modelled from the destination port to the target port (`Redirect.PurgeableExactly`); that `REDIRECT`
  occurs in a rule's line exactly when that is its target is taken for granted. Further criteria of a foreign rule are abstract.
- HomeServer.HomeExit.AddClient: keys are given by the caller, and the client bundle written for the device, weights and matches are not modelled.
- HomeServer.ProvisionedPeersSurvive: requires keys that occur nowhere in the conf when their turn comes, and newline-free fields; without fresh keys the
  append is skipped (home/bond-server/zippie_home.py:508).
- A process killed inside one write: the append and the save (home/bond-server/zippie_home.py:73-76, 499-509) each happen or do not; a kill inside `init`.
- Octets beyond 255: the counter has no upper check, so addresses are proved distinct, not valid.
- The numbers and reading of sysfs counters (a read that fails is an event), and the fields of a history point beyond its stamp and path names.
- Series.Phone.RefreshSeries: the candidate list and its URLs are a count; a reply's points always have a stamp.
- `counters()` of the impairment harness, which copies five fields, and the shedding controller and loopback processes beside it.
- Impair.LegState.Send: the pseudo-random generator is a function from seed and position; nothing is said about its distribution.
- The mDNS query builder, socket handling and choice of answer in adb-port.py; a compressed name in the DNS model points into the first 16 KiB, as 14 bits
  can.
- The binary manifest reader of apk-facts.py, and the `facts` summary.
- `build_info` and `module_count` of build.py; reading the directory is a given list of files.
