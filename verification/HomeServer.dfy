/**
 The home exit: its state file, its conf, the commands that provision clients, and the bring-up that
 re-renders the conf and converges the redirects.
 */
module HomeServer {
  import opened ByteStrings
  import opened Decimal
  import opened ConfText
  import Redirect

  datatype Path = Path(name: string, key: string, address: string, port: int)

  /** server.json. */
  datatype Meta = Meta(
    endpoint: string, ports: seq<int>, privateKey: string, network: string, serverAddress: string,
    wanIface: string, transportPort: Option<int>, transportPublic: Option<seq<int>>,
    nextOctet: nat, clients: map<string, seq<Path>>)

  /** The state directory: server.json and pb-home0.conf, each absent or present. */
  datatype Home = Home(meta: Option<Meta>, conf: Option<string>)

  /** The environment variables `up` reads. */
  datatype Env = Env(endpoint: Option<string>, ports: Option<string>, wan: Option<string>,
                     transportPort: Option<string>, transportPublic: Option<string>)

  /** Python's `int(text)`; None is its ValueError. */
  type PyInt = string -> Option<int>

  // ---------------------------------------------------------------- the environment

  function SplitComma(raw: string): (parts: seq<string>)
    ensures |parts| > 0
  {
    if raw == "" then [""]
    else
      var rest := SplitComma(raw[1..]);
      if raw[0] == ',' then [""] + rest else [[raw[0]] + rest[0]] + rest[1..]
  }

  function StripAll(parts: seq<string>): (r: seq<string>)
    ensures |r| == |parts|
  {
    seq(|parts|, i requires 0 <= i < |parts| => Strip(parts[i]))
  }

  predicate UsablePort(pyInt: PyInt, part: string) {
    part != "" && pyInt(part).Some? && 1 <= pyInt(part).value <= 65535
  }

  /** All or nothing: one unusable part makes the whole value unusable. */
  function ParsedPorts(pyInt: PyInt, raw: string): Option<seq<int>> {
    var parts := StripAll(SplitComma(raw));
    if forall i | 0 <= i < |parts| :: UsablePort(pyInt, parts[i]) then
      Some(seq(|parts|, i requires 0 <= i < |parts| && UsablePort(pyInt, parts[i]) => pyInt(parts[i]).value))
    else None
  }

  method ParsePorts(pyInt: PyInt, raw: string) returns (ports: Option<seq<int>>)
    ensures ports == ParsedPorts(pyInt, raw)
  {
    var parts := StripAll(SplitComma(raw));
    for i := 0 to |parts|
      invariant forall j | 0 <= j < i :: parts[j] != ""
    {
      if parts[i] == "" {
        return None;
      }
    }
    var out: seq<int> := [];
    for i := 0 to |parts|
      invariant |out| == i
      invariant forall j | 0 <= j < i :: UsablePort(pyInt, parts[j]) && out[j] == pyInt(parts[j]).value
    {
      var n := pyInt(parts[i]);
      if n.None? {
        return None;
      }
      if !(1 <= n.value <= 65535) {
        return None;
      }
      out := out + [n.value];
    }
    assert out == seq(|parts|, i requires 0 <= i < |parts| && UsablePort(pyInt, parts[i]) => pyInt(parts[i]).value);
    return Some(out);
  }

  /** The value a variable offers, or None when it is absent or blank. */
  function Offered(raw: Option<string>): Option<string> {
    if raw.None? || Strip(raw.value) == "" then None else Some(Strip(raw.value))
  }

  /** The environment made authoritative for its three keys; absent, blank or unusable leaves a key alone. */
  function Reconciled(pyInt: PyInt, env: Env, meta: Meta): Meta {
    var endpoint := if Offered(env.endpoint).Some? then Offered(env.endpoint).value else meta.endpoint;
    var ports :=
      if Offered(env.ports).Some? && ParsedPorts(pyInt, Offered(env.ports).value).Some?
      then ParsedPorts(pyInt, Offered(env.ports).value).value else meta.ports;
    var wan := if Offered(env.wan).Some? then Offered(env.wan).value else meta.wanIface;
    meta.(endpoint := endpoint, ports := ports, wanIface := wan)
  }

  /** The keys whose values differ, in the table's order. */
  function Moved(before: Meta, after: Meta): seq<string> {
    (if before.endpoint != after.endpoint then ["endpoint"] else []) +
    (if before.ports != after.ports then ["ports"] else []) +
    (if before.wanIface != after.wanIface then ["wan_iface"] else [])
  }

  method ReconcileEnv(pyInt: PyInt, env: Env, meta: Meta) returns (out: Meta, changed: seq<string>)
    ensures out == Reconciled(pyInt, env, meta)
    ensures changed == Moved(meta, out)
  {
    out, changed := meta, [];
    if Offered(env.endpoint).Some? {
      var value := Offered(env.endpoint).value;
      if out.endpoint != value {
        out := out.(endpoint := value);
        changed := changed + ["endpoint"];
      }
    }
    if Offered(env.ports).Some? {
      var value := ParsePorts(pyInt, Offered(env.ports).value);
      if value.Some? && out.ports != value.value {
        out := out.(ports := value.value);
        changed := changed + ["ports"];
      }
    }
    if Offered(env.wan).Some? {
      var value := Offered(env.wan).value;
      if out.wanIface != value {
        out := out.(wanIface := value);
        changed := changed + ["wan_iface"];
      }
    }
  }

  /** A second restart under the same environment moves nothing; key material, addresses, the octet
      counter and the clients are never touched; and ports never become empty. */
  lemma ReconcileIsStable(pyInt: PyInt, env: Env, meta: Meta)
    ensures var once := Reconciled(pyInt, env, meta);
            && Reconciled(pyInt, env, once) == once && Moved(once, Reconciled(pyInt, env, once)) == []
            && once == meta.(endpoint := once.endpoint, ports := once.ports, wanIface := once.wanIface)
            && (meta.ports != [] ==> once.ports != [])
            && (meta.wanIface != "" ==> once.wanIface != "")
  {
  }

  // ---------------------------------------------------------------- what the environment says

  predicate Blank(s: string) {
    forall i | 0 <= i < |s| :: IsSpace(s[i])
  }

  /** A value with nothing to strip. */
  predicate Trimmed(v: string) {
    v != "" && !IsSpace(v[0]) && !IsSpace(v[|v| - 1])
  }

  lemma {:induction false} RStripDrops(s: string, after: string)
    requires Blank(after) && (s == "" || !IsSpace(s[|s| - 1]))
    ensures RStrip(s + after) == s
  {
    if after == "" {
      assert s + after == s;
    } else {
      var all := s + after;
      assert all[|all| - 1] == after[|after| - 1] && all[..|all| - 1] == s + after[..|after| - 1];
      RStripDrops(s, after[..|after| - 1]);
    }
  }

  lemma {:induction false} LStripDrops(before: string, s: string)
    requires Blank(before) && (s == "" || !IsSpace(s[0]))
    ensures LStrip(before + s) == s
  {
    if before == "" {
      assert before + s == s;
    } else {
      assert (before + s)[1..] == before[1..] + s;
      LStripDrops(before[1..], s);
    }
  }

  /** Stripping takes the whitespace off both ends and nothing else. */
  lemma StripIs(before: string, v: string, after: string)
    requires Blank(before) && Blank(after) && (v == "" || Trimmed(v))
    ensures Strip(before + v + after) == v
  {
    if v == "" {
      LStripDrops(before + v + after, "");
      assert before + v + after + "" == before + v + after;
    } else {
      assert before + v + after == before + (v + after);
      LStripDrops(before, v + after);
      RStripDrops(v, after);
    }
  }

  /** A variable set to this value, with any whitespace around it. */
  ghost predicate Says(raw: Option<string>, v: string) {
    raw.Some? && exists before, after | raw.value == before + v + after :: Blank(before) && Blank(after)
  }

  predicate Silent(raw: Option<string>) {
    raw.None? || Blank(raw.value)
  }

  lemma OfferedIs(raw: Option<string>, v: string)
    ensures Says(raw, v) && Trimmed(v) ==> Offered(raw) == Some(v)
    ensures Silent(raw) ==> Offered(raw) == None
  {
    if Says(raw, v) && Trimmed(v) {
      var before, after :| raw.value == before + v + after && Blank(before) && Blank(after);
      StripIs(before, v, after);
    }
    if Silent(raw) && raw.Some? {
      StripIs(raw.value, "", "");
      assert raw.value + "" + "" == raw.value;
    }
  }

  function JoinComma(parts: seq<string>): string
    requires parts != []
  {
    if |parts| == 1 then parts[0] else parts[0] + "," + JoinComma(parts[1..])
  }

  lemma {:induction false} SplitOnePart(part: string, rest: string)
    requires ',' !in part
    ensures SplitComma(part) == [part]
    ensures SplitComma(part + "," + rest) == [part] + SplitComma(rest)
  {
    var all := part + "," + rest;
    if part == "" {
      assert all[1..] == rest;
    } else {
      assert all[1..] == part[1..] + "," + rest && part == [part[0]] + part[1..];
      SplitOnePart(part[1..], rest);
    }
  }

  /** Splitting at commas gives back the parts. */
  lemma {:induction false} SplitInvertsJoinComma(parts: seq<string>)
    requires parts != [] && forall part | part in parts :: ',' !in part
    ensures SplitComma(JoinComma(parts)) == parts
  {
    if |parts| == 1 {
      SplitOnePart(parts[0], "");
      assert parts == [parts[0]];
    } else {
      SplitInvertsJoinComma(parts[1..]);
      SplitOnePart(parts[0], JoinComma(parts[1..]));
      assert parts == [parts[0]] + parts[1..];
    }
  }

  /** A comma-separated list of these ports, each with any whitespace around its numeral. */
  ghost predicate ListsPorts(pyInt: PyInt, text: string, ports: seq<int>) {
    exists parts: seq<string> | parts != [] && text == JoinComma(parts) ::
      && |parts| == |ports| && (forall part | part in parts :: ',' !in part)
      && forall i | 0 <= i < |parts| :: Strip(parts[i]) != "" && pyInt(Strip(parts[i])) == Some(ports[i])
  }

  lemma PortsAreRead(pyInt: PyInt, text: string, ports: seq<int>)
    requires ListsPorts(pyInt, text, ports)
    ensures ParsedPorts(pyInt, text) == if forall i | 0 <= i < |ports| :: 1 <= ports[i] <= 65535 then Some(ports) else None
  {
    hide Strip, SplitComma, JoinComma;
    var parts: seq<string> :| parts != [] && text == JoinComma(parts)
      && |parts| == |ports| && (forall part | part in parts :: ',' !in part)
      && forall i | 0 <= i < |parts| :: Strip(parts[i]) != "" && pyInt(Strip(parts[i])) == Some(ports[i]);
    SplitInvertsJoinComma(parts);
    var stripped := StripAll(SplitComma(text));
    if i :| 0 <= i < |ports| && !(1 <= ports[i] <= 65535) {
      assert !UsablePort(pyInt, stripped[i]);
    } else {
      assert forall i | 0 <= i < |stripped| :: UsablePort(pyInt, stripped[i]);
      assert ParsedPorts(pyInt, text).value == ports;
    }
  }

  /** THE ENVIRONMENT WINS where it says something usable, and only there: the endpoint, the WAN interface and
      the ports follow it, whatever whitespace is around them, and what it leaves out or blank, or a list
      with a port out of range, changes nothing. */
  lemma EnvironmentWins(pyInt: PyInt, env: Env, meta: Meta, endpoint: string, wan: string, ports: seq<int>)
    requires Trimmed(endpoint) && Trimmed(wan)
    ensures var after := Reconciled(pyInt, env, meta);
      && (Says(env.endpoint, endpoint) ==> after.endpoint == endpoint) && (Silent(env.endpoint) ==> after.endpoint == meta.endpoint)
      && (Says(env.wan, wan) ==> after.wanIface == wan) && (Silent(env.wan) ==> after.wanIface == meta.wanIface)
      && (Silent(env.ports) ==> after.ports == meta.ports)
      && (forall text | Says(env.ports, text) && Trimmed(text) && ListsPorts(pyInt, text, ports) ::
            after.ports == if forall i | 0 <= i < |ports| :: 1 <= ports[i] <= 65535 then ports else meta.ports)
  {
    hide Offered, Says, Silent, Trimmed, ParsedPorts, ListsPorts;
    OfferedIs(env.endpoint, endpoint);
    OfferedIs(env.wan, wan);
    OfferedIs(env.ports, "");
    forall text | Says(env.ports, text) && Trimmed(text) && ListsPorts(pyInt, text, ports)
      ensures Reconciled(pyInt, env, meta).ports == if forall i | 0 <= i < |ports| :: 1 <= ports[i] <= 65535 then ports else meta.ports
    {
      OfferedIs(env.ports, text);
      PortsAreRead(pyInt, text, ports);
    }
  }

  // ---------------------------------------------------------------- addresses

  function BeforeSlash(s: string): string {
    if s == "" || s[0] == '/' then "" else [s[0]] + BeforeSlash(s[1..])
  }

  function BeforeLastDot(s: string): Option<string> {
    if s == "" then None
    else if s[|s| - 1] == '.' then Some(s[..|s| - 1])
    else BeforeLastDot(s[..|s| - 1])
  }

  /** "10.66.0.0/24" -> "10.66.0". */
  function NetworkPrefix(network: string): string {
    var host := BeforeSlash(network);
    var cut := BeforeLastDot(host);
    if cut.Some? then cut.value else host
  }

  lemma {:induction false} BeforeSlashOf(host: string, mask: string)
    requires '/' !in host
    ensures BeforeSlash(host + "/" + mask) == host && BeforeSlash(host) == host
  {
    if host != "" {
      assert (host + "/" + mask)[1..] == host[1..] + "/" + mask;
      BeforeSlashOf(host[1..], mask);
      assert host == [host[0]] + host[1..];
    }
  }

  lemma {:induction false} BeforeLastDotOf(a: string, b: string)
    requires '.' !in b
    ensures BeforeLastDot(a + "." + b) == Some(a) && BeforeLastDot(b) == None
  {
    var all := a + "." + b;
    if b == "" {
      assert all[..|all| - 1] == a;
    } else {
      assert all[..|all| - 1] == a + "." + b[..|b| - 1];
      BeforeLastDotOf(a, b[..|b| - 1]);
    }
  }

  /** The prefix of a network is what stands before its last component, mask or no mask; without a dot it is
      all that stands before the slash. */
  lemma NetworkPrefixIs(a: string, b: string, mask: string)
    requires '/' !in a && '/' !in b && '.' !in b
    ensures NetworkPrefix(a + "." + b + "/" + mask) == a && NetworkPrefix(a + "." + b) == a
    ensures NetworkPrefix(b + "/" + mask) == b && NetworkPrefix(b) == b
  {
    BeforeSlashOf(a + "." + b, mask);
    BeforeSlashOf(b, mask);
    BeforeLastDotOf(a, b);
  }

  function Address(prefix: string, octet: nat): string {
    prefix + "." + Dec(octet) + "/32"
  }

  lemma AddressInjective(prefix: string, a: nat, b: nat)
    ensures Address(prefix, a) == Address(prefix, b) ==> a == b
  {
    if Address(prefix, a) == Address(prefix, b) {
      var head := prefix + ".";
      assert Address(prefix, a) == head + (Dec(a) + "/32") && Address(prefix, b) == head + (Dec(b) + "/32");
      assert Address(prefix, a)[|head|..] == Dec(a) + "/32";
      assert Address(prefix, b)[|head|..] == Dec(b) + "/32";
      assert (Dec(a) + "/32")[..|Dec(a) + "/32"| - 3] == Dec(a);
      assert (Dec(b) + "/32")[..|Dec(b) + "/32"| - 3] == Dec(b);
      DecInjective(a, b);
    }
  }

  lemma {:induction false} PrefixIsOneLine(network: string)
    requires OneLine(network)
    ensures OneLine(NetworkPrefix(network))
  {
    BeforeSlashIsPrefix(network);
    BeforeLastDotIsPrefix(BeforeSlash(network));
  }

  lemma {:induction false} BeforeSlashIsPrefix(s: string)
    ensures BeforeSlash(s) <= s
  {
    if s != "" && s[0] != '/' {
      BeforeSlashIsPrefix(s[1..]);
      assert s == [s[0]] + s[1..];
    }
  }

  lemma {:induction false} BeforeLastDotIsPrefix(s: string)
    ensures BeforeLastDot(s).Some? ==> BeforeLastDot(s).value <= s
  {
    if s != "" && s[|s| - 1] != '.' {
      BeforeLastDotIsPrefix(s[..|s| - 1]);
    }
  }

  lemma AddressIsClean(prefix: string, octet: nat)
    requires OneLine(prefix)
    ensures OneLine(Address(prefix, octet)) && Address(prefix, octet) != ""
    ensures !IsSpace(Address(prefix, octet)[|Address(prefix, octet)| - 1])
  {
    DecIsOneLine(octet);
    OneLineAppend(prefix, ".");
    OneLineAppend(prefix + ".", Dec(octet));
    OneLineAppend(prefix + "." + Dec(octet), "/32");
  }

  // ---------------------------------------------------------------- provisioning, as functions

  /** The peer minted for one path. */
  function PeerFor(prefix: string, client: string, path: string, key: string, octet: nat): Peer {
    Peer(client + "/" + path, key, Address(prefix, octet))
  }

  function PeersFor(prefix: string, client: string, names: seq<string>, keys: seq<string>, octet: nat): (peers: seq<Peer>)
    requires |keys| == |names|
    ensures |peers| == |names|
  {
    seq(|names|, i requires 0 <= i < |names| => PeerFor(prefix, client, names[i], keys[i], octet + i))
  }

  function PathsFor(prefix: string, ports: seq<int>, names: seq<string>, keys: seq<string>, octet: nat): (paths: seq<Path>)
    requires |keys| == |names| && (ports != [] || names == [])
    ensures |paths| == |names|
  {
    seq(|names|, i requires 0 <= i < |names| => Path(names[i], keys[i], Address(prefix, octet + i), ports[i % |ports|]))
  }

  /** The conf after some peers were appended one by one; an absent file stays absent. */
  ghost function WithPeers(conf: Option<string>, peers: seq<Peer>): Option<string> {
    if conf.None? || peers == [] then conf
    else Some(WithPeer(WithPeers(conf, peers[..|peers| - 1]).value, peers[|peers| - 1]))
  }

  lemma WithOneMorePeer(conf: Option<string>, peers: seq<Peer>, i: nat)
    requires i < |peers|
    ensures WithPeers(conf, peers[..i + 1]) ==
            if conf.None? then None else Some(WithPeer(WithPeers(conf, peers[..i]).value, peers[i]))
    ensures WithPeers(conf, peers[..i]).None? <==> conf.None?
  {
    assert peers[..i + 1][..i] == peers[..i];
  }

  lemma WithOnePeer(conf: Option<string>, p: Peer)
    ensures WithPeers(conf, [p]) == if conf.None? then None else Some(WithPeer(conf.value, p))
  {
    assert [p][..0] == [];
  }

  function InterfaceOf(meta: Meta): Interface
    requires meta.ports != []
  {
    Interface(meta.privateKey, meta.serverAddress, meta.ports[0], meta.wanIface)
  }

  predicate CanRender(meta: Meta) {
    meta.privateKey != "" && meta.serverAddress != "" && meta.ports != [] && meta.wanIface != ""
  }

  /** `init`: a fresh state and a conf with no peers, unless one exists and force was not given. */
  function AfterInit(h: Home, fresh_: Meta, force: bool): Home
    requires fresh_.ports != []
  {
    if h.meta.Some? && !force then h else Home(Some(fresh_), Some(Refreshed(InterfaceOf(fresh_), "", false)))
  }

  predicate RefusesClient(h: Home, client: string, force: bool) {
    h.meta.None? || (client in h.meta.value.clients && !force)
  }

  /** Refused, or stopped at the first path because the rotation has no port to hand out. */
  predicate AddsNoClient(h: Home, client: string, force: bool, names: seq<string>) {
    RefusesClient(h, client, force) || (names != [] && h.meta.value.ports == [])
  }

  ghost function AfterAddClient(h: Home, client: string, force: bool, names: seq<string>, keys: seq<string>): Home
    requires |keys| == |names|
  {
    if AddsNoClient(h, client, force, names) then h
    else
      var meta := h.meta.value;
      var prefix := NetworkPrefix(meta.network);
      Home(Some(meta.(clients := meta.clients[client := PathsFor(prefix, meta.ports, names, keys, meta.nextOctet)],
                      nextOctet := meta.nextOctet + |names|)),
           WithPeers(h.conf, PeersFor(prefix, client, names, keys, meta.nextOctet)))
  }

  predicate RefusesPath(h: Home, client: string, path: string) {
    || h.meta.None? || client !in h.meta.value.clients
    || exists i | 0 <= i < |h.meta.value.clients[client]| :: h.meta.value.clients[client][i].name == path
  }

  /** Refused, or stopped because no port was named and there is none to hand out. */
  predicate AddsNoPath(h: Home, client: string, path: string, port: int) {
    RefusesPath(h, client, path) || (port == 0 && h.meta.value.ports == [])
  }

  ghost function AfterAddPath(h: Home, client: string, path: string, key: string, port: int): Home {
    if AddsNoPath(h, client, path, port) then h
    else
      var meta := h.meta.value;
      var paths := meta.clients[client];
      var p := PeerFor(NetworkPrefix(meta.network), client, path, key, meta.nextOctet);
      var chosen := if port != 0 then port else meta.ports[|paths| % |meta.ports|];
      Home(Some(meta.(clients := meta.clients[client := paths + [Path(path, key, p.allowed, chosen)]],
                      nextOctet := meta.nextOctet + 1)),
           WithPeers(h.conf, [p]))
  }

  /** What `up` leaves in the state directory. */
  function AfterUp(pyInt: PyInt, h: Home, env: Env): Home {
    if h.meta.None? || h.conf.None? then h
    else
      var meta := Reconciled(pyInt, env, h.meta.value);
      Home(Some(meta), Some(if CanRender(meta) then Refreshed(InterfaceOf(meta), h.conf.value, true) else h.conf.value))
  }

  /** The transport port `up` uses: the environment's when it is set, the state's otherwise. None in the
      inner option is a value `int` refuses. */
  function TransportPort(pyInt: PyInt, env: Env, meta: Meta): Option<Option<int>> {
    if env.transportPort.Some? && env.transportPort.value != "" then
      if pyInt(env.transportPort.value).Some? then Some(Some(pyInt(env.transportPort.value).value)) else None
    else Some(if meta.transportPort.Some? && meta.transportPort.value != 0 then meta.transportPort else None)
  }

  function NonBlank(parts: seq<string>): seq<string> {
    if parts == [] then []
    else (if Strip(parts[0]) != "" then [Strip(parts[0])] else []) + NonBlank(parts[1..])
  }

  function AllInts(pyInt: PyInt, parts: seq<string>): Option<seq<int>> {
    if parts == [] then Some([])
    else
      var rest := AllInts(pyInt, parts[1..]);
      if pyInt(parts[0]).None? || rest.None? then None else Some([pyInt(parts[0]).value] + rest.value)
  }

  function TransportPublic(pyInt: PyInt, env: Env, meta: Meta): Option<Option<seq<int>>> {
    if env.transportPublic.Some? && env.transportPublic.value != "" then
      var named := NonBlank(SplitComma(env.transportPublic.value));
      if named == [] then Some(None)
      else if AllInts(pyInt, named).None? then None
      else Some(AllInts(pyInt, named))
    else Some(meta.transportPublic)
  }

  /** Each path gets its own address and the ports in rotation, and its peer is under the same key and address. */
  lemma PathsRotate(prefix: string, client: string, ports: seq<int>, names: seq<string>, keys: seq<string>, octet: nat, i: nat)
    requires |keys| == |names| && ports != [] && i < |names|
    ensures var paths, peers := PathsFor(prefix, ports, names, keys, octet), PeersFor(prefix, client, names, keys, octet);
      && paths[i].name == names[i] && paths[i].key == keys[i] && paths[i].address == prefix + "." + Dec(octet + i) + "/32"
      && peers[i] == Peer(client + "/" + names[i], paths[i].key, paths[i].address)
      && (i < |ports| ==> paths[i].port == ports[i])
      && (i + |ports| < |names| ==> paths[i + |ports|].port == paths[i].port)
  {
    hide Dec;
    RotationRepeats(i, |ports|);
  }

  lemma RotationRepeats(i: nat, n: nat)
    requires n > 0
    ensures (i + n) % n == i % n && (i < n ==> i % n == i)
  {
    RemainderIs(i + n, n, i / n + 1, i % n);
    if i < n {
      RemainderIs(i, n, 0, i);
    }
  }

  lemma RemainderIs(x: nat, n: nat, q: nat, r: nat)
    requires r < n && x == n * q + r
    ensures x % n == r
  {
    var d := q - x / n;
    MultipleIsFar(n, d);
    assert n * d == n * q - n * (x / n) == x % n - r;
  }

  lemma MultipleIsFar(n: int, d: int)
    requires n > 0
    ensures d >= 1 ==> n * d >= n
    ensures d <= -1 ==> n * d <= -n
  {
    if d >= 1 {
      assert n * d == n + n * (d - 1) >= n;
    } else if d <= -1 {
      assert n * d == -n + n * (d + 1) <= -n;
    }
  }

  /** A CLIENT IS ADDED exactly when the state is initialised, the client is new or forced, and its paths can be
      given ports: then its record is replaced by one entry for each path, the counter goes past them, the
      conf gets their peers, and everything else stays. */
  lemma ClientAddedExactly(h: Home, client: string, force: bool, names: seq<string>, keys: seq<string>)
    requires |keys| == |names|
    ensures var after := AfterAddClient(h, client, force, names, keys);
      if h.meta.None? || (client in h.meta.value.clients && !force) || (h.meta.value.ports == [] && names != []) then after == h
      else
        var meta, prefix := h.meta.value, NetworkPrefix(h.meta.value.network);
        && after.meta.Some? && after.meta.value == meta.(clients := after.meta.value.clients, nextOctet := meta.nextOctet + |names|)
        && after.meta.value.clients.Keys == meta.clients.Keys + {client}
        && (forall c | c in meta.clients && c != client :: after.meta.value.clients[c] == meta.clients[c])
        && after.meta.value.clients[client] == PathsFor(prefix, meta.ports, names, keys, meta.nextOctet)
        && after.conf == WithPeers(h.conf, PeersFor(prefix, client, names, keys, meta.nextOctet))
  {
    hide WithPeers, NetworkPrefix, PathsFor, PeersFor;
  }

  /** A PATH IS ADDED exactly to a known client without a path of that name, when it can be given a port: the named
      one, or the next in the client's rotation. */
  lemma PathAddedExactly(h: Home, client: string, path: string, key: string, port: int)
    ensures var after := AfterAddPath(h, client, path, key, port);
      if h.meta.None? || client !in h.meta.value.clients
         || (exists p | p in h.meta.value.clients[client] :: p.name == path)
         || (port == 0 && h.meta.value.ports == []) then after == h
      else
        var meta, had := h.meta.value, h.meta.value.clients[client];
        var address := NetworkPrefix(meta.network) + "." + Dec(meta.nextOctet) + "/32";
        && after.meta == Some(meta.(clients := after.meta.value.clients, nextOctet := meta.nextOctet + 1))
        && after.meta.value.clients
           == meta.clients[client := had + [Path(path, key, address, if port != 0 then port else meta.ports[|had| % |meta.ports|])]]
        && after.conf == if h.conf.None? then None else Some(WithPeer(h.conf.value, Peer(client + "/" + path, key, address)))
  {
    hide NetworkPrefix, Dec, WithPeer;
    if h.meta.Some? && client in h.meta.value.clients {
      var had := h.meta.value.clients[client];
      if p :| p in had && p.name == path {
        var i :| 0 <= i < |had| && had[i] == p;
        assert had[i].name == path;
      }
      if i :| 0 <= i < |had| && had[i].name == path {
        assert had[i] in had;
      }
    }
    WithOnePeer(h.conf, Peer(client + "/" + path, key, if h.meta.Some? then NetworkPrefix(h.meta.value.network) + "." + Dec(h.meta.value.nextOctet) + "/32" else ""));
  }

  /** UP RENDERS THE CONF: with nothing missing, what it leaves says the key and the address of the state, and the
      port and the WAN interface as the environment reconciled them. */
  lemma UpRenders(pyInt: PyInt, h: Home, env: Env)
    requires h.meta.Some? && h.conf.Some?
    requires var meta := Reconciled(pyInt, env, h.meta.value);
      && meta.privateKey != "" && meta.serverAddress != "" && meta.ports != [] && meta.wanIface != ""
      && OneLine(meta.privateKey) && OneLine(meta.serverAddress) && OneLine(meta.wanIface)
    ensures var after, meta := AfterUp(pyInt, h, env), Reconciled(pyInt, env, h.meta.value);
      && after.meta == Some(meta) && after.conf.Some?
      && SaysInterface(LinesOf(after.conf.value), meta.privateKey, meta.serverAddress, meta.ports[0], meta.wanIface)
  {
    hide Refreshed, SaysInterface, LinesOf, Render, Reconciled, PeerSection;
    var meta := Reconciled(pyInt, env, h.meta.value);
    var i := InterfaceOf(meta);
    RefreshedShape(i, h.conf.value);
    StanzaReadsBack(i, Below(PeerSection(h.conf.value)));
  }

  /** ADD-PATH CONTINUES ADD-CLIENT: minting a client and then one more path leaves exactly what minting it with
      that path last would have - record, ports in rotation, octets and conf. */
  lemma AddPathContinues(h: Home, client: string, force: bool, names: seq<string>, keys: seq<string>, path: string, key: string)
    requires |keys| == |names| && path !in names && !RefusesClient(h, client, force) && h.meta.value.ports != []
    ensures AfterAddPath(AfterAddClient(h, client, force, names, keys), client, path, key, 0)
            == AfterAddClient(h, client, force, names + [path], keys + [key])
  {
    hide WithPeers, NetworkPrefix, Address;
    var meta := h.meta.value;
    var prefix := NetworkPrefix(meta.network);
    var mid := AfterAddClient(h, client, force, names, keys);
    var all := PeersFor(prefix, client, names + [path], keys + [key], meta.nextOctet);
    assert !RefusesPath(mid, client, path);
    assert all[..|names|] == PeersFor(prefix, client, names, keys, meta.nextOctet);
    assert all[..|names| + 1] == all;
    WithOneMorePeer(h.conf, all, |names|);
    WithOnePeer(mid.conf, all[|names|]);
    assert PathsFor(prefix, meta.ports, names + [path], keys + [key], meta.nextOctet)
           == PathsFor(prefix, meta.ports, names, keys, meta.nextOctet)
              + [Path(path, key, Address(prefix, meta.nextOctet + |names|), meta.ports[|names| % |meta.ports|])];
    var once := meta.clients[client := PathsFor(prefix, meta.ports, names, keys, meta.nextOctet)];
    var whole := PathsFor(prefix, meta.ports, names + [path], keys + [key], meta.nextOctet);
    assert once[client := whole] == meta.clients[client := whole];
  }

  /** WHERE THE TRANSPORT'S SETTINGS COME FROM: the environment's port where it is set at all, the state's
      otherwise, 0 meaning none; the environment's comma-separated list of public ports without its blank
      parts, or no list when all are blank, and the state's where it is not set. */
  lemma TransportComesFrom(pyInt: PyInt, env: Env, meta: Meta, parts: seq<string>, ports: seq<int>)
    requires parts != [] && forall part | part in parts :: ',' !in part
    requires |ports| == |NonBlank(parts)| && forall i | 0 <= i < |ports| :: pyInt(NonBlank(parts)[i]) == Some(ports[i])
    ensures var port, public := TransportPort(pyInt, env, meta), TransportPublic(pyInt, env, meta);
      && (env.transportPort in {None, Some("")} ==> port == Some(if meta.transportPort == Some(0) then None else meta.transportPort))
      && (forall text, n | env.transportPort == Some(text) && text != "" && pyInt(text) == Some(n) :: port == Some(Some(n)))
      && (forall text | env.transportPort == Some(text) && text != "" && pyInt(text).None? :: port == None)
      && (env.transportPublic in {None, Some("")} ==> public == Some(meta.transportPublic))
      && (env.transportPublic == Some(JoinComma(parts)) && JoinComma(parts) != "" ==>
            public == Some(if ports == [] then None else Some(ports)))
  {
    hide SplitComma, JoinComma, NonBlank;
    SplitInvertsJoinComma(parts);
    AllIntsAre(pyInt, NonBlank(parts), ports);
  }

  lemma {:induction false} AllIntsAre(pyInt: PyInt, parts: seq<string>, ports: seq<int>)
    requires |ports| == |parts| && forall i | 0 <= i < |ports| :: pyInt(parts[i]) == Some(ports[i])
    ensures AllInts(pyInt, parts) == Some(ports)
  {
    if parts != [] {
      AllIntsAre(pyInt, parts[1..], ports[1..]);
      assert ports == [ports[0]] + ports[1..];
    }
  }

  /** The blank parts are left out, and the others stripped, in order. */
  lemma {:induction false} NonBlankIs(parts: seq<string>, more: seq<string>)
    ensures NonBlank(parts + more) == NonBlank(parts) + NonBlank(more)
  {
    hide Strip;
    if parts == [] {
      assert parts + more == more;
    } else {
      assert (parts + more)[1..] == parts[1..] + more;
      NonBlankIs(parts[1..], more);
    }
  }

  lemma NonBlankOne(part: string)
    ensures NonBlank([part]) == if Blank(part) then [] else [Strip(part)]
  {
    BlankExactly(part);
    hide Strip, Blank;
    assert [part][1..] == [];
  }

  lemma {:induction false} BlankExactly(s: string)
    ensures Strip(s) == "" <==> Blank(s)
  {
    if Blank(s) {
      StripIs(s, "", "");
      assert s + "" + "" == s;
    } else {
      StripKeeps(s);
    }
  }

  lemma {:induction false} StripKeeps(s: string)
    requires !Blank(s)
    ensures Strip(s) != ""
    decreases |s|
  {
    if IsSpace(s[0]) {
      assert s == [s[0]] + s[1..];
      StripKeeps(s[1..]);
    } else {
      RStripKeeps(s);
    }
  }

  lemma {:induction false} RStripKeeps(s: string)
    requires s != "" && !IsSpace(s[0])
    ensures RStrip(s) != ""
    decreases |s|
  {
    if IsSpace(s[|s| - 1]) {
      RStripKeeps(s[..|s| - 1]);
    }
  }

  datatype Outcome =
    | Exited
    | Crashed(confChanged: bool)
    | Done(confChanged: bool)

  // ---------------------------------------------------------------- the commands

  class HomeExit {
    var meta: Option<Meta>
    var conf: Option<string>
    const table: Redirect.NatTable

    function State(): Home
      reads this
    {
      Home(meta, conf)
    }

    constructor (meta: Option<Meta>, conf: Option<string>, table: Redirect.NatTable)
      ensures State() == Home(meta, conf) && this.table == table
    {
      this.meta, this.conf, this.table := meta, conf, table;
    }

    method Init(newMeta: Meta, force: bool)
      requires newMeta.ports != []
      modifies this
      ensures State() == AfterInit(old(State()), newMeta, force)
    {
      if meta.Some? && !force {
        return;
      }
      meta := Some(newMeta);
      conf := Some(Refreshed(InterfaceOf(newMeta), if conf.Some? then conf.value else "", false));
    }

    /** Mint every path of a new client; `keys` are the public keys generated, in path order. */
    method AddClient(client: string, force: bool, names: seq<string>, keys: seq<string>) returns (added: bool)
      requires |keys| == |names|
      modifies this
      ensures State() == AfterAddClient(old(State()), client, force, names, keys)
      ensures added <==> !AddsNoClient(old(State()), client, force, names)
    {
      hide WithPeers, NetworkPrefix, Address;
      if meta.None? || (client in meta.value.clients && !force) {
        return false;
      }
      var was := meta.value;
      if |names| > 0 && |was.ports| == 0 {
        return false;
      }
      var prefix := NetworkPrefix(was.network);
      var octet := was.nextOctet;
      var paths: seq<Path> := [];
      ghost var all, allPaths := PeersFor(prefix, client, names, keys, octet), PathsFor(prefix, was.ports, names, keys, octet);
      NoMorePeers(conf);
      for i := 0 to |names|
        invariant meta == Some(was)
        invariant octet == was.nextOctet + i
        invariant paths == allPaths[..i]
        invariant conf == WithPeers(old(conf), all[..i])
      {
        WithOneMorePeer(old(conf), all, i);
        TakeOneMore(allPaths, i);
        var p := PeerFor(prefix, client, names[i], keys[i], octet);
        paths := paths + [Path(names[i], keys[i], p.allowed, was.ports[i % |was.ports|])];
        AppendToConf(p);
        octet := octet + 1;
      }
      TakeAll(all);
      TakeAll(allPaths);
      meta := Some(was.(clients := was.clients[client := paths], nextOctet := octet));
      return true;
    }

    /** `_append_peer`: nothing to append to when the conf is absent. */
    method AppendToConf(p: Peer)
      modifies this`conf
      ensures conf == WithPeers(old(conf), [p])
      ensures conf == if old(conf).None? then None else Some(WithPeer(old(conf).value, p))
    {
      WithOnePeer(conf, p);
      if conf.Some? {
        var text := AppendPeer(conf.value, p);
        conf := Some(text);
      }
    }

    method AddPath(client: string, path: string, key: string, port: int) returns (added: bool)
      modifies this
      ensures State() == AfterAddPath(old(State()), client, path, key, port)
      ensures added <==> !AddsNoPath(old(State()), client, path, port)
    {
      if meta.None? || client !in meta.value.clients {
        return false;
      }
      var paths := meta.value.clients[client];
      for i := 0 to |paths|
        invariant forall j | 0 <= j < i :: paths[j].name != path
      {
        if paths[i].name == path {
          return false;
        }
      }
      hide WithPeers;
      var was := meta.value;
      if port == 0 && |was.ports| == 0 {
        return false;
      }
      var p := PeerFor(NetworkPrefix(was.network), client, path, key, was.nextOctet);
      var chosen := if port != 0 then port else was.ports[|paths| % |was.ports|];
      AppendToConf(p);
      meta := Some(was.(clients := was.clients[client := paths + [Path(path, key, p.allowed, chosen)]],
                        nextOctet := was.nextOctet + 1));
      return true;
    }

    /** Bring-up: the environment reconciled, the conf re-rendered around its peers, the redirects
        converged. An empty list of ports, or a transport setting that is no integer, stops it before the
        chain is touched. */
    method Up(pyInt: PyInt, env: Env) returns (r: Outcome)
      modifies this, table
      ensures State() == AfterUp(pyInt, old(State()), env)
      ensures r.Exited? <==> old(meta).None? || old(conf).None?
      ensures !r.Exited? ==> r.confChanged == (conf != old(conf))
      ensures !r.Done? ==> table.prerouting == old(table.prerouting)
      ensures !r.Exited? ==>
                (r.Crashed? <==>
                   meta.value.ports == [] || TransportPort(pyInt, env, meta.value).None? || TransportPublic(pyInt, env, meta.value).None?)
      ensures r.Done? ==>
                var transport := TransportPort(pyInt, env, meta.value).value;
                var mapping := Redirect.RedirectMapping(meta.value.ports, meta.value.ports[0], transport, TransportPublic(pyInt, env, meta.value).value);
                table.prerouting ==
                Redirect.Converged(old(table.prerouting), Redirect.InOrder(mapping.Keys), mapping, if transport.Some? then meta.value.wanIface else "")
    {
      if meta.None? || conf.None? {
        return Exited;
      }
      var reconciled, moved := ReconcileEnv(pyInt, env, meta.value);
      ReconcileIsStable(pyInt, env, meta.value);
      meta := Some(reconciled);
      var changed := false;
      if CanRender(reconciled) {
        var text := Refreshed(InterfaceOf(reconciled), conf.value, true);
        changed := text != conf.value;
        conf := Some(text);
      }
      var ports := reconciled.ports;
      if |ports| == 0 {
        return Crashed(changed);
      }
      var transport := TransportPort(pyInt, env, reconciled);
      if transport.None? {
        return Crashed(changed);
      }
      var public := TransportPublic(pyInt, env, reconciled);
      if public.None? {
        return Crashed(changed);
      }
      var mapping := Redirect.RedirectMapping(ports, ports[0], transport.value, public.value);
      table.Converge(mapping, if transport.value.Some? then reconciled.wanIface else "");
      return Done(changed);
    }
  }

  // ---------------------------------------------------------------- runs

  datatype Command =
    | DoInit(newMeta: Meta)
    | DoUp(env: Env)
    | DoAddClient(client: string, force: bool, names: seq<string>, keys: seq<string>)
    | DoAddPath(client: string, path: string, key: string, port: int)
    // killed before the state is saved: after some peers, or the one peer, were appended to the conf
    | DieInAddClient(client: string, force: bool, names: seq<string>, keys: seq<string>, appended: nat)
    | DieInAddPath(client: string, path: string, key: string, port: int)
    // killed between saving the environment's values and rewriting the conf
    | DieInUp(env: Env)

  predicate WellFormed(c: Command) {
    && (c.DoAddClient? ==> |c.keys| == |c.names|)
    && (c.DieInAddClient? ==> |c.keys| == |c.names| && c.appended <= |c.names|)
    && (c.DoInit? ==> c.newMeta.ports != [])
  }

  /** One command; an `init` without force. */
  ghost function Exec(pyInt: PyInt, h: Home, c: Command): Home
    requires WellFormed(c)
  {
    match c
    case DoInit(newMeta) => AfterInit(h, newMeta, false)
    case DoUp(env) => AfterUp(pyInt, h, env)
    case DoAddClient(client, force, names, keys) => AfterAddClient(h, client, force, names, keys)
    case DoAddPath(client, path, key, port) => AfterAddPath(h, client, path, key, port)
    case DieInAddClient(_, _, _, _, _) => Home(h.meta, WithPeers(h.conf, Provisioned(h, c)))
    case DieInAddPath(_, _, _, _) => Home(h.meta, WithPeers(h.conf, Provisioned(h, c)))
    case DieInUp(env) => if h.meta.None? || h.conf.None? then h else Home(Some(Reconciled(pyInt, env, h.meta.value)), h.conf)
  }

  /** The peers a command provisions. */
  function Provisioned(h: Home, c: Command): seq<Peer>
    requires WellFormed(c)
  {
    match c
    case DoInit(_) => []
    case DoUp(_) => []
    case DieInUp(_) => []
    case DoAddClient(client, force, names, keys) =>
      if AddsNoClient(h, client, force, names) then []
      else PeersFor(NetworkPrefix(h.meta.value.network), client, names, keys, h.meta.value.nextOctet)
    case DieInAddClient(client, force, names, keys, appended) =>
      if AddsNoClient(h, client, force, names) then []
      else PeersFor(NetworkPrefix(h.meta.value.network), client, names, keys, h.meta.value.nextOctet)[..appended]
    case DoAddPath(client, path, key, port) =>
      if AddsNoPath(h, client, path, port) then []
      else [PeerFor(NetworkPrefix(h.meta.value.network), client, path, key, h.meta.value.nextOctet)]
    case DieInAddPath(client, path, key, port) =>
      if AddsNoPath(h, client, path, port) then []
      else [PeerFor(NetworkPrefix(h.meta.value.network), client, path, key, h.meta.value.nextOctet)]
  }

  /** No field carries a newline. */
  predicate CleanCommand(c: Command) {
    match c
    case DoInit(_) => true
    case DoUp(env) => env.wan.Some? ==> OneLine(Strip(env.wan.value))
    case DoAddClient(client, _, names, keys) => OneLine(client) && AllOneLine(names) && AllOneLine(keys)
    case DoAddPath(client, path, key, _) => OneLine(client) && OneLine(path) && OneLine(key)
    case DieInAddClient(client, _, names, keys, _) => OneLine(client) && AllOneLine(names) && AllOneLine(keys)
    case DieInAddPath(client, path, key, _) => OneLine(client) && OneLine(path) && OneLine(key)
    case DieInUp(env) => env.wan.Some? ==> OneLine(Strip(env.wan.value))
  }

  predicate CleanMeta(m: Meta) {
    OneLine(m.privateKey) && OneLine(m.serverAddress) && OneLine(m.wanIface) && OneLine(m.network)
  }

  /** Each key is new when its turn comes: it does not occur anywhere in the conf. */
  ghost predicate FreshKeys(conf: string, peers: seq<Peer>) {
    forall i | 0 <= i < |peers| :: !Contains(WithPeers(Some(conf), peers[..i]).value, peers[i].key)
  }

  /** What every state of a run satisfies: the conf is some stanza followed by exactly the provisioned
      peers, and every path on record is one of them. */
  ghost predicate Tracked(h: Home, stanza: Interface, peers: seq<Peer>) {
    && h.meta.Some? && CleanMeta(h.meta.value)
    && CleanInterface(stanza) && AllClean(peers)
    && h.conf == Some(Conf(stanza, peers))
    && (forall c, i | c in h.meta.value.clients && 0 <= i < |h.meta.value.clients[c]| ::
          Recorded(peers, c, h.meta.value.clients[c][i]))
  }

  ghost predicate Recorded(peers: seq<Peer>, client: string, path: Path) {
    Peer(client + "/" + path.name, path.key, path.address) in peers
  }

  /** An address below the octet counter. */
  ghost predicate HandedOut(meta: Meta, address: string) {
    exists octet: nat | octet < meta.nextOctet :: address == Address(NetworkPrefix(meta.network), octet)
  }

  lemma InitTracks(h: Home, newMeta: Meta, force: bool)
    requires CleanMeta(newMeta) && newMeta.ports != [] && newMeta.clients == map[]
    requires h.meta.None? || force
    ensures Tracked(AfterInit(h, newMeta, force), InterfaceOf(newMeta), [])
  {
    assert Conf(InterfaceOf(newMeta), []) == Render(InterfaceOf(newMeta));
  }

  lemma UpTracks(pyInt: PyInt, h: Home, env: Env, stanza: Interface, peers: seq<Peer>) returns (stanza': Interface)
    requires Tracked(h, stanza, peers) && CleanCommand(DoUp(env))
    ensures Tracked(AfterUp(pyInt, h, env), stanza', peers)
  {
    var meta := Reconciled(pyInt, env, h.meta.value);
    ReconcileIsStable(pyInt, env, h.meta.value);
    stanza' := if CanRender(meta) then InterfaceOf(meta) else stanza;
    RefreshReplacesStanza(stanza', stanza, peers);
  }

  /** Appending fresh peers one by one extends the conf by exactly those peers. */
  lemma {:induction false} WithPeersExtends(stanza: Interface, peers: seq<Peer>, more: seq<Peer>, n: nat)
    requires AllClean(peers) && AllClean(more) && n <= |more|
    requires FreshKeys(Conf(stanza, peers), more)
    ensures WithPeers(Some(Conf(stanza, peers)), more[..n]) == Some(Conf(stanza, peers + more[..n]))
  {
    hide Conf, WithPeers;
    if n == 0 {
      NoMorePeers(Some(Conf(stanza, peers)));
      assert peers + more[..0] == peers;
    } else {
      WithPeersExtends(stanza, peers, more, n - 1);
      WithOneMorePeer(Some(Conf(stanza, peers)), more, n - 1);
      AppendExtends(stanza, peers + more[..n - 1], more[n - 1]);
      assert peers + more[..n - 1] + [more[n - 1]] == peers + more[..n];
    }
  }

  lemma NoMorePeers(conf: Option<string>)
    ensures WithPeers(conf, []) == conf
  {
  }

  lemma PeersForAreClean(prefix: string, client: string, names: seq<string>, keys: seq<string>, octet: nat)
    requires OneLine(prefix) && OneLine(client) && AllOneLine(names) && AllOneLine(keys) && |keys| == |names|
    ensures AllClean(PeersFor(prefix, client, names, keys, octet))
  {
    forall i | 0 <= i < |names| ensures CleanPeer(PeersFor(prefix, client, names, keys, octet)[i]) {
      AddressIsClean(prefix, octet + i);
      OneLineAppend(client, "/");
      OneLineAppend(client + "/", names[i]);
    }
  }

  lemma NewClientIsRecorded(meta: Meta, c: Command, peers: seq<Peer>)
    requires c.DoAddClient? && WellFormed(c) && (meta.ports != [] || c.names == [])
    requires forall k, i | k in meta.clients && 0 <= i < |meta.clients[k]| :: Recorded(peers, k, meta.clients[k][i])
    ensures var prefix := NetworkPrefix(meta.network);
            var clients := meta.clients[c.client := PathsFor(prefix, meta.ports, c.names, c.keys, meta.nextOctet)];
            forall k, i | k in clients && 0 <= i < |clients[k]| ::
              Recorded(peers + PeersFor(prefix, c.client, c.names, c.keys, meta.nextOctet), k, clients[k][i])
  {
    var prefix := NetworkPrefix(meta.network);
    var more := PeersFor(prefix, c.client, c.names, c.keys, meta.nextOctet);
    var clients := meta.clients[c.client := PathsFor(prefix, meta.ports, c.names, c.keys, meta.nextOctet)];
    forall k, i | k in clients && 0 <= i < |clients[k]|
      ensures Recorded(peers + more, k, clients[k][i])
    {
      if k == c.client {
        assert more[i] in more;
      } else {
        assert Recorded(peers, k, meta.clients[k][i]);
      }
    }
  }

  lemma AddClientTracks(h: Home, c: Command, stanza: Interface, peers: seq<Peer>)
    requires c.DoAddClient? && WellFormed(c) && CleanCommand(c)
    requires Tracked(h, stanza, peers) && FreshKeys(h.conf.value, Provisioned(h, c))
    ensures Tracked(AfterAddClient(h, c.client, c.force, c.names, c.keys), stanza, peers + Provisioned(h, c))
  {
    hide Conf, NetworkPrefix, WithPeers;
    var more := Provisioned(h, c);
    if AddsNoClient(h, c.client, c.force, c.names) {
      assert peers + more == peers;
    } else {
      var meta := h.meta.value;
      PrefixIsOneLine(meta.network);
      PeersForAreClean(NetworkPrefix(meta.network), c.client, c.names, c.keys, meta.nextOctet);
      WithPeersExtends(stanza, peers, more, |more|);
      assert more[..|more|] == more;
      NewClientIsRecorded(meta, c, peers);
    }
  }

  lemma AddPathTracks(h: Home, c: Command, stanza: Interface, peers: seq<Peer>)
    requires c.DoAddPath? && CleanCommand(c)
    requires Tracked(h, stanza, peers) && FreshKeys(h.conf.value, Provisioned(h, c))
    ensures Tracked(AfterAddPath(h, c.client, c.path, c.key, c.port), stanza, peers + Provisioned(h, c))
  {
    hide Conf, NetworkPrefix, WithPeers, Address;
    var more := Provisioned(h, c);
    if AddsNoPath(h, c.client, c.path, c.port) {
      assert peers + more == peers;
    } else {
      var meta := h.meta.value;
      PrefixIsOneLine(meta.network);
      AddressIsClean(NetworkPrefix(meta.network), meta.nextOctet);
      OneLineAppend(c.client, "/");
      OneLineAppend(c.client + "/", c.path);
      WithPeersExtends(stanza, peers, more, |more|);
      assert more[..|more|] == more;
      var after := AfterAddPath(h, c.client, c.path, c.key, c.port);
      NewPathIsRecorded(meta.clients, peers, more[0], c.client, after.meta.value.clients[c.client][|meta.clients[c.client]|]);
    }
  }

  lemma NewPathIsRecorded(clients: map<string, seq<Path>>, peers: seq<Peer>, p: Peer, client: string, path: Path)
    requires client in clients && p == Peer(client + "/" + path.name, path.key, path.address)
    requires forall k, i | k in clients && 0 <= i < |clients[k]| :: Recorded(peers, k, clients[k][i])
    ensures var after := clients[client := clients[client] + [path]];
            forall k, i | k in after && 0 <= i < |after[k]| :: Recorded(peers + [p], k, after[k][i])
  {
    var after := clients[client := clients[client] + [path]];
    forall k, i | k in after && 0 <= i < |after[k]| ensures Recorded(peers + [p], k, after[k][i]) {
      if k != client || i < |clients[k]| {
        assert Recorded(peers, k, clients[k][i]);
      } else {
        assert (peers + [p])[|peers|] == p;
      }
    }
  }

  /** Peers appended and not recorded. */
  lemma UnsavedTracks(h: Home, c: Command, stanza: Interface, peers: seq<Peer>)
    requires (c.DieInAddClient? || c.DieInAddPath?) && WellFormed(c) && CleanCommand(c)
    requires Tracked(h, stanza, peers) && FreshKeys(h.conf.value, Provisioned(h, c))
    ensures Tracked(Home(h.meta, WithPeers(h.conf, Provisioned(h, c))), stanza, peers + Provisioned(h, c))
  {
    hide Conf, NetworkPrefix, WithPeers;
    var more, meta := Provisioned(h, c), h.meta.value;
    PrefixIsOneLine(meta.network);
    if c.DieInAddClient? {
      PeersForAreClean(NetworkPrefix(meta.network), c.client, c.names, c.keys, meta.nextOctet);
    } else {
      AddressIsClean(NetworkPrefix(meta.network), meta.nextOctet);
      OneLineAppend(c.client, "/");
      OneLineAppend(c.client + "/", c.path);
    }
    WithPeersExtends(stanza, peers, more, |more|);
    assert more[..|more|] == more;
    forall k, i | k in meta.clients && 0 <= i < |meta.clients[k]| ensures Recorded(peers + more, k, meta.clients[k][i]) {
      assert Recorded(peers, k, meta.clients[k][i]);
    }
  }

  /** A run of commands after an init, with the states it passes through. */
  ghost predicate IsRun(pyInt: PyInt, states: seq<Home>, commands: seq<Command>) {
    && |states| == |commands| + 1
    && (forall i | 0 <= i < |commands| ::
          && WellFormed(commands[i]) && CleanCommand(commands[i])
          && states[i + 1] == Exec(pyInt, states[i], commands[i])
          && (states[i].conf.Some? ==> FreshKeys(states[i].conf.value, Provisioned(states[i], commands[i]))))
  }

  /** Everything provisioned by the first `n` commands, in order. */
  ghost function ProvisionedBy(states: seq<Home>, commands: seq<Command>, n: nat): seq<Peer>
    requires n <= |commands| < |states|
    requires forall i | 0 <= i < |commands| :: WellFormed(commands[i])
  {
    if n == 0 then [] else ProvisionedBy(states, commands, n - 1) + Provisioned(states[n - 1], commands[n - 1])
  }

  lemma StepTracks(pyInt: PyInt, h: Home, c: Command, stanza: Interface, peers: seq<Peer>) returns (after: Interface)
    requires WellFormed(c) && CleanCommand(c)
    requires Tracked(h, stanza, peers) && FreshKeys(h.conf.value, Provisioned(h, c))
    ensures Tracked(Exec(pyInt, h, c), after, peers + Provisioned(h, c))
  {
    hide FreshKeys, AfterUp, AfterAddClient, AfterAddPath, WithPeers, Conf;
    after := stanza;
    Reassociate(peers, [], []);
    match c
    case DoInit(_) =>
    case DoUp(env) => after := UpTracks(pyInt, h, env, stanza, peers);
    case DieInUp(env) => ReconcileIsStable(pyInt, env, h.meta.value);
    case DoAddClient(_, _, _, _) => AddClientTracks(h, c, stanza, peers);
    case DoAddPath(_, _, _, _) => AddPathTracks(h, c, stanza, peers);
    case DieInAddClient(_, _, _, _, _) => UnsavedTracks(h, c, stanza, peers);
    case DieInAddPath(_, _, _, _) => UnsavedTracks(h, c, stanza, peers);
  }

  lemma {:induction false} RunTracks(pyInt: PyInt, states: seq<Home>, commands: seq<Command>, n: nat, first: Interface)
    returns (stanza: Interface)
    requires IsRun(pyInt, states, commands) && n <= |commands|
    requires Tracked(states[0], first, [])
    ensures Tracked(states[n], stanza, ProvisionedBy(states, commands, n))
  {
    hide Exec, Provisioned, FreshKeys, CleanCommand, WellFormed;
    if n == 0 {
      stanza := first;
    } else {
      stanza := RunTracks(pyInt, states, commands, n - 1, first);
      stanza := StepTracks(pyInt, states[n - 1], commands[n - 1], stanza, ProvisionedBy(states, commands, n - 1));
    }
  }

  // ---------------------------------------------------------------- addresses over a run

  predicate Dies(c: Command) {
    c.DieInAddClient? || c.DieInAddPath? || c.DieInUp?
  }

  /** The i-th command died having appended a peer. */
  ghost predicate LeavesUnsaved(states: seq<Home>, commands: seq<Command>, i: nat)
    requires i < |commands| < |states| && WellFormed(commands[i])
  {
    Dies(commands[i]) && Provisioned(states[i], commands[i]) != []
  }

  /** Among the first `n` commands, none provisions anything after one that died having appended a peer. */
  ghost predicate NothingAfterUnsaved(states: seq<Home>, commands: seq<Command>, n: nat)
    requires n <= |commands| < |states|
    requires forall i | 0 <= i < |commands| :: WellFormed(commands[i])
  {
    forall i, j | 0 <= i < j < n :: LeavesUnsaved(states, commands, i) ==> Provisioned(states[j], commands[j]) == []
  }

  ghost predicate NoneUnsaved(states: seq<Home>, commands: seq<Command>, n: nat)
    requires n <= |commands| < |states|
    requires forall i | 0 <= i < |commands| :: WellFormed(commands[i])
  {
    forall i | 0 <= i < n :: !LeavesUnsaved(states, commands, i)
  }

  /** What one command does to the network and to the octet counter. */
  lemma StepCounts(pyInt: PyInt, h: Home, c: Command)
    requires h.meta.Some? && WellFormed(c)
    ensures var after, more := Exec(pyInt, h, c), Provisioned(h, c);
      && after.meta.Some? && after.meta.value.network == h.meta.value.network
      && after.meta.value.nextOctet == h.meta.value.nextOctet + (if Dies(c) then 0 else |more|)
      && forall i | 0 <= i < |more| :: more[i].allowed == Address(NetworkPrefix(h.meta.value.network), h.meta.value.nextOctet + i)
  {
    hide NetworkPrefix, Address, WithPeers, Refreshed;
  }

  lemma {:induction false} RunHasMeta(pyInt: PyInt, states: seq<Home>, commands: seq<Command>, n: nat)
    requires IsRun(pyInt, states, commands) && n <= |commands| && states[0].meta.Some?
    ensures states[n].meta.Some? && states[n].meta.value.network == states[0].meta.value.network
  {
    hide Exec;
    if n > 0 {
      RunHasMeta(pyInt, states, commands, n - 1);
      StepCounts(pyInt, states[n - 1], commands[n - 1]);
    }
  }

  /** Until a peer is left unsaved the counter counts them all; and the i-th address is octet 2 + i as long as
      nothing is provisioned after that. */
  lemma {:induction false} OctetsInOrder(pyInt: PyInt, states: seq<Home>, commands: seq<Command>, n: nat)
    requires IsRun(pyInt, states, commands) && n <= |commands|
    requires states[0].meta.Some? && states[0].meta.value.nextOctet == 2
    requires NothingAfterUnsaved(states, commands, n)
    ensures var peers := ProvisionedBy(states, commands, n);
      && states[n].meta.Some?
      && (NoneUnsaved(states, commands, n) ==> states[n].meta.value.nextOctet == 2 + |peers|)
      && forall i | 0 <= i < |peers| :: peers[i].allowed == Address(NetworkPrefix(states[0].meta.value.network), 2 + i)
  {
    hide Exec, NetworkPrefix, Address, Provisioned;
    if n > 0 {
      OctetsInOrder(pyInt, states, commands, n - 1);
      RunHasMeta(pyInt, states, commands, n - 1);
      StepCounts(pyInt, states[n - 1], commands[n - 1]);
      OneMoreUnsaved(states, commands, n);
      hide NoneUnsaved, NothingAfterUnsaved, LeavesUnsaved;
      var peers, more := ProvisionedBy(states, commands, n - 1), Provisioned(states[n - 1], commands[n - 1]);
      hide ProvisionedBy;
      var all := peers + more;
      forall i | 0 <= i < |all|
        ensures all[i].allowed == Address(NetworkPrefix(states[0].meta.value.network), 2 + i)
      {
        if i >= |peers| {
          assert all[i] == more[i - |peers|];
        }
      }
    }
  }

  lemma OneMoreUnsaved(states: seq<Home>, commands: seq<Command>, n: nat)
    requires 0 < n <= |commands| < |states|
    requires forall i | 0 <= i < |commands| :: WellFormed(commands[i])
    ensures NoneUnsaved(states, commands, n) <==> NoneUnsaved(states, commands, n - 1) && !LeavesUnsaved(states, commands, n - 1)
    ensures NothingAfterUnsaved(states, commands, n) ==>
              NoneUnsaved(states, commands, n - 1) || Provisioned(states[n - 1], commands[n - 1]) == []
    ensures LeavesUnsaved(states, commands, n - 1) <==> Dies(commands[n - 1]) && Provisioned(states[n - 1], commands[n - 1]) != []
    ensures ProvisionedBy(states, commands, n) ==
            ProvisionedBy(states, commands, n - 1) + Provisioned(states[n - 1], commands[n - 1])
  {
    hide Provisioned;
  }

  lemma {:induction false} ProvisionedGrows(states: seq<Home>, commands: seq<Command>, m: nat, n: nat)
    requires m <= n <= |commands| < |states|
    requires forall i | 0 <= i < |commands| :: WellFormed(commands[i])
    ensures ProvisionedBy(states, commands, m) <= ProvisionedBy(states, commands, n)
    decreases n
  {
    hide Provisioned, WellFormed;
    if m < n {
      ProvisionedGrows(states, commands, m, n - 1);
    }
  }

  /** The first command after the i-th that provisions something finds the counter where the i-th left it. */
  lemma {:induction false} CounterWaits(pyInt: PyInt, states: seq<Home>, commands: seq<Command>, i: nat, j: nat) returns (k: nat)
    requires IsRun(pyInt, states, commands) && i < j < |commands| && states[i].meta.Some?
    requires Dies(commands[i]) && Provisioned(states[j], commands[j]) != []
    ensures i < k <= j && Provisioned(states[k], commands[k]) != []
    ensures states[k].meta.Some? && states[k].meta.value.network == states[i].meta.value.network
    ensures states[k].meta.value.nextOctet == states[i].meta.value.nextOctet
  {
    hide Exec, Provisioned;
    StepCounts(pyInt, states[i], commands[i]);
    k := i + 1;
    while Provisioned(states[k], commands[k]) == []
      invariant i < k <= j
      invariant states[k].meta.Some? && states[k].meta.value.network == states[i].meta.value.network
      invariant states[k].meta.value.nextOctet == states[i].meta.value.nextOctet
      decreases j - k
    {
      StepCounts(pyInt, states[k], commands[k]);
      k := k + 1;
    }
  }

  /** Two commands that start from the same counter give their first peers one address. */
  lemma SameOctetTwice(pyInt: PyInt, states: seq<Home>, commands: seq<Command>, i: nat, k: nat)
    requires IsRun(pyInt, states, commands) && i < k < |commands|
    requires states[i].meta.Some? && states[k].meta.Some?
    requires states[k].meta.value.network == states[i].meta.value.network
    requires states[k].meta.value.nextOctet == states[i].meta.value.nextOctet
    requires Provisioned(states[i], commands[i]) != [] && Provisioned(states[k], commands[k]) != []
    ensures var peers := ProvisionedBy(states, commands, |commands|);
            exists a, b | 0 <= a < b < |peers| :: peers[a].allowed == peers[b].allowed
  {
    hide *;
    WellFormedRun(pyInt, states, commands);
    AddressOfFirst(pyInt, states, commands, i);
    AddressOfFirst(pyInt, states, commands, k);
    ProvisionedGrows(states, commands, i + 1, k);
    var peers := ProvisionedBy(states, commands, |commands|);
    var a, b := |ProvisionedBy(states, commands, i)|, |ProvisionedBy(states, commands, k)|;
    assert peers[a].allowed == peers[b].allowed;
  }

  lemma WellFormedRun(pyInt: PyInt, states: seq<Home>, commands: seq<Command>)
    requires IsRun(pyInt, states, commands)
    ensures |states| == |commands| + 1 && forall k | 0 <= k < |commands| :: WellFormed(commands[k])
  {
  }

  /** Where a command's first peer stands among all, and its address. */
  lemma AddressOfFirst(pyInt: PyInt, states: seq<Home>, commands: seq<Command>, i: nat)
    requires IsRun(pyInt, states, commands) && i < |commands|
    requires states[i].meta.Some? && Provisioned(states[i], commands[i]) != []
    ensures var at, peers := |ProvisionedBy(states, commands, i)|, ProvisionedBy(states, commands, |commands|);
            && at < |ProvisionedBy(states, commands, i + 1)| <= |peers|
            && peers[at].allowed == Address(NetworkPrefix(states[i].meta.value.network), states[i].meta.value.nextOctet)
  {
    hide Provisioned, WellFormed, Exec, Address, NetworkPrefix;
    StepCounts(pyInt, states[i], commands[i]);
    ProvisionedGrows(states, commands, i + 1, |commands|);
    assert ProvisionedBy(states, commands, i + 1)[|ProvisionedBy(states, commands, i)|] == Provisioned(states[i], commands[i])[0];
  }

  /** AN ADDRESS IS HANDED OUT TWICE IF AND ONLY IF something is provisioned after a command that died between its
      append and its save. */
  lemma AddressesAreDistinctExactly(pyInt: PyInt, states: seq<Home>, commands: seq<Command>)
    requires IsRun(pyInt, states, commands)
    requires states[0].meta.Some? && states[0].meta.value.nextOctet == 2
    ensures var peers := ProvisionedBy(states, commands, |commands|);
            (forall i, j | 0 <= i < j < |peers| :: peers[i].allowed != peers[j].allowed) <==>
            NothingAfterUnsaved(states, commands, |commands|)
  {
    hide ProvisionedBy, Exec, Provisioned, Address;
    var peers := ProvisionedBy(states, commands, |commands|);
    if NothingAfterUnsaved(states, commands, |commands|) {
      OctetsInOrder(pyInt, states, commands, |commands|);
      forall i, j | 0 <= i < j < |peers| ensures peers[i].allowed != peers[j].allowed {
        AddressInjective(NetworkPrefix(states[0].meta.value.network), 2 + i, 2 + j);
      }
    } else {
      var i, j :| 0 <= i < j < |commands| && LeavesUnsaved(states, commands, i) && Provisioned(states[j], commands[j]) != [];
      RunHasMeta(pyInt, states, commands, i);
      var k := CounterWaits(pyInt, states, commands, i, j);
      SameOctetTwice(pyInt, states, commands, i, k);
    }
  }

  /** THE ADDRESSES THEMSELVES: in a network a.b/mask the i-th peer is given a.(2 + i)/32, as long as nothing is
      provisioned after a command that died between append and save. */
  lemma AddressesAreNumbered(pyInt: PyInt, states: seq<Home>, commands: seq<Command>, a: string, b: string, mask: string)
    requires IsRun(pyInt, states, commands) && NothingAfterUnsaved(states, commands, |commands|)
    requires states[0].meta.Some? && states[0].meta.value.nextOctet == 2
    requires '/' !in a && '/' !in b && '.' !in b
    requires states[0].meta.value.network == a + "." + b + "/" + mask
    ensures var peers := ProvisionedBy(states, commands, |commands|);
            forall i | 0 <= i < |peers| :: peers[i].allowed == a + "." + Dec(2 + i) + "/32"
  {
    hide Exec, Provisioned, NetworkPrefix, ProvisionedBy, NothingAfterUnsaved;
    NetworkPrefixIs(a, b, mask);
    OctetsInOrder(pyInt, states, commands, |commands|);
  }

  /** NO RUN LOSES A PEER. After any sequence of up, add-client, forced add-client, add-path and unforced init
      since the last init that started afresh, under any environments, commands killed half way included:
      the peers read back from the conf are exactly the provisioned ones in order, and every path on
      record is one of them. No two share an address if and only if nothing was provisioned after a
      command that died between append and save; and when none did, every octet handed out is below the
      counter. */
  lemma ProvisionedPeersSurvive(pyInt: PyInt, before: Home, newMeta: Meta, force: bool, states: seq<Home>, commands: seq<Command>)
    requires CleanMeta(newMeta) && newMeta.ports != [] && newMeta.nextOctet == 2 && newMeta.clients == map[]
    requires before.meta.None? || force
    requires IsRun(pyInt, states, commands) && states[0] == AfterInit(before, newMeta, force)
    ensures var last := states[|commands|];
            var peers := ProvisionedBy(states, commands, |commands|);
            && last.meta.Some? && last.conf.Some?
            && ParsePeers(last.conf.value) == peers
            && (forall c, i | c in last.meta.value.clients && 0 <= i < |last.meta.value.clients[c]| ::
                  Recorded(peers, c, last.meta.value.clients[c][i]))
            && ((forall i, j | 0 <= i < j < |peers| :: peers[i].allowed != peers[j].allowed) <==>
                  NothingAfterUnsaved(states, commands, |commands|))
            && (NoneUnsaved(states, commands, |commands|) ==>
                  forall i | 0 <= i < |peers| :: HandedOut(last.meta.value, peers[i].allowed))
  {
    hide AfterInit, Tracked, ProvisionedBy, Exec, Recorded, HandedOut, LeavesUnsaved, NothingAfterUnsaved, NoneUnsaved;
    InitTracks(before, newMeta, force);
    InitCounts(before, newMeta, force);
    var stanza := RunTracks(pyInt, states, commands, |commands|, InterfaceOf(newMeta));
    TrackedMeans(states[|commands|], stanza, ProvisionedBy(states, commands, |commands|));
    AddressesAreDistinctExactly(pyInt, states, commands);
    if NoneUnsaved(states, commands, |commands|) {
      AllHandedOut(pyInt, states, commands);
    }
  }

  lemma InitCounts(h: Home, newMeta: Meta, force: bool)
    requires newMeta.ports != [] && (h.meta.None? || force)
    ensures AfterInit(h, newMeta, force).meta == Some(newMeta)
  {
  }

  lemma AllHandedOut(pyInt: PyInt, states: seq<Home>, commands: seq<Command>)
    requires IsRun(pyInt, states, commands) && NoneUnsaved(states, commands, |commands|)
    requires states[0].meta.Some? && states[0].meta.value.nextOctet == 2
    ensures var last, peers := states[|commands|], ProvisionedBy(states, commands, |commands|);
            last.meta.Some? && forall i | 0 <= i < |peers| :: HandedOut(last.meta.value, peers[i].allowed)
  {
    hide Exec, Provisioned, Address, NetworkPrefix, ProvisionedBy;
    assert NothingAfterUnsaved(states, commands, |commands|);
    OctetsInOrder(pyInt, states, commands, |commands|);
    RunHasMeta(pyInt, states, commands, |commands|);
  }

  /** What the invariant says to a reader of the conf. */
  lemma TrackedMeans(h: Home, stanza: Interface, peers: seq<Peer>)
    requires Tracked(h, stanza, peers)
    ensures h.meta.Some? && h.conf.Some? && ParsePeers(h.conf.value) == peers
    ensures forall c, i | c in h.meta.value.clients && 0 <= i < |h.meta.value.clients[c]| ::
              Recorded(peers, c, h.meta.value.clients[c][i])
  {
    hide ParsePeers, Conf;
    ParsedPeersAreTheAppended(stanza, peers);
  }

  /** AN UP KEEPS THE PEERS EXACTLY WHEN IT LEAVES THE CONF ALONE OR ITS FIELDS ARE HARMLESS, whatever the
      conf held, hand-added peers included; and exactly then does a repeated up under the same environment
      report no change. */
  lemma UpKeepsPeersExactly(pyInt: PyInt, h: Home, env: Env)
    requires h.meta.Some? && h.conf.Some?
    ensures var once := AfterUp(pyInt, h, env);
            var meta := Reconciled(pyInt, env, h.meta.value);
            && once.conf.Some?
            && (PeerSection(once.conf.value) == PeerSection(h.conf.value) <==> CanRender(meta) ==> HarmlessFields(InterfaceOf(meta)))
            && (AfterUp(pyInt, once, env) == once <==> CanRender(meta) ==> HarmlessFields(InterfaceOf(meta)))
  {
    hide PeerSection, Render, HarmlessFields, Refreshed;
    var meta := Reconciled(pyInt, env, h.meta.value);
    ReconcileIsStable(pyInt, env, h.meta.value);
    if CanRender(meta) {
      RefreshKeepsPeersExactly(InterfaceOf(meta), h.conf.value);
    }
  }

  /** So with newline-free fields the peer section survives byte for byte and a repeated up changes nothing. */
  lemma UpKeepsAnyPeers(pyInt: PyInt, h: Home, env: Env)
    requires h.meta.Some? && h.conf.Some? && CleanMeta(h.meta.value) && CleanCommand(DoUp(env))
    ensures var once := AfterUp(pyInt, h, env);
            && once.conf.Some? && PeerSection(once.conf.value) == PeerSection(h.conf.value)
            && AfterUp(pyInt, once, env) == once
  {
    hide PeerSection, AfterUp;
    UpKeepsPeersExactly(pyInt, h, env);
    var meta := Reconciled(pyInt, env, h.meta.value);
    if CanRender(meta) {
      CleanIsHarmless(InterfaceOf(meta));
    }
  }
}
