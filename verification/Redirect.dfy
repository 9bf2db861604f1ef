/**
 The home exit's PREROUTING redirects: which local port each public port is sent to, the script that
 makes the first-match chain say so, and what becomes of a packet afterwards.
 */
module Redirect {
  import opened ByteStrings
  import opened Decimal
  import opened Sets

  datatype Proto = Udp | Tcp

  datatype Target = RedirectTo(port: int) | Jump(chain: string)

  /** A nat rule. `scope` is the `-i` argument, "" when there is none; `extra` stands for any further
      criteria the rule carries, each decided per packet. */
  datatype Rule = Rule(scope: string, proto: Option<Proto>, dport: Option<int>, extra: set<nat>, target: Target)

  datatype Packet = Packet(iface: string, proto: Proto, dport: int)

  /** Whether a packet meets an extra criterion. */
  type Criteria = (nat, Packet) -> bool

  // ---------------------------------------------------------------- the mapping

  function RedirectMapping(ports: seq<int>, wgPort: int, transportPort: Option<int>, transportPublic: Option<seq<int>>): map<int, int> {
    if transportPort.None? || transportPort.value == 0 then
      map p | p in ports :: wgPort
    else
      var claimed := if transportPublic.Some? && transportPublic.value != [] then transportPublic.value else ports;
      map p | p in ports :: if p in claimed then transportPort.value else wgPort
  }

  // ---------------------------------------------------------------- iptables

  /** `-i` matching: no scope matches every interface, a trailing + matches a prefix. */
  predicate ScopeMatches(scope: string, iface: string) {
    if scope == "" then true
    else if scope[|scope| - 1] == '+' then scope[..|scope| - 1] <= iface
    else scope == iface
  }

  predicate Hits(sat: Criteria, r: Rule, p: Packet) {
    && ScopeMatches(r.scope, p.iface)
    && (r.proto.Some? ==> r.proto.value == p.proto)
    && (r.dport.Some? ==> r.dport.value == p.dport)
    && forall c | c in r.extra :: sat(c, p)
  }

  /** The verdict of a first-match chain, or None when the packet falls through. */
  function FirstHit(sat: Criteria, chain: seq<Rule>, p: Packet): Option<Target> {
    if chain == [] then None
    else if Hits(sat, chain[0], p) then Some(chain[0].target)
    else FirstHit(sat, chain[1..], p)
  }

  // ---------------------------------------------------------------- the purge pattern

  /** What the listing shows for a rule with a destination port. */
  function ListedPort(port: nat): string {
    "dpt:" + Dec(port) + " "
  }

  predicate OccursAt(text: string, part: string, i: nat) {
    i + |part| <= |text| && text[i..i + |part|] == part
  }

  predicate Contains(text: string, part: string) {
    exists i: nat | i <= |text| :: OccursAt(text, part, i)
  }

  /** A numeral and a space at the start of a numeral, a space and anything: the numerals are equal. */
  lemma SpaceEndsNumeral(x: string, y: string, rest: string)
    requires AllDigits(x) && AllDigits(y)
    requires x + " " <= y + " " + rest
    ensures x == y
  {
    var text := y + " " + rest;
    assert forall k | 0 <= k < |y| :: text[k] == y[k] != ' ';
    assert text[|y|] == ' ';
    assert forall k | 0 <= k < |x| :: text[k] == (x + " ")[k] == x[k] != ' ';
    assert text[|x|] == (x + " ")[|x|] == ' ';
    assert |x| == |y|;
    assert x == text[..|x|] == y;
  }

  predicate ColonFree(s: string) {
    forall i | 0 <= i < |s| :: s[i] != ':'
  }

  /** The colon is where the port's tag ends, and nowhere else. */
  lemma OneColon(port: nat, rest: string, i: nat)
    requires ColonFree(rest) && i < |ListedPort(port) + rest|
    ensures (ListedPort(port) + rest)[i] == ':' <==> i == 3
  {
    var head, numeral := "dpt:", Dec(port);
    assert ListedPort(port) + rest == head + numeral + " " + rest;
    assert ColonFree(numeral) && ColonFree(" ") && ColonFree("dpt");
  }

  lemma MatchIsAtTheStart(listed: nat, purged: nat, rest: string, i: nat)
    requires ColonFree(rest) && OccursAt(ListedPort(listed) + rest, ListedPort(purged), i)
    ensures ListedPort(purged) <= ListedPort(listed) + rest
  {
    var text, part := ListedPort(listed) + rest, ListedPort(purged);
    assert part[3] == ':' && text[i + 3] == text[i..i + |part|][3];
    OneColon(listed, rest, i + 3);
  }

  /** Whatever follows it on the line, the pattern matches a listed port exactly when it is that port. */
  lemma LineMatchesExactly(listed: nat, purged: nat, rest: string)
    requires ColonFree(rest)
    ensures Contains(ListedPort(listed) + rest, ListedPort(purged)) <==> listed == purged
  {
    hide ListedPort, OccursAt;
    var text, part := ListedPort(listed) + rest, ListedPort(purged);
    if listed == purged {
      OccursInFront(part, rest);
    }
    if Contains(text, part) {
      var i: nat :| i <= |text| && OccursAt(text, part, i);
      MatchIsAtTheStart(listed, purged, rest, i);
      PrefixMeansSamePort(listed, purged, rest);
    }
  }

  lemma OccursInFront(part: string, rest: string)
    ensures OccursAt(part + rest, part, 0)
  {
    assert (part + rest)[0..0 + |part|] == part;
  }

  lemma PrefixMeansSamePort(listed: nat, purged: nat, rest: string)
    requires ListedPort(purged) <= ListedPort(listed) + rest
    ensures listed == purged
  {
    var text, part := ListedPort(listed) + rest, ListedPort(purged);
    assert part[4..] == Dec(purged) + " " && text[4..] == Dec(listed) + " " + rest;
    assert part[4..] == text[..|part|][4..] <= text[4..];
    SpaceEndsNumeral(Dec(purged), Dec(listed), rest);
    DecInjective(listed, purged);
  }

  /** The pattern ends in a space, so purging one port never takes a rule whose port merely starts with
      the same digits. */
  lemma PatternPicksOnePort(listed: nat, purged: nat)
    ensures Contains(ListedPort(listed), ListedPort(purged)) <==> listed == purged
  {
    hide ListedPort;
    assert ListedPort(listed) + "" == ListedPort(listed);
    LineMatchesExactly(listed, purged, "");
  }

  /** Without the space, purging a port would take every port that continues its digits. */
  lemma SpacelessPatternTakesMore(port: nat, digit: nat)
    requires port > 0 && digit < 10
    ensures Contains(ListedPort(10 * port + digit), "dpt:" + Dec(port))
  {
    var longer := Dec(10 * port + digit);
    assert longer == Dec(port) + [Digit(digit)];
    hide Dec;
    assert ListedPort(10 * port + digit)[..4 + |Dec(port)|] == "dpt:" + Dec(port);
    assert OccursAt(ListedPort(10 * port + digit), "dpt:" + Dec(port), 0);
  }

  /** A REDIRECT rule for this port, whatever its protocol, interface or target: what purge_port deletes. */
  predicate Purgeable(r: Rule, port: int) {
    r.target.RedirectTo? && r.dport == Some(port)
  }

  /** What the listing shows of a redirect from its destination port on. */
  function RedirectLine(port: nat, target: nat): string {
    ListedPort(port) + ("redir ports " + Dec(target))
  }

  /** purge_port DELETES EXACTLY THE REDIRECTS OF ITS PORT: a listed redirect matches the pattern if and only
      if it is purgeable for that port. */
  lemma PurgeableExactly(r: Rule, port: nat)
    requires r.target.RedirectTo? && r.target.port >= 0 && r.dport.Some? && r.dport.value >= 0
    ensures Purgeable(r, port) <==> Contains(RedirectLine(r.dport.value, r.target.port), ListedPort(port))
  {
    hide ListedPort, Contains;
    var target := Dec(r.target.port);
    assert ColonFree("redir ports " + target) by {
      assert ColonFree("redir ports ") && ColonFree(target);
    }
    LineMatchesExactly(r.dport.value, port, "redir ports " + target);
  }

  // ---------------------------------------------------------------- the script

  datatype Command = Purge(port: int) | Append(rule: Rule)

  function RuleFor(public: int, local: int, scope: string): Rule {
    Rule(scope, Some(Udp), Some(public), {}, RedirectTo(local))
  }

  predicate Sorted(s: seq<int>) {
    forall i, j | 0 <= i < j < |s| :: s[i] < s[j]
  }

  function Managed(ports: seq<int>): set<int> {
    set p | p in ports
  }

  /** The keys in increasing order. */
  ghost function InOrder(keys: set<int>): (s: seq<int>)
    ensures Sorted(s) && Managed(s) == keys
  {
    if keys == {} then []
    else
      var high := Highest(keys);
      OneMorePort(InOrder(keys - {high}), keys, high);
      InOrder(keys - {high}) + [high]
  }

  lemma OneMorePort(s: seq<int>, keys: set<int>, high: int)
    requires Sorted(s) && Managed(s) == keys - {high} && high in keys && forall k | k in keys :: k <= high
    ensures Sorted(s + [high]) && Managed(s + [high]) == keys
  {
    forall i | 0 <= i < |s| ensures s[i] < high {
      assert s[i] in Managed(s);
    }
    assert Managed(s + [high]) == Managed(s) + {high};
  }

  /** A set of ports has one increasing listing, so the script is the same on every run. */
  lemma {:induction false} OneListing(s: seq<int>, keys: set<int>)
    requires Sorted(s) && Managed(s) == keys
    ensures s == InOrder(keys)
  {
    var t := InOrder(keys);
    if s == [] {
      assert keys == {} && t == [];
    } else {
      LastIsHighest(s, keys);
      var front, high := s[..|s| - 1], s[|s| - 1];
      assert Managed(front) == keys - {high} by {
        assert s == front + [high];
        assert forall i | 0 <= i < |front| :: front[i] == s[i] < high;
      }
      OneListing(front, keys - {high});
      assert s == front + [high];
    }
  }

  lemma LastIsHighest(s: seq<int>, keys: set<int>)
    requires Sorted(s) && Managed(s) == keys && s != []
    ensures keys != {} && s[|s| - 1] == Highest(keys)
  {
    assert s[|s| - 1] in Managed(s);
    assert Highest(keys) in Managed(s);
    var i :| 0 <= i < |s| && s[i] == Highest(keys);
  }

  /** `sorted(mapping)`. */
  method SortedKeys(keys: set<int>) returns (s: seq<int>)
    ensures s == InOrder(keys)
  {
    s := [];
    var rest := keys;
    while rest != {}
      invariant Sorted(s) && Managed(s) + rest == keys
      invariant forall i, q | 0 <= i < |s| && q in rest :: s[i] < q
      decreases rest
    {
      var least := Least(rest);
      assert Managed(s + [least]) == Managed(s) + {least};
      s := s + [least];
      rest := rest - {least};
    }
    OneListing(s, keys);
  }

  method Least(keys: set<int>) returns (least: int)
    requires keys != {}
    ensures least in keys && forall q | q in keys :: least <= q
  {
    least := Choose(keys);
    var rest := keys - {least};
    while rest != {}
      invariant least in keys && rest <= keys
      invariant forall q | q in keys && q !in rest :: least <= q
      decreases rest
    {
      var q := Choose(rest);
      rest := rest - {q};
      if q < least {
        least := q;
      }
    }
  }

  function ScriptFor(ports: seq<int>, mapping: map<int, int>, scope: string): seq<Command>
    requires forall p | p in ports :: p in mapping
  {
    if ports == [] then []
    else
      var front, p := ports[..|ports| - 1], ports[|ports| - 1];
      ScriptFor(front, mapping, scope) + [Purge(p)]
      + if mapping[p] == p then [] else [Append(RuleFor(p, mapping[p], scope))]
  }

  lemma NothingToWrite(ports: seq<int>, mapping: map<int, int>, scope: string)
    ensures ScriptFor([], mapping, scope) == []
    ensures forall p | p in ports :: p in Managed(ports)
  {
  }

  lemma WriteOneMore(ports: seq<int>, p: int, mapping: map<int, int>, scope: string)
    requires p in mapping && forall q | q in ports :: q in mapping
    ensures ScriptFor(ports + [p], mapping, scope)
      == ScriptFor(ports, mapping, scope) + [Purge(p)] + if mapping[p] == p then [] else [Append(RuleFor(p, mapping[p], scope))]
    ensures NewRules(ports + [p], mapping, scope)
      == NewRules(ports, mapping, scope) + if mapping[p] == p then [] else [RuleFor(p, mapping[p], scope)]
  {
    assert (ports + [p])[..|ports|] == ports;
  }

  method WriteRedirectScript(mapping: map<int, int>, scope: string) returns (script: seq<Command>)
    ensures forall p | p in InOrder(mapping.Keys) :: p in mapping
    ensures script == ScriptFor(InOrder(mapping.Keys), mapping, scope)
  {
    hide InOrder, ScriptFor;
    script := [];
    var sorted := SortedKeys(mapping.Keys);
    NothingToWrite(sorted, mapping, scope);
    for i := 0 to |sorted|
      invariant script == ScriptFor(sorted[..i], mapping, scope)
    {
      var public := sorted[i];
      TakeOneMore(sorted, i);
      WriteOneMore(sorted[..i], public, mapping, scope);
      var local := mapping[public];
      script := script + [Purge(public)];
      if public != local {
        script := script + [Append(RuleFor(public, local, scope))];
      }
    }
    assert sorted[..|sorted|] == sorted;
  }

  // ---------------------------------------------------------------- what the script does to a chain

  /** The chain without the redirects of some ports, the order of the rest kept. */
  function Kept(chain: seq<Rule>, ports: set<int>): seq<Rule> {
    if chain == [] then []
    else
      Kept(chain[..|chain| - 1], ports) + if Redirects(chain[|chain| - 1], ports) then [] else [chain[|chain| - 1]]
  }

  predicate Redirects(r: Rule, ports: set<int>) {
    r.target.RedirectTo? && r.dport.Some? && r.dport.value in ports
  }

  lemma KeptOne(r: Rule, ports: set<int>)
    ensures Kept([r], ports) == if Redirects(r, ports) then [] else [r]
  {
    assert [r][..0] == [];
  }

  /** WHAT A PURGE LEAVES, rule by rule and in order: a rule goes only if it is a redirect of one of the ports;
      any other target, port or rule without one stays. */
  lemma KeptExactly(chain: seq<Rule>, r: Rule, ports: set<int>)
    ensures Kept([], ports) == []
    ensures Kept(chain + [r], ports)
            == Kept(chain, ports) + if r.target.RedirectTo? && r.dport.Some? && r.dport.value in ports then [] else [r]
  {
    assert (chain + [r])[..|chain|] == chain;
  }

  function NewRules(ports: seq<int>, mapping: map<int, int>, scope: string): seq<Rule>
    requires forall p | p in ports :: p in mapping
  {
    if ports == [] then []
    else
      var p := ports[|ports| - 1];
      NewRules(ports[..|ports| - 1], mapping, scope) + if mapping[p] == p then [] else [RuleFor(p, mapping[p], scope)]
  }

  function Effect(chain: seq<Rule>, script: seq<Command>): seq<Rule> {
    if script == [] then chain
    else
      var before := Effect(chain, script[..|script| - 1]);
      match script[|script| - 1]
      case Purge(p) => Kept(before, {p})
      case Append(r) => before + [r]
  }

  lemma {:induction false} KeptAppend(a: seq<Rule>, b: seq<Rule>, ports: set<int>)
    ensures Kept(a + b, ports) == Kept(a, ports) + Kept(b, ports)
  {
    if b == [] {
      assert a + b == a;
    } else {
      assert (a + b)[..|a + b| - 1] == a + b[..|b| - 1];
      KeptAppend(a, b[..|b| - 1], ports);
    }
  }

  lemma {:induction false} KeptTwice(chain: seq<Rule>, first: set<int>, second: set<int>)
    ensures Kept(Kept(chain, first), second) == Kept(chain, first + second)
  {
    if chain != [] {
      KeptTwice(chain[..|chain| - 1], first, second);
      var front, last := chain[..|chain| - 1], chain[|chain| - 1];
      KeptOne(last, second);
      if Redirects(last, first) {
        assert Kept(chain, first) == Kept(front, first);
      } else {
        KeptAppend(Kept(front, first), [last], second);
      }
    }
  }

  lemma {:induction false} KeptAll(chain: seq<Rule>, ports: set<int>)
    requires forall i | 0 <= i < |chain| :: !Redirects(chain[i], ports)
    ensures Kept(chain, ports) == chain
  {
    if chain != [] {
      var front, last := chain[..|chain| - 1], chain[|chain| - 1];
      KeptAll(front, ports);
      assert chain == front + [last];
    }
  }

  lemma {:induction false} KeptNone(ports: seq<int>, mapping: map<int, int>, scope: string, purged: set<int>)
    requires forall p | p in ports :: p in mapping
    requires forall p | p in ports :: p in purged
    ensures Kept(NewRules(ports, mapping, scope), purged) == []
  {
    if ports != [] {
      var front, p := ports[..|ports| - 1], ports[|ports| - 1];
      KeptNone(front, mapping, scope, purged);
      KeptAppend(NewRules(front, mapping, scope), if mapping[p] == p then [] else [RuleFor(p, mapping[p], scope)], purged);
      assert p in ports;
      KeptOne(RuleFor(p, mapping[p], scope), purged);
    }
  }

  lemma {:induction false} NewRulesAre(ports: seq<int>, mapping: map<int, int>, scope: string, r: Rule)
    requires forall p | p in ports :: p in mapping
    ensures r in NewRules(ports, mapping, scope) <==>
            exists p | p in ports :: mapping[p] != p && r == RuleFor(p, mapping[p], scope)
  {
    if ports != [] {
      var front, p := ports[..|ports| - 1], ports[|ports| - 1];
      NewRulesAre(front, mapping, scope, r);
      assert p in ports && forall q | q in ports :: q in front || q == p;
    }
  }

  /** Rules for other ports survive a purge. */
  lemma PurgeSparesOthers(ports: seq<int>, mapping: map<int, int>, scope: string, p: int)
    requires forall q | q in ports :: q in mapping
    requires p !in ports
    ensures Kept(NewRules(ports, mapping, scope), {p}) == NewRules(ports, mapping, scope)
  {
    var added := NewRules(ports, mapping, scope);
    forall i | 0 <= i < |added| ensures !Redirects(added[i], {p}) {
      assert added[i] in added;
      NewRulesAre(ports, mapping, scope, added[i]);
    }
    KeptAll(added, {p});
  }

  /** Purging one more port of a chain already converged on others. */
  lemma PurgeNext(chain: seq<Rule>, ports: seq<int>, mapping: map<int, int>, scope: string, p: int)
    requires forall q | q in ports :: q in mapping
    requires p !in ports
    ensures Kept(Kept(chain, Managed(ports)) + NewRules(ports, mapping, scope), {p})
            == Kept(chain, Managed(ports + [p])) + NewRules(ports, mapping, scope)
  {
    hide Kept, NewRules;
    KeptAppend(Kept(chain, Managed(ports)), NewRules(ports, mapping, scope), {p});
    KeptTwice(chain, Managed(ports), {p});
    assert Managed(ports) + {p} == Managed(ports + [p]);
    PurgeSparesOthers(ports, mapping, scope, p);
  }

  lemma EffectOne(chain: seq<Rule>, script: seq<Command>, port: int, rule: Rule)
    ensures Effect(chain, script + [Purge(port)]) == Kept(Effect(chain, script), {port})
    ensures Effect(chain, script + [Append(rule)]) == Effect(chain, script) + [rule]
  {
    assert (script + [Purge(port)])[..|script|] == script == (script + [Append(rule)])[..|script|];
  }

  /** One more port: its purge, and its rule unless it maps to itself. */
  lemma EffectOfOneMore(chain: seq<Rule>, ports: seq<int>, p: int, mapping: map<int, int>, scope: string)
    requires p in mapping && p !in ports && forall q | q in ports :: q in mapping
    requires Effect(chain, ScriptFor(ports, mapping, scope)) == Kept(chain, Managed(ports)) + NewRules(ports, mapping, scope)
    ensures Effect(chain, ScriptFor(ports + [p], mapping, scope))
      == Kept(chain, Managed(ports + [p])) + NewRules(ports + [p], mapping, scope)
  {
    hide Kept, NewRules, ScriptFor, Effect, Managed;
    var done, rule := ScriptFor(ports, mapping, scope), RuleFor(p, mapping[p], scope);
    WriteOneMore(ports, p, mapping, scope);
    EffectOne(chain, done, p, rule);
    PurgeNext(chain, ports, mapping, scope, p);
    EffectOne(chain, done + [Purge(p)], p, rule);
    assert done + [Purge(p)] + [] == done + [Purge(p)];
    var rules := NewRules(ports, mapping, scope);
    assert rules + [] == rules;
    assert Kept(chain, Managed(ports + [p])) + rules + [rule] == Kept(chain, Managed(ports + [p])) + (rules + [rule]);
  }

  /** The script, command by command, amounts to this. */
  lemma {:induction false} ScriptEffect(chain: seq<Rule>, ports: seq<int>, mapping: map<int, int>, scope: string)
    requires forall p | p in ports :: p in mapping
    requires Sorted(ports)
    ensures Effect(chain, ScriptFor(ports, mapping, scope)) == Kept(chain, Managed(ports)) + NewRules(ports, mapping, scope)
  {
    hide Kept;
    if ports == [] {
      assert Managed(ports) == {};
      NothingManaged(chain);
    } else {
      hide NewRules, ScriptFor, Effect, Managed;
      var front, p := ports[..|ports| - 1], ports[|ports| - 1];
      ScriptEffect(chain, front, mapping, scope);
      EffectOfOneMore(chain, front, p, mapping, scope);
      assert front + [p] == ports;
    }
  }

  lemma NothingManaged(chain: seq<Rule>)
    ensures Kept(chain, {}) == chain && Effect(chain, []) == chain
  {
    KeptAll(chain, {});
  }

  /** What any run of the generated script leaves, from any chain. */
  function Converged(chain: seq<Rule>, ports: seq<int>, mapping: map<int, int>, scope: string): seq<Rule>
    requires forall p | p in ports :: p in mapping
  {
    Kept(chain, Managed(ports)) + NewRules(ports, mapping, scope)
  }

  // ---------------------------------------------------------------- the chain itself

  class NatTable {
    var prerouting: seq<Rule>

    constructor (chain: seq<Rule>)
      ensures prerouting == chain
    {
      prerouting := chain;
    }

    /** The number of the first listed rule the pattern matches: the listing, read from the top. */
    method FirstListed(port: int) returns (n: Option<nat>)
      ensures n.Some? ==> 0 <= n.value < |prerouting| && Purgeable(prerouting[n.value], port)
      ensures n.Some? ==> forall i | 0 <= i < n.value :: !Purgeable(prerouting[i], port)
      ensures n.None? ==> forall i | 0 <= i < |prerouting| :: !Purgeable(prerouting[i], port)
    {
      for i := 0 to |prerouting|
        invariant forall j | 0 <= j < i :: !Purgeable(prerouting[j], port)
      {
        if Purgeable(prerouting[i], port) {
          return Some(i);
        }
      }
      return None;
    }

    method PurgePort(port: int)
      modifies this
      ensures prerouting == Kept(old(prerouting), {port})
    {
      var n := FirstListed(port);
      while n.Some?
        invariant Kept(prerouting, {port}) == Kept(old(prerouting), {port})
        invariant n.Some? ==> 0 <= n.value < |prerouting| && Purgeable(prerouting[n.value], port)
        invariant n.None? ==> forall i | 0 <= i < |prerouting| :: !Purgeable(prerouting[i], port)
        decreases |prerouting|, n.Some?
      {
        DeleteKeeps(prerouting, n.value, port);
        prerouting := prerouting[..n.value] + prerouting[n.value + 1..];
        n := FirstListed(port);
      }
      assert forall r | Redirects(r, {port}) :: Purgeable(r, port);
      KeptAll(prerouting, {port});
    }

    method Run(script: seq<Command>)
      modifies this
      ensures prerouting == Effect(old(prerouting), script)
    {
      for i := 0 to |script|
        invariant prerouting == Effect(old(prerouting), script[..i])
      {
        assert script[..i + 1][..i] == script[..i];
        match script[i]
        case Purge(p) => PurgePort(p);
        case Append(r) => prerouting := prerouting + [r];
      }
      assert script[..|script|] == script;
    }

    /** Generating the script and running it: the whole of what a bring-up does to the chain. */
    method Converge(mapping: map<int, int>, scope: string)
      modifies this
      ensures forall p | p in InOrder(mapping.Keys) :: p in mapping
      ensures prerouting == Converged(old(prerouting), InOrder(mapping.Keys), mapping, scope)
    {
      hide InOrder;
      var script := WriteRedirectScript(mapping, scope);
      ScriptEffect(prerouting, InOrder(mapping.Keys), mapping, scope);
      Run(script);
    }
  }

  lemma DeleteKeeps(chain: seq<Rule>, n: nat, port: int)
    requires n < |chain| && Purgeable(chain[n], port)
    ensures Kept(chain[..n] + chain[n + 1..], {port}) == Kept(chain, {port})
  {
    hide Kept;
    assert chain == chain[..n] + ([chain[n]] + chain[n + 1..]);
    KeptAppend(chain[..n], chain[n + 1..], {port});
    KeptAppend(chain[..n], [chain[n]] + chain[n + 1..], {port});
    KeptAppend([chain[n]], chain[n + 1..], {port});
    KeptOne(chain[n], {port});
  }

  // ---------------------------------------------------------------- what convergence promises

  /** A second run of the same script changes nothing. */
  lemma ConvergedIsStable(chain: seq<Rule>, ports: seq<int>, mapping: map<int, int>, scope: string)
    requires forall p | p in ports :: p in mapping
    ensures var once := Converged(chain, ports, mapping, scope);
            Converged(once, ports, mapping, scope) == once
  {
    var managed := Managed(ports);
    KeptAppend(Kept(chain, managed), NewRules(ports, mapping, scope), managed);
    KeptTwice(chain, managed, managed);
    assert managed + managed == managed;
    KeptNone(ports, mapping, scope, managed);
  }

  /** Changing the targets leaves no trace of the old ones, as long as every port the old mapping managed
      is still managed. */
  lemma LastMappingWins(chain: seq<Rule>, ports0: seq<int>, mapping0: map<int, int>, scope0: string,
                        ports: seq<int>, mapping: map<int, int>, scope: string)
    requires forall p | p in ports0 :: p in mapping0
    requires forall p | p in ports :: p in mapping
    requires forall p | p in ports0 :: p in ports
    ensures Converged(Converged(chain, ports0, mapping0, scope0), ports, mapping, scope) == Converged(chain, ports, mapping, scope)
  {
    hide Kept, NewRules;
    var managed0, managed := Managed(ports0), Managed(ports);
    KeptAppend(Kept(chain, managed0), NewRules(ports0, mapping0, scope0), managed);
    KeptTwice(chain, managed0, managed);
    forall p | p in managed0 ensures p in managed {
      assert p in ports0;
    }
    assert forall p :: p in managed0 + managed <==> p in managed;
    assert managed0 + managed == managed;
    KeptNone(ports0, mapping0, scope0, managed);
  }

  lemma {:induction false} KeptIs(chain: seq<Rule>, ports: set<int>, r: Rule)
    ensures r in Kept(chain, ports) <==> r in chain && !Redirects(r, ports)
  {
    if chain != [] {
      KeptIs(chain[..|chain| - 1], ports, r);
      assert chain == chain[..|chain| - 1] + [chain[|chain| - 1]];
    }
  }

  /** The script is declarative only about the ports it owns NOW: a redirect installed for a port that has
      since left the mapping is never purged. It outlives the change exactly when its port is gone from
      the new mapping, or the new mapping asks for the very same rule. */
  lemma DroppedPortKeepsItsRedirect(chain: seq<Rule>, ports0: seq<int>, mapping0: map<int, int>, scope0: string,
                                    ports: seq<int>, mapping: map<int, int>, scope: string, p: int)
    requires forall q | q in ports0 :: q in mapping0
    requires forall q | q in ports :: q in mapping
    requires p in ports0 && mapping0[p] != p
    ensures var stale := RuleFor(p, mapping0[p], scope0);
            stale in Converged(Converged(chain, ports0, mapping0, scope0), ports, mapping, scope)
            <==> p !in ports || stale == RuleFor(p, mapping[p], scope)
  {
    var stale := RuleFor(p, mapping0[p], scope0);
    NewRulesAre(ports0, mapping0, scope0, stale);
    KeptIs(Converged(chain, ports0, mapping0, scope0), Managed(ports), stale);
    NewRulesAre(ports, mapping, scope, stale);
  }

  // ---------------------------------------------------------------- what becomes of a packet

  lemma {:induction false} FirstHitAppend(sat: Criteria, a: seq<Rule>, b: seq<Rule>, p: Packet)
    ensures FirstHit(sat, a + b, p) == if FirstHit(sat, a, p).Some? then FirstHit(sat, a, p) else FirstHit(sat, b, p)
  {
    if a == [] {
      assert a + b == b;
    } else {
      assert (a + b)[1..] == a[1..] + b;
      FirstHitAppend(sat, a[1..], b, p);
    }
  }

  lemma {:induction false} FirstHitOfNewRules(sat: Criteria, ports: seq<int>, mapping: map<int, int>, scope: string, p: Packet)
    requires forall q | q in ports :: q in mapping
    ensures FirstHit(sat, NewRules(ports, mapping, scope), p) ==
            if p.proto == Udp && p.dport in ports && mapping[p.dport] != p.dport && ScopeMatches(scope, p.iface)
            then Some(RedirectTo(mapping[p.dport])) else None
  {
    if ports != [] {
      var front, q := ports[..|ports| - 1], ports[|ports| - 1];
      FirstHitOfNewRules(sat, front, mapping, scope, p);
      var one := if mapping[q] == q then [] else [RuleFor(q, mapping[q], scope)];
      FirstHitAppend(sat, NewRules(front, mapping, scope), one, p);
      assert ports == front + [q];
      if one != [] {
        assert one[1..] == [];
      }
    }
  }

  /** EVERY PACKET'S FATE after the script, from any starting chain. A rule that was kept and hits the
      packet decides as before; otherwise a UDP packet in scope goes to its port's mapped target, and to
      nothing when the port maps to itself, is not managed, or the packet is out of scope. */
  lemma PacketFate(sat: Criteria, chain: seq<Rule>, ports: seq<int>, mapping: map<int, int>, scope: string, p: Packet)
    requires forall q | q in ports :: q in mapping
    ensures var kept := FirstHit(sat, Kept(chain, Managed(ports)), p);
            FirstHit(sat, Converged(chain, ports, mapping, scope), p) ==
            if kept.Some? then kept
            else if p.proto == Udp && p.dport in ports && mapping[p.dport] != p.dport && ScopeMatches(scope, p.iface)
            then Some(RedirectTo(mapping[p.dport])) else None
  {
    FirstHitAppend(sat, Kept(chain, Managed(ports)), NewRules(ports, mapping, scope), p);
    FirstHitOfNewRules(sat, ports, mapping, scope, p);
  }

  predicate CatchesLoopback(scope: string) {
    scope == "" || scope == "lo" || scope == "+" || scope == "l+" || scope == "lo+"
  }

  /** The scopes that catch loopback: none at all, lo itself, and the wildcards lo begins with. */
  lemma ScopesThatCatchLoopback(scope: string)
    ensures ScopeMatches(scope, "lo") <==> CatchesLoopback(scope)
  {
    if scope != "" && scope[|scope| - 1] == '+' {
      var n := |scope| - 1;
      assert scope == scope[..n] + "+";
      if n == 0 {
        assert scope == "+";
      } else if n == 1 {
        assert scope[..n] <= "lo" <==> scope[0] == 'l';
        assert scope == [scope[0]] + "+";
      } else if n == 2 {
        assert scope[..n] <= "lo" <==> scope[0] == 'l' && scope[1] == 'o';
        assert scope == [scope[0], scope[1]] + "+";
      } else {
        assert !(scope[..n] <= "lo");
      }
    }
  }

  /** THE LOOP THE SCOPE PREVENTS. With the transport on, its decoded output to the real wg port on
      loopback is thrown back into the transport exactly when the transport claims the wg port and the
      scope handed to the script catches lo. `up` hands it the recorded WAN interface, so a state with
      no WAN interface recorded gives an unscoped rule and the loop. */
  lemma TransportLoopsExactly(sat: Criteria, chain: seq<Rule>, ports: seq<int>, transportPort: int,
                              transportPublic: Option<seq<int>>, wanIface: string)
    requires ports != [] && transportPort != 0 && transportPort != ports[0]
    requires FirstHit(sat, Kept(chain, Managed(ports)), Packet("lo", Udp, ports[0])).None?
    ensures var mapping := RedirectMapping(ports, ports[0], Some(transportPort), transportPublic);
            var claims := transportPublic.None? || transportPublic.value == [] || ports[0] in transportPublic.value;
            FirstHit(sat, Converged(chain, InOrder(mapping.Keys), mapping, wanIface), Packet("lo", Udp, ports[0])) ==
            if claims && CatchesLoopback(wanIface) then Some(RedirectTo(transportPort)) else None
  {
    var mapping := RedirectMapping(ports, ports[0], Some(transportPort), transportPublic);
    assert mapping.Keys == Managed(ports);
    assert ports[0] in Managed(InOrder(mapping.Keys));
    PacketFate(sat, chain, InOrder(mapping.Keys), mapping, wanIface, Packet("lo", Udp, ports[0]));
    ScopesThatCatchLoopback(wanIface);
  }

  /** THE FATE OF A PACKET WITHOUT A TRANSPORT, the default: unless a kept rule decides, every listed port but the
      first is sent to the first, and nothing else is redirected. */
  lemma RouteModeFate(sat: Criteria, chain: seq<Rule>, ports: seq<int>, transportPort: Option<int>, transportPublic: Option<seq<int>>,
                      scope: string, p: Packet)
    requires ports != [] && transportPort in {None, Some(0)}
    requires FirstHit(sat, Kept(chain, Managed(ports)), p).None?
    ensures var mapping := RedirectMapping(ports, ports[0], transportPort, transportPublic);
            FirstHit(sat, Converged(chain, InOrder(mapping.Keys), mapping, scope), p) ==
            if p.proto == Udp && p.dport in ports && p.dport != ports[0] && ScopeMatches(scope, p.iface)
            then Some(RedirectTo(ports[0])) else None
  {
    var mapping := RedirectMapping(ports, ports[0], transportPort, transportPublic);
    assert mapping.Keys == Managed(ports);
    assert p.dport in ports <==> p.dport in Managed(InOrder(mapping.Keys));
    PacketFate(sat, chain, InOrder(mapping.Keys), mapping, scope, p);
  }

  /** Which public ports the transport claims: the listed ones it names, or all when it names none. */
  predicate Claims(transportPublic: Option<seq<int>>, port: int) {
    transportPublic.None? || transportPublic.value == [] || port in transportPublic.value
  }

  /** THE FATE OF A PACKET WITH A TRANSPORT, whatever it claims: unless a kept rule decides, a listed port it
      claims is sent to it and any other listed one to the wg port, in scope only; a port that is its own
      target is left alone. */
  lemma TransportModeFate(sat: Criteria, chain: seq<Rule>, ports: seq<int>, transportPort: int, transportPublic: Option<seq<int>>,
                          scope: string, p: Packet)
    requires ports != [] && transportPort != 0
    requires FirstHit(sat, Kept(chain, Managed(ports)), p).None?
    ensures var mapping := RedirectMapping(ports, ports[0], Some(transportPort), transportPublic);
            var target := if Claims(transportPublic, p.dport) then transportPort else ports[0];
            FirstHit(sat, Converged(chain, InOrder(mapping.Keys), mapping, scope), p) ==
            if p.proto == Udp && p.dport in ports && p.dport != target && ScopeMatches(scope, p.iface)
            then Some(RedirectTo(target)) else None
  {
    var mapping := RedirectMapping(ports, ports[0], Some(transportPort), transportPublic);
    assert mapping.Keys == Managed(ports);
    assert p.dport in ports <==> p.dport in Managed(InOrder(mapping.Keys));
    PacketFate(sat, chain, InOrder(mapping.Keys), mapping, scope, p);
  }

  /** THE STAGED ROLLOUT leaves the live port alone: when the transport claims only other ports, a WAN
      packet to the wg port meets no redirect, and each claimed port reaches the transport. */
  lemma StagedRolloutIsSafe(sat: Criteria, chain: seq<Rule>, ports: seq<int>, transportPort: int, claimed: seq<int>,
                            wanIface: string, p: Packet)
    requires ports != [] && transportPort != 0 && claimed != [] && ports[0] !in claimed
    requires FirstHit(sat, Kept(chain, Managed(ports)), p).None?
    requires p.proto == Udp && p.iface == wanIface && p.dport in ports
    requires wanIface == "" || wanIface[|wanIface| - 1] != '+'
    ensures var mapping := RedirectMapping(ports, ports[0], Some(transportPort), Some(claimed));
            FirstHit(sat, Converged(chain, InOrder(mapping.Keys), mapping, wanIface), p) ==
            if p.dport == ports[0] then None
            else if p.dport in claimed then (if transportPort == p.dport then None else Some(RedirectTo(transportPort)))
            else Some(RedirectTo(ports[0]))
  {
    var mapping := RedirectMapping(ports, ports[0], Some(transportPort), Some(claimed));
    assert mapping.Keys == Managed(ports);
    assert p.dport in Managed(InOrder(mapping.Keys));
    PacketFate(sat, chain, InOrder(mapping.Keys), mapping, wanIface, p);
  }
}
