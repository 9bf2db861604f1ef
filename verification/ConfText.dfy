/**
 The text of pb-home0.conf: the interface stanza rendered from the server's state, the peer section
 carried over from the file, and the peer blocks appended below it.

 Lines end in "\n" only.
 */
module ConfText {
  import opened ByteStrings
  import opened Decimal

  // ---------------------------------------------------------------- str methods

  predicate IsSpace(c: char) {
    c == ' ' || '\t' <= c <= '\r'
  }

  function LStrip(s: string): string {
    if s != [] && IsSpace(s[0]) then LStrip(s[1..]) else s
  }

  function RStrip(s: string): string {
    if s != [] && IsSpace(s[|s| - 1]) then RStrip(s[..|s| - 1]) else s
  }

  function Strip(s: string): string {
    RStrip(LStrip(s))
  }

  function RStripNewlines(s: string): string {
    if s != [] && s[|s| - 1] == '\n' then RStripNewlines(s[..|s| - 1]) else s
  }

  function StartsWith(s: string, prefix: string): bool {
    prefix <= s
  }

  /** `sub in s`. */
  ghost predicate Contains(s: string, sub: string) {
    exists i: nat | i <= |s| :: OccursAt(s, sub, i)
  }

  predicate OccursAt(s: string, sub: string, i: nat) {
    i + |sub| <= |s| && s[i..i + |sub|] == sub
  }

  method IsIn(sub: string, s: string) returns (found: bool)
    ensures found <==> Contains(s, sub)
  {
    for i := 0 to |s| + 1
      invariant forall j: nat | j < i :: !OccursAt(s, sub, j)
    {
      if OccursAt(s, sub, i) {
        return true;
      }
    }
    return false;
  }

  // ---------------------------------------------------------------- lines

  predicate OneLine(s: string) {
    forall i | 0 <= i < |s| :: s[i] != '\n'
  }

  /** The length of the first line, its newline included. */
  function FirstLineLength(text: string): (n: nat)
    ensures n <= |text| && (text != "" ==> n > 0)
  {
    if text == "" then 0 else if text[0] == '\n' then 1 else 1 + FirstLineLength(text[1..])
  }

  lemma {:induction false} FirstLineIs(line: string, rest: string)
    requires OneLine(line)
    ensures FirstLineLength(line + "\n" + rest) == |line| + 1
  {
    var text := line + "\n" + rest;
    if line != "" {
      assert text[1..] == line[1..] + "\n" + rest;
      FirstLineIs(line[1..], rest);
    }
  }

  function Unlines(lines: seq<string>): string {
    if lines == [] then "" else lines[0] + "\n" + Unlines(lines[1..])
  }

  function LinesOf(text: string): seq<string>
    decreases |text|
  {
    if text == "" then []
    else
      var n := FirstLineLength(text);
      [if text[n - 1] == '\n' then text[..n - 1] else text[..n]] + LinesOf(text[n..])
  }

  lemma FirstOfLines(line: string, rest: string)
    requires OneLine(line)
    ensures LinesOf(line + "\n" + rest) == [line] + LinesOf(rest)
  {
    FirstLineIs(line, rest);
    var text := line + "\n" + rest;
    assert text[..|line|] == line && text[|line| + 1..] == rest;
  }

  predicate AllOneLine(lines: seq<string>) {
    forall i | 0 <= i < |lines| :: OneLine(lines[i])
  }

  lemma {:induction false} LinesOfUnlines(lines: seq<string>, rest: string)
    requires AllOneLine(lines)
    ensures LinesOf(Unlines(lines) + rest) == lines + LinesOf(rest)
  {
    if lines == [] {
      assert Unlines(lines) + rest == rest;
    } else {
      assert Unlines(lines) + rest == lines[0] + "\n" + (Unlines(lines[1..]) + rest);
      FirstOfLines(lines[0], Unlines(lines[1..]) + rest);
      LinesOfUnlines(lines[1..], rest);
      assert lines == [lines[0]] + lines[1..];
    }
  }

  // ---------------------------------------------------------------- the peer section

  predicate IsMarker(line: string) {
    StartsWith(LStrip(line), "[Peer]") || StartsWith(LStrip(line), "# client:")
  }

  /** Everything from the first marker line on, verbatim. */
  function PeerSection(text: string): (section: string)
    ensures |section| <= |text| && section == text[|text| - |section|..]
    ensures section != "" ==> IsMarker(section[..FirstLineLength(section)])
    decreases |text|
  {
    if text == "" then ""
    else
      var n := FirstLineLength(text);
      if IsMarker(text[..n]) then text else PeerSection(text[n..])
  }

  /** A line that does not start the peer section. */
  predicate Plain(line: string) {
    OneLine(line) && !IsMarker(line + "\n")
  }

  lemma {:induction false} PeerSectionSkips(lines: seq<string>, rest: string)
    requires forall i | 0 <= i < |lines| :: Plain(lines[i])
    ensures PeerSection(Unlines(lines) + rest) == PeerSection(rest)
  {
    if lines == [] {
      assert Unlines(lines) + rest == rest;
    } else {
      var tail := Unlines(lines[1..]) + rest;
      var text := lines[0] + "\n" + tail;
      assert Unlines(lines) + rest == text;
      FirstLineIs(lines[0], tail);
      assert text[..|lines[0]| + 1] == lines[0] + "\n" && text[|lines[0]| + 1..] == tail;
      assert Plain(lines[0]);
      PeerSectionSkips(lines[1..], rest);
    }
  }

  lemma PeerSectionOfSection(section: string)
    requires section != "" && IsMarker(section[..FirstLineLength(section)])
    ensures PeerSection(section) == section
  {
  }

  // ---------------------------------------------------------------- the interface stanza

  datatype Interface = Interface(privateKey: string, address: string, listenPort: int, wan: string)

  predicate CleanInterface(i: Interface) {
    OneLine(i.privateKey) && OneLine(i.address) && OneLine(i.wan)
  }

  function PortText(port: int): string {
    if port < 0 then "-" + Dec(-port) else Dec(port)
  }

  function StanzaLines(i: Interface): seq<string> {
    [ "[Interface]",
      "PrivateKey = " + i.privateKey,
      "Address = " + i.address,
      "ListenPort = " + PortText(i.listenPort),
      "SaveConfig = false",
      "",
      "PostUp = " + "sysctl -w net.ipv4.ip_forward=1 || true",
      "PostUp = " + Forward("-A"),
      "PostUp = " + Masquerade("-A", i.wan),
      "PostDown = " + Forward("-D"),
      "PostDown = " + Masquerade("-D", i.wan) ]
  }

  function Forward(op: string): string {
    "iptables " + op + " FORWARD -i %i -j ACCEPT; iptables " + op + " FORWARD -o %i -j ACCEPT"
  }

  function Masquerade(op: string, wan: string): string {
    "iptables -t nat " + op + " POSTROUTING -o " + wan + " -j MASQUERADE"
  }

  function Render(i: Interface): string {
    Unlines(StanzaLines(i))
  }

  /** A line whose first character is neither a space nor one a marker begins with. */
  lemma PlainByFirst(line: string)
    requires OneLine(line)
    requires line == "" || (line[0] == 'P' || line[0] == 'A' || line[0] == 'L' || line[0] == 'S')
    ensures Plain(line)
  {
    var whole := line + "\n";
    if line == "" {
      assert LStrip(whole) == "" by {
        assert whole[1..] == "";
      }
    } else {
      assert LStrip(whole) == whole && whole[0] == line[0];
    }
  }

  lemma {:induction false} OneLineAppend(a: string, b: string)
    ensures OneLine(a + b) <==> OneLine(a) && OneLine(b)
  {
    if OneLine(a + b) {
      assert forall i | 0 <= i < |a| :: (a + b)[i] == a[i];
      assert forall i | 0 <= i < |b| :: (a + b)[|a| + i] == b[i];
    }
  }

  lemma {:induction false} DecIsOneLine(n: nat)
    ensures OneLine(Dec(n)) && !IsSpace(Dec(n)[|Dec(n)| - 1])
  {
    assert AllDigits(Dec(n));
  }

  lemma PortTextIsOneLine(port: int)
    ensures OneLine(PortText(port))
  {
    if port < 0 {
      DecIsOneLine(-port);
      OneLineAppend("-", Dec(-port));
    } else {
      DecIsOneLine(port);
    }
  }

  lemma MasqueradeIsOneLine(op: string, wan: string)
    ensures OneLine(Masquerade(op, wan)) <==> OneLine(op) && OneLine(wan)
  {
    OneLineAppend("iptables -t nat ", op);
    OneLineAppend("iptables -t nat " + op, " POSTROUTING -o ");
    OneLineAppend("iptables -t nat " + op + " POSTROUTING -o ", wan);
    OneLineAppend("iptables -t nat " + op + " POSTROUTING -o " + wan, " -j MASQUERADE");
  }

  lemma ForwardIsOneLine(op: string)
    requires OneLine(op)
    ensures OneLine(Forward(op))
  {
    OneLineAppend("iptables ", op);
    OneLineAppend("iptables " + op, " FORWARD -i %i -j ACCEPT; iptables ");
    OneLineAppend("iptables " + op + " FORWARD -i %i -j ACCEPT; iptables ", op);
    OneLineAppend("iptables " + op + " FORWARD -i %i -j ACCEPT; iptables " + op, " FORWARD -o %i -j ACCEPT");
  }

  /** No line of a stanza with newline-free fields can be mistaken for a peer. */
  lemma StanzaIsPlain(i: Interface)
    requires CleanInterface(i)
    ensures forall k | 0 <= k < |StanzaLines(i)| :: Plain(StanzaLines(i)[k])
  {
    hide Plain;
    assert Plain("[Interface]") by { HeaderIsPlain(); }
    FieldIsPlain("PrivateKey = ", i.privateKey);
    FieldIsPlain("Address = ", i.address);
    PortTextIsOneLine(i.listenPort);
    FieldIsPlain("ListenPort = ", PortText(i.listenPort));
    FieldIsPlain("SaveConfig = ", "false");
    assert "SaveConfig = " + "false" == "SaveConfig = false";
    PlainByFirst("");
    FieldIsPlain("PostUp = ", "sysctl -w net.ipv4.ip_forward=1 || true");
    ForwardIsOneLine("-A");
    ForwardIsOneLine("-D");
    MasqueradeIsOneLine("-A", i.wan);
    MasqueradeIsOneLine("-D", i.wan);
    FieldIsPlain("PostUp = ", Forward("-A"));
    FieldIsPlain("PostUp = ", Masquerade("-A", i.wan));
    FieldIsPlain("PostDown = ", Forward("-D"));
    FieldIsPlain("PostDown = ", Masquerade("-D", i.wan));
  }

  lemma HeaderIsPlain()
    ensures Plain("[Interface]")
  {
    var whole := "[Interface]" + "\n";
    assert LStrip(whole) == whole && whole[1] == 'I' && whole[0] == '[';
  }

  lemma FieldIsPlain(head: string, value: string)
    requires OneLine(head) && OneLine(value) && head != ""
    requires head[0] == 'P' || head[0] == 'A' || head[0] == 'L' || head[0] == 'S'
    ensures Plain(head + value)
  {
    OneLineAppend(head, value);
    PlainByFirst(head + value);
  }

  /** The stanza ends in one newline after a visible character. */
  lemma {:induction false} UnlinesEnds(lines: seq<string>)
    requires lines != [] && lines[|lines| - 1] != "" && !IsSpace(lines[|lines| - 1][|lines[|lines| - 1]| - 1])
    ensures EndsInOneNewline(Unlines(lines))
  {
    if |lines| == 1 {
      assert Unlines(lines) == lines[0] + "\n" + "";
    } else {
      UnlinesEnds(lines[1..]);
      var tail := Unlines(lines[1..]);
      var text := Unlines(lines);
      assert text == lines[0] + "\n" + tail;
      assert text[|text| - 1] == tail[|tail| - 1] && text[|text| - 2] == tail[|tail| - 2];
    }
  }

  predicate EndsInOneNewline(text: string) {
    |text| >= 2 && text[|text| - 1] == '\n' && !IsSpace(text[|text| - 2])
  }

  lemma StrippingOneNewline(text: string)
    requires EndsInOneNewline(text)
    ensures RStripNewlines(text) + "\n" == text
    ensures RStrip(text) + "\n" == text
  {
    var front := text[..|text| - 1];
    assert RStripNewlines(front) == front && RStrip(front) == front;
    assert text == front + "\n";
  }

  lemma RenderEnds(i: Interface)
    ensures EndsInOneNewline(Render(i)) && Ended(Render(i)) && Render(i) != ""
  {
    UnlinesEnds(StanzaLines(i));
  }

  // ---------------------------------------------------------------- which texts hold a peer section

  predicate Ended(text: string) {
    text == "" || text[|text| - 1] == '\n'
  }

  /** Whole lines in front either start the peer section themselves or leave it to what follows. */
  lemma {:induction false} PeerSectionAppend(a: string, b: string)
    requires Ended(a)
    ensures PeerSection(a + b) == if PeerSection(a) != "" then PeerSection(a) + b else PeerSection(b)
    decreases |a|
  {
    if a == "" {
      assert a + b == b;
    } else {
      var n := FirstLineLength(a);
      FirstLineEnds(a);
      assert a == a[..n - 1] + "\n" + a[n..];
      FirstLineIs(a[..n - 1], a[n..] + b);
      assert a + b == a[..n - 1] + "\n" + (a[n..] + b);
      assert (a + b)[..n] == a[..n] && (a + b)[n..] == a[n..] + b;
      if !IsMarker(a[..n]) {
        PeerSectionAppend(a[n..], b);
      }
    }
  }

  lemma {:induction false} FirstLineEnds(text: string)
    requires text != ""
    ensures var n := FirstLineLength(text);
      OneLine(text[..n - 1]) && (text[n - 1] == '\n' || (n == |text| && OneLine(text)))
    ensures Ended(text) ==> text[FirstLineLength(text) - 1] == '\n' && Ended(text[FirstLineLength(text)..])
  {
    hide OneLine;
    if text[0] != '\n' && |text| > 1 {
      FirstLineEnds(text[1..]);
      assert text == [text[0]] + text[1..];
      OneCharacterMore(text[0], text[1..], FirstLineLength(text[1..]));
    } else {
      FirstLineIsAll(text);
    }
  }

  lemma FirstLineIsAll(text: string)
    requires text != "" && (text[0] == '\n' || |text| == 1)
    ensures FirstLineLength(text) == 1 && OneLine(text[..0])
    ensures text[0] == '\n' || OneLine(text)
  {
  }

  /** The first line of a text with one more character in front. */
  lemma OneCharacterMore(c: char, rest: string, m: nat)
    requires c != '\n' && 0 < m <= |rest|
    requires OneLine(rest[..m - 1]) && (rest[m - 1] == '\n' || (m == |rest| && OneLine(rest)))
    ensures var text := [c] + rest;
      && OneLine(text[..m]) && (text[m] == '\n' || (m + 1 == |text| && OneLine(text)))
      && text[m] == rest[m - 1] && text[m + 1..] == rest[m..]
  {
    var text := [c] + rest;
    assert text[..m] == [c] + rest[..m - 1];
  }

  lemma {:induction false} LStripAppend(a: string, b: string)
    ensures LStrip(a + b) == if LStrip(a) != "" then LStrip(a) + b else LStrip(b)
    ensures LStrip(a) != "" ==> !IsSpace(LStrip(a)[0])
  {
    if a == "" {
      assert a + b == b;
    } else if IsSpace(a[0]) {
      assert (a + b)[1..] == a[1..] + b;
      LStripAppend(a[1..], b);
    }
  }

  /** What the stanza writes after a field, on the field's own last line: nothing, or the masquerade's end. */
  predicate FieldEnd(end: string) {
    end == "" || end == " -j MASQUERADE"
  }

  /** No marker is completed by what follows a field. */
  lemma NothingCompletesAMarker(line: string, end: string)
    requires FieldEnd(end)
    ensures IsMarker(line + end + "\n") <==> IsMarker(line)
  {
    hide LStrip;
    var tail := end + "\n";
    assert line + end + "\n" == line + tail;
    LStripAppend(line, tail);
    EndIsNoMarker(end);
    var seen := LStrip(line);
    if seen != "" {
      PrefixBeforeEnd(seen, tail, "[Peer]");
      PrefixBeforeEnd(seen, tail, "# client:");
    }
  }

  lemma EndIsNoMarker(end: string)
    requires FieldEnd(end)
    ensures !IsMarker(end + "\n")
  {
    var whole := end + "\n";
    if end == "" {
      assert whole == "\n" && whole[1..] == "";
      assert LStrip(whole) == LStrip(whole[1..]) == "";
    } else {
      assert whole[1..][0] == '-' && LStrip(whole) == whole[1..];
    }
  }

  /** Wherever a marker is broken off, what follows a field does not continue it. */
  lemma MarkerBreaks(marker: string, tail: string, n: nat) returns (d: nat)
    requires tail == "\n" || tail == " -j MASQUERADE" + "\n"
    requires marker == "[Peer]" || marker == "# client:"
    requires 0 < n < |marker|
    ensures d < |tail| && n + d < |marker| && marker[n + d] != tail[d]
  {
    d := if tail != "\n" && marker[n] == ' ' then 1 else 0;
  }

  lemma PrefixBeforeEnd(seen: string, tail: string, marker: string)
    requires seen != "" && (tail == "\n" || tail == " -j MASQUERADE" + "\n")
    requires marker == "[Peer]" || marker == "# client:"
    ensures StartsWith(seen + tail, marker) <==> StartsWith(seen, marker)
  {
    if |seen| < |marker| {
      var d := MarkerBreaks(marker, tail, |seen|);
      assert (seen + tail)[|seen| + d] == tail[d] != marker[|seen| + d];
    } else {
      assert (seen + tail)[..|marker|] == seen[..|marker|];
    }
  }

  lemma SectionByLine(first: string, rest: string)
    requires OneLine(first)
    ensures PeerSection(first + "\n" + rest) == if IsMarker(first) then first + "\n" + rest else PeerSection(rest)
  {
    hide IsMarker;
    FirstLineIs(first, rest);
    var whole := first + "\n" + rest;
    assert whole[..|first| + 1] == first + "\n" && whole[|first| + 1..] == rest;
    assert first + "" == first;
    NothingCompletesAMarker(first, "");
  }

  lemma CutFirstLine(text: string) returns (first: string, rest: string)
    requires !OneLine(text)
    ensures OneLine(first) && text == first + "\n" + rest
  {
    FirstLineEnds(text);
    var n := FirstLineLength(text);
    first, rest := text[..n - 1], text[n..];
  }

  predicate NoMarker(lines: seq<string>) {
    forall k | 0 <= k < |lines| :: !IsMarker(lines[k])
  }

  lemma NoMarkerFromTheFront(first: string, rest: seq<string>)
    ensures NoMarker([first] + rest) <==> !IsMarker(first) && NoMarker(rest)
    ensures NoMarker([])
  {
    hide IsMarker;
    var lines := [first] + rest;
    assert lines[0] == first && forall k | 0 <= k < |rest| :: rest[k] == lines[k + 1];
  }

  /** A text followed by a field's end holds a peer section exactly when one of its lines is a marker. */
  lemma {:induction false} MarkersMakeTheSection(text: string, end: string)
    requires FieldEnd(end)
    ensures PeerSection(text + end + "\n") == "" <==> NoMarker(LinesOf(text))
    decreases |text|
  {
    hide IsMarker, LinesOf, PeerSection, FirstLineLength, NoMarker;
    if OneLine(text) {
      LinesOfOne(text);
      OneLineAppend(text, end);
      SectionByLine(text + end, "");
      Reassociate(text, end, "\n");
      Reassociate(text + end + "\n", "", "");
      PeerSectionOfNothing();
      NothingCompletesAMarker(text, end);
      Reassociate(text + end, "", "\n");
      NothingCompletesAMarker(text + end, "");
      NoMarkerFromTheFront(text, []);
      Reassociate([text], [], []);
      BlankIsNoMarker();
    } else {
      var first, rest := CutFirstLine(text);
      FirstOfLines(first, rest);
      assert text + end + "\n" == first + "\n" + (rest + end + "\n");
      SectionByLine(first, rest + end + "\n");
      MarkersMakeTheSection(rest, end);
      NoMarkerFromTheFront(first, LinesOf(rest));
    }
  }

  lemma BlankIsNoMarker()
    ensures !IsMarker("")
  {
  }

  lemma LinesOfOne(text: string)
    requires OneLine(text)
    ensures LinesOf(text) == if text == "" then [] else [text]
  {
    OneLineLength(text);
    assert text[..|text|] == text && text[|text|..] == "";
  }

  lemma {:induction false} OneLineLength(text: string)
    requires OneLine(text)
    ensures FirstLineLength(text) == |text|
  {
    if text != "" {
      OneLineLength(text[1..]);
    }
  }

  /** No line of the field after its first begins, past any indentation, with a peer marker. */
  predicate Harmless(field: string) {
    forall k | 1 <= k < |LinesOf(field)| :: !IsMarker(LinesOf(field)[k])
  }

  predicate HarmlessFields(i: Interface) {
    Harmless(i.privateKey) && Harmless(i.address) && Harmless(i.wan)
  }

  /** Text in front of a field changes its first line and no other. */
  lemma LinesBehind(head: string, value: string)
    requires OneLine(head) && head != ""
    ensures var lines, own := LinesOf(head + value), LinesOf(value);
      && lines != [] && lines[0] != "" && head[0] == lines[0][0]
      && |lines| == (if own == [] then 1 else |own|)
      && forall k | 1 <= k < |lines| :: lines[k] == own[k]
  {
    hide LinesOf;
    OneLineAppend(head, value);
    if OneLine(value) {
      LinesOfOne(head + value);
      LinesOfOne(value);
    } else {
      var first, rest := CutFirstLine(value);
      OneLineAppend(head, first);
      assert head + value == (head + first) + "\n" + rest;
      FirstOfLines(first, rest);
      FirstOfLines(head + first, rest);
    }
  }

  /** A stanza line around a field holds a peer section exactly when the field is not harmless. */
  lemma FieldIsHarmlessExactly(head: string, value: string, end: string)
    requires FieldEnd(end) && OneLine(head) && head != "" && (head[0] == 'P' || head[0] == 'A')
    ensures PeerSection(head + value + end + "\n") == "" <==> Harmless(value)
  {
    hide LinesOf, PeerSection;
    MarkersMakeTheSection(head + value, end);
    LinesBehind(head, value);
    var first := LinesOf(head + value)[0];
    assert first[0] == head[0] && LStrip(first) == first;
  }

  /** A line that starts or contains the start of a peer section. */
  predicate Holds(line: string) {
    PeerSection(line + "\n") != ""
  }

  predicate NoneHold(lines: seq<string>) {
    forall k | 0 <= k < |lines| :: !Holds(lines[k])
  }

  lemma NoneHoldFromTheFront(first: string, rest: seq<string>)
    ensures NoneHold([first] + rest) <==> !Holds(first) && NoneHold(rest)
    ensures NoneHold([])
  {
    hide Holds;
    var lines := [first] + rest;
    assert lines[0] == first && forall k | 0 <= k < |rest| :: rest[k] == lines[k + 1];
  }

  lemma EndedTogether(a: string, b: string)
    ensures Ended("") && Ended(a + "\n") && (Ended(b) ==> Ended(a + "\n" + b))
  {
  }

  lemma {:induction false} UnlinesHoldExactly(lines: seq<string>)
    ensures Ended(Unlines(lines))
    ensures PeerSection(Unlines(lines)) == "" <==> NoneHold(lines)
  {
    hide PeerSection, Unlines, NoneHold, Ended;
    UnlinesOfSome(lines);
    NoneHoldFromTheFront("", []);
    if lines == [] {
      PeerSectionOfNothing();
      EndedTogether("", "");
    } else {
      var first, rest := lines[0], lines[1..];
      assert lines == [first] + rest;
      UnlinesHoldExactly(rest);
      EndedTogether(first, Unlines(rest));
      PeerSectionAppend(first + "\n", Unlines(rest));
      NoneHoldFromTheFront(first, rest);
    }
  }

  lemma UnlinesOfSome(lines: seq<string>)
    ensures Unlines(lines) == if lines == [] then "" else lines[0] + "\n" + Unlines(lines[1..])
  {
  }

  lemma PlainHoldsNone(line: string)
    requires Plain(line)
    ensures !Holds(line)
  {
    PeerSectionOfNothing();
    PeerSectionSkips([line], "");
    assert [line][1..] == [] && Unlines([line]) + "" == line + "\n";
  }

  /** The stanza's other lines never hold one. */
  lemma FixedLinesHoldNone(i: Interface)
    ensures forall k | 0 <= k < 11 && k !in {1, 2, 8, 10} :: !Holds(StanzaLines(i)[k])
  {
    hide Holds, Plain;
    var clean := Interface("", "", i.listenPort, "");
    StanzaIsPlain(clean);
    forall k | 0 <= k < 11 && k !in {1, 2, 8, 10} ensures !Holds(StanzaLines(i)[k]) {
      assert StanzaLines(i)[k] == StanzaLines(clean)[k];
      PlainHoldsNone(StanzaLines(clean)[k]);
    }
  }

  lemma KeyLineIsHarmlessExactly(key: string, address: string)
    ensures !Holds("PrivateKey = " + key) <==> Harmless(key)
    ensures !Holds("Address = " + address) <==> Harmless(address)
  {
    hide PeerSection, Harmless;
    FieldIsHarmlessExactly("PrivateKey = ", key, "");
    FieldIsHarmlessExactly("Address = ", address, "");
    assert "PrivateKey = " + key + "" == "PrivateKey = " + key && "Address = " + address + "" == "Address = " + address;
  }

  lemma MasqueradeIsHarmlessExactly(start: string, op: string, wan: string)
    requires OneLine(start) && OneLine(op) && start != "" && start[0] == 'P'
    ensures !Holds(start + Masquerade(op, wan)) <==> Harmless(wan)
  {
    hide PeerSection, Harmless;
    var head := start + ("iptables -t nat " + op + " POSTROUTING -o ");
    OneLineAppend("iptables -t nat ", op);
    OneLineAppend("iptables -t nat " + op, " POSTROUTING -o ");
    OneLineAppend(start, "iptables -t nat " + op + " POSTROUTING -o ");
    FieldIsHarmlessExactly(head, wan, " -j MASQUERADE");
    assert start + Masquerade(op, wan) == head + wan + " -j MASQUERADE";
  }

  /** The stanza holds a peer section of its own exactly when one of its three text fields is not harmless. */
  lemma StanzaHoldsNoneExactly(i: Interface)
    ensures PeerSection(Render(i)) == "" <==> HarmlessFields(i)
  {
    hide PeerSection, Harmless, Masquerade, Holds, Forward, Unlines, Render, StanzaLines, NoneHold;
    UnlinesHoldExactly(StanzaLines(i));
    FixedLinesHoldNone(i);
    KeyLineIsHarmlessExactly(i.privateKey, i.address);
    MasqueradesAreHarmlessExactly(i.wan);
    StanzaFields(i);
    FourLinesDecide(StanzaLines(i));
  }

  lemma MasqueradesAreHarmlessExactly(wan: string)
    ensures !Holds("PostUp = " + Masquerade("-A", wan)) <==> Harmless(wan)
    ensures !Holds("PostDown = " + Masquerade("-D", wan)) <==> Harmless(wan)
  {
    hide Harmless, Masquerade, Holds;
    MasqueradeIsHarmlessExactly("PostUp = ", "-A", wan);
    MasqueradeIsHarmlessExactly("PostDown = ", "-D", wan);
  }

  lemma FourLinesDecide(lines: seq<string>)
    requires |lines| == 11 && forall k | 0 <= k < 11 && k !in {1, 2, 8, 10} :: !Holds(lines[k])
    ensures NoneHold(lines) <==> !Holds(lines[1]) && !Holds(lines[2]) && !Holds(lines[8]) && !Holds(lines[10])
  {
    hide Holds;
    if !Holds(lines[1]) && !Holds(lines[2]) && !Holds(lines[8]) && !Holds(lines[10]) {
      forall k | 0 <= k < |lines| ensures !Holds(lines[k]) {
        assert k in {1, 2, 8, 10} || !Holds(lines[k]);
      }
    }
  }

  lemma StanzaFields(i: Interface)
    ensures var lines := StanzaLines(i);
      && |lines| == 11 && lines[1] == "PrivateKey = " + i.privateKey && lines[2] == "Address = " + i.address
      && lines[8] == "PostUp = " + Masquerade("-A", i.wan) && lines[10] == "PostDown = " + Masquerade("-D", i.wan)
      && Render(i) == Unlines(lines)
  {
  }

  // ---------------------------------------------------------------- rewriting the conf

  /** The text _write_server_conf produces; it reports a change when that differs from the old text. */
  function Refreshed(i: Interface, text: string, keepPeers: bool): string {
    var peers := if keepPeers then PeerSection(text) else "";
    if peers != "" then RStripNewlines(Render(i)) + "\n\n" + peers else Render(i)
  }

  lemma PeerSectionOfNothing()
    ensures PeerSection("") == ""
  {
  }

  /** What a refresh puts below the stanza: the old peer section under a blank line, if there is one. */
  function Below(peers: string): string {
    if peers != "" then "\n" + peers else ""
  }

  /** A refreshed conf is the stanza, and the old peer section below a blank line if there is one. */
  lemma RefreshedShape(i: Interface, text: string)
    ensures Refreshed(i, text, true) == Render(i) + Below(PeerSection(text))
  {
    hide PeerSection, Render;
    RenderEnds(i);
    StrippingOneNewline(Render(i));
    var front := RStripNewlines(Render(i));
    assert front + "\n\n" + PeerSection(text) == (front + "\n") + ("\n" + PeerSection(text));
    assert Render(i) + "" == Render(i);
  }

  /** The blank line is not part of the section below it. */
  lemma BelowIsSkipped(text: string)
    ensures PeerSection(Below(PeerSection(text))) == PeerSection(text)
  {
    hide PeerSection, IsMarker, FirstLineLength;
    var peers := PeerSection(text);
    if peers == "" {
      PeerSectionOfNothing();
    } else {
      BlankIsNoMarker();
      Reassociate("\n" + peers, [], []);
      Reassociate("", "\n", peers);
      SectionByLine("", peers);
      PeerSectionOfSection(peers);
    }
  }

  /** The peer section of a refreshed conf: the old one, behind whatever the stanza itself contributes. */
  lemma RefreshedSection(i: Interface, text: string)
    ensures PeerSection(Refreshed(i, text, true)) ==
      if PeerSection(Render(i)) != "" then PeerSection(Render(i)) + Below(PeerSection(text)) else PeerSection(text)
  {
    hide PeerSection, Render, Refreshed, Below, Ended;
    RefreshedShape(i, text);
    RenderEnds(i);
    PeerSectionAppend(Render(i), Below(PeerSection(text)));
    BelowIsSkipped(text);
  }

  /** THE REWRITE KEEPS THE PEERS EXACTLY WHEN THE FIELDS ARE HARMLESS, byte for byte, from ANY old text,
      hand-edited or not; and exactly then does rewriting again change nothing. */
  lemma RefreshKeepsPeersExactly(i: Interface, text: string)
    ensures PeerSection(Refreshed(i, text, true)) == PeerSection(text) <==> HarmlessFields(i)
    ensures Refreshed(i, Refreshed(i, text, true), true) == Refreshed(i, text, true) <==> HarmlessFields(i)
  {
    hide PeerSection, Render, HarmlessFields;
    StanzaHoldsNoneExactly(i);
    RefreshedSection(i, text);
    RefreshedShape(i, text);
    RefreshedShape(i, Refreshed(i, text, true));
    if !HarmlessFields(i) {
      var was, now := PeerSection(text), PeerSection(Refreshed(i, text, true));
      assert |Below(now)| > |Below(was)|;
      assert |Render(i) + Below(now)| > |Render(i) + Below(was)|;
    }
  }

  lemma OneLineIsHarmless(field: string)
    requires OneLine(field)
    ensures Harmless(field)
  {
    LinesOfOne(field);
  }

  lemma CleanIsHarmless(i: Interface)
    requires CleanInterface(i)
    ensures HarmlessFields(i)
  {
    hide Harmless;
    OneLineIsHarmless(i.privateKey);
    OneLineIsHarmless(i.address);
    OneLineIsHarmless(i.wan);
  }

  /** So newline-free fields are enough: the peers are kept and rewriting again changes nothing. */
  lemma RefreshKeepsPeers(i: Interface, text: string)
    requires CleanInterface(i)
    ensures PeerSection(Refreshed(i, text, true)) == PeerSection(text)
    ensures Refreshed(i, Refreshed(i, text, true), true) == Refreshed(i, text, true)
  {
    hide PeerSection, Refreshed;
    CleanIsHarmless(i);
    RefreshKeepsPeersExactly(i, text);
  }

  /** What follows a stanza with harmless fields is read as if it stood alone. */
  lemma StanzaThenPeers(i: Interface, peers: string)
    requires CleanInterface(i)
    ensures PeerSection(Render(i) + ("\n" + peers)) == PeerSection(peers)
    ensures PeerSection(Render(i) + "") == ""
  {
    hide *;
    CleanIsHarmless(i);
    StanzaHoldsNoneExactly(i);
    RenderEnds(i);
    PeerSectionAppend(Render(i), "\n" + peers);
    BlankThenPeers(peers);
    Reassociate(Render(i), "", "");
  }

  lemma BlankThenPeers(peers: string)
    ensures PeerSection("\n" + peers) == PeerSection(peers)
  {
    hide PeerSection, IsMarker;
    BlankIsNoMarker();
    Reassociate("", "\n", peers);
    Reassociate("\n" + peers, [], []);
    SectionByLine("", peers);
  }

  /** A field with a marker at the start of a later line is not harmless. */
  lemma {:induction false} MarkerOnALaterLine(head: string, marker: string, tail: string)
    requires marker == "[Peer]" || marker == "# client:"
    ensures !Harmless(head + "\n" + (marker + tail))
    decreases |head|
  {
    hide LinesOf, FirstLineLength, IsMarker;
    var rest := marker + tail;
    if OneLine(head) {
      FirstOfLines(head, rest);
      MarkerIsFound(marker, tail);
      assert LinesOf(head + "\n" + rest)[1] == LinesOf(rest)[0];
    } else {
      var first, more := CutFirstLine(head);
      assert head + "\n" + rest == first + "\n" + (more + "\n" + rest);
      FirstOfLines(first, more + "\n" + rest);
      MarkerOnALaterLine(more, marker, tail);
      var lines := LinesOf(more + "\n" + rest);
      var k :| 1 <= k < |lines| && IsMarker(lines[k]);
      assert LinesOf(head + "\n" + rest)[k + 1] == lines[k];
    }
  }

  lemma MarkerIsFound(marker: string, tail: string)
    requires marker == "[Peer]" || marker == "# client:"
    ensures LinesOf(marker + tail) != [] && IsMarker(LinesOf(marker + tail)[0])
  {
    var text := marker + tail;
    FirstLineKeepsPrefix(marker, tail);
    var first := LinesOf(text)[0];
    assert marker <= first && LStrip(first) == first;
  }

  /** ... and any such field forges peers: whichever of the three it is, whatever the rest of the stanza and
      the old text, the next rewrite takes part of the stanza for peers. */
  lemma UncleanFieldForgesPeers(i: Interface, text: string, head: string, marker: string, tail: string)
    requires marker == "[Peer]" || marker == "# client:"
    ensures var field := head + "\n" + (marker + tail);
      forall j | j in {i.(privateKey := field), i.(address := field), i.(wan := field)} ::
        PeerSection(Refreshed(j, text, true)) != PeerSection(text)
  {
    hide PeerSection, Refreshed, Harmless;
    var field := head + "\n" + (marker + tail);
    MarkerOnALaterLine(head, marker, tail);
    RefreshKeepsPeersExactly(i.(privateKey := field), text);
    RefreshKeepsPeersExactly(i.(address := field), text);
    RefreshKeepsPeersExactly(i.(wan := field), text);
  }

  lemma {:induction false} UnlinesSplit(a: seq<string>, b: seq<string>)
    ensures Unlines(a + b) == Unlines(a) + Unlines(b)
  {
    if a == [] {
      assert a + b == b;
    } else {
      assert (a + b)[1..] == a[1..] + b;
      UnlinesSplit(a[1..], b);
    }
  }

  // ---------------------------------------------------------------- peer blocks

  datatype Peer = Peer(name: string, key: string, allowed: string)

  predicate CleanPeer(p: Peer) {
    && OneLine(p.name) && OneLine(p.key) && OneLine(p.allowed)
    && p.allowed != "" && !IsSpace(p.allowed[|p.allowed| - 1])
  }

  function BlockLines(p: Peer): seq<string> {
    ["", "# client:" + p.name, "[Peer]", "PublicKey = " + p.key, "AllowedIPs = " + p.allowed]
  }

  function Block(p: Peer): string {
    Unlines(BlockLines(p))
  }

  function Blocks(peers: seq<Peer>): string {
    if peers == [] then "" else Blocks(peers[..|peers| - 1]) + Block(peers[|peers| - 1])
  }

  ghost function WithPeer(text: string, p: Peer): string {
    if Contains(text, p.key) then text else RStrip(text) + "\n" + Block(p)
  }

  method AppendPeer(text: string, p: Peer) returns (r: string)
    ensures r == WithPeer(text, p)
  {
    var present := IsIn(p.key, text);
    r := if present then text else RStrip(text) + "\n" + Block(p);
  }

  /** A PEER IS ADDED ONCE: a text in which its key occurs is left alone, so appending it again changes nothing. */
  lemma PeerAddedOnce(text: string, p: Peer, before: string, after: string)
    ensures text == before + p.key + after ==> WithPeer(text, p) == text
    ensures WithPeer(WithPeer(text, p), p) == WithPeer(text, p)
  {
    if text == before + p.key + after {
      assert text[|before|..|before| + |p.key|] == p.key;
      assert OccursAt(text, p.key, |before|);
    }
    if !Contains(text, p.key) {
      var (front, after) := KeyInBlock(p);
      var whole, at := RStrip(text) + "\n" + Block(p), |RStrip(text) + "\n" + front|;
      hide RStrip, Block;
      assert whole == (RStrip(text) + "\n" + front) + (p.key + after);
      assert whole[at..at + |p.key|] == p.key;
      assert OccursAt(whole, p.key, at);
    }
  }

  lemma UnlinesOne(line: string, rest: seq<string>)
    ensures Unlines([line] + rest) == line + "\n" + Unlines(rest)
  {
    assert ([line] + rest)[1..] == rest;
  }

  /** What stands before and behind the key in a block. */
  ghost function KeyInBlock(p: Peer): (parts: (string, string))
    ensures Block(p) == parts.0 + (p.key + parts.1)
  {
    var last := ["AllowedIPs = " + p.allowed];
    var first, second, third := "", "# client:" + p.name, "[Peer]";
    BlockSpelledOut(p);
    KeyLine(first + "\n" + second + "\n" + third + "\n", p.key, "\n" + Unlines(last));
    (first + "\n" + second + "\n" + third + "\n" + "PublicKey = ", "\n" + Unlines(last))
  }

  lemma KeyLine(front: string, key: string, after: string)
    ensures front + ("PublicKey = " + key + after) == (front + "PublicKey = ") + (key + after)
  {
  }

  lemma BlockSpelledOut(p: Peer)
    ensures Block(p) == "" + "\n" + ("# client:" + p.name) + "\n" + "[Peer]" + "\n"
                        + ("PublicKey = " + p.key + ("\n" + Unlines(["AllowedIPs = " + p.allowed])))
  {
    var key, last := "PublicKey = " + p.key, ["AllowedIPs = " + p.allowed];
    var second, third := "# client:" + p.name, "[Peer]";
    hide Unlines;
    assert BlockLines(p) == [""] + ([second] + ([third] + ([key] + last)));
    UnlinesOne("", [second] + ([third] + ([key] + last)));
    UnlinesOne(second, [third] + ([key] + last));
    UnlinesOne(third, [key] + last);
    UnlinesOne(key, last);
    var tail := key + "\n" + Unlines(last);
    assert tail == key + ("\n" + Unlines(last));
    assert "" + "\n" + (second + "\n" + (third + "\n" + tail)) == "" + "\n" + second + "\n" + third + "\n" + tail;
  }

  predicate AllClean(peers: seq<Peer>) {
    forall i | 0 <= i < |peers| :: CleanPeer(peers[i])
  }

  /** The conf as the commands leave it: a stanza, then the peers appended since. */
  function Conf(i: Interface, peers: seq<Peer>): string {
    Render(i) + Blocks(peers)
  }

  lemma BlockEnds(p: Peer)
    requires CleanPeer(p)
    ensures EndsInOneNewline(Block(p))
  {
    var line := "AllowedIPs = " + p.allowed;
    assert BlockLines(p)[4] == line && line[|line| - 1] == p.allowed[|p.allowed| - 1];
    UnlinesEnds(BlockLines(p));
  }

  lemma EndsBehind(front: string, text: string)
    requires EndsInOneNewline(text)
    ensures EndsInOneNewline(front + text)
  {
    hide IsSpace;
    var all := front + text;
    assert all[|all| - 1] == text[|text| - 1] && all[|all| - 2] == text[|text| - 2];
  }

  lemma ConfEnds(i: Interface, peers: seq<Peer>)
    requires AllClean(peers)
    ensures EndsInOneNewline(Conf(i, peers))
  {
    hide Render, Block, CleanPeer, EndsInOneNewline;
    RenderEnds(i);
    if peers == [] {
      assert Conf(i, peers) == Render(i);
    } else {
      var last := peers[|peers| - 1];
      BlockEnds(last);
      EndsBehind(Render(i) + Blocks(peers[..|peers| - 1]), Block(last));
      assert Conf(i, peers) == Render(i) + Blocks(peers[..|peers| - 1]) + Block(last);
    }
  }

  /** Appending a fresh peer adds its block at the end and touches nothing before it. */
  lemma AppendExtends(i: Interface, peers: seq<Peer>, p: Peer)
    requires AllClean(peers) && !Contains(Conf(i, peers), p.key)
    ensures WithPeer(Conf(i, peers), p) == Conf(i, peers + [p])
  {
    ConfEnds(i, peers);
    StrippingOneNewline(Conf(i, peers));
    assert (peers + [p])[..|peers|] == peers;
    assert Conf(i, peers + [p]) == Render(i) + (Blocks(peers) + Block(p));
  }

  /** Refreshing such a conf swaps the stanza and keeps every peer. */
  lemma RefreshReplacesStanza(i: Interface, before: Interface, peers: seq<Peer>)
    requires CleanInterface(i) && CleanInterface(before)
    ensures Refreshed(i, Conf(before, peers), true) == Conf(i, peers)
  {
    hide PeerSection, Render, Blocks;
    RefreshedShape(i, Conf(before, peers));
    if peers == [] {
      NoBlocks();
      StanzaThenPeers(before, "");
    } else {
      BlocksBegin(peers);
      var rest := Blocks(peers)[1..];
      assert Blocks(peers) == "\n" + rest;
      StanzaThenPeers(before, rest);
      PeerSectionOfSection(rest);
    }
  }

  lemma NoBlocks()
    ensures Blocks([]) == ""
  {
  }

  lemma {:induction false} BlocksBegin(peers: seq<Peer>)
    requires peers != []
    ensures Blocks(peers) != "" && Blocks(peers)[0] == '\n'
    ensures var rest := Blocks(peers)[1..]; rest != "" && IsMarker(rest[..FirstLineLength(rest)])
  {
    var rest := Blocks(peers)[1..];
    var begin := BlocksBeginWith(peers);
    assert rest == "# client:" + begin;
    FirstLineKeepsPrefix("# client:", begin);
    var first := rest[..FirstLineLength(rest)];
    assert first[0] == '#';
    assert LStrip(first) == first;
    assert StartsWith(first, "# client:");
  }

  lemma {:induction false} FirstLineKeepsPrefix(prefix: string, rest: string)
    requires OneLine(prefix)
    ensures FirstLineLength(prefix + rest) >= |prefix|
  {
    if prefix != "" {
      assert (prefix + rest)[1..] == prefix[1..] + rest;
      FirstLineKeepsPrefix(prefix[1..], rest);
    }
  }

  lemma {:induction false} BlocksBeginWith(peers: seq<Peer>) returns (begin: string)
    requires peers != []
    ensures Blocks(peers) == "\n# client:" + begin
  {
    hide Block;
    var front, last := peers[..|peers| - 1], peers[|peers| - 1];
    if front == [] {
      begin := BlockBeginsWith(last);
      assert Blocks(front) == "";
    } else {
      var b := BlocksBeginWith(front);
      begin := b + Block(last);
    }
  }

  lemma BlockBeginsWith(p: Peer) returns (begin: string)
    ensures Block(p) == "\n# client:" + begin
  {
    BlockSpelledOut(p);
    hide Block, Unlines;
    var rest := "\n" + "[Peer]" + "\n" + ("PublicKey = " + p.key + ("\n" + Unlines(["AllowedIPs = " + p.allowed])));
    begin := p.name + rest;
    assert "" + "\n" + ("# client:" + p.name) == "\n# client:" + p.name;
    assert Block(p) == ("" + "\n" + ("# client:" + p.name)) + rest;
  }

  // ---------------------------------------------------------------- reading the peers back

  /** A reader of the conf, line by line: the client comment, the header, the two fields. */
  datatype Scan = Scan(name: string, inPeer: bool, key: string)

  function ScanLines(lines: seq<string>, s: Scan): seq<Peer> {
    if lines == [] then []
    else
      var line, rest := lines[0], lines[1..];
      if StartsWith(line, "# client:") then ScanLines(rest, s.(name := line[9..]))
      else if line == "[Peer]" then ScanLines(rest, s.(inPeer := true))
      else if s.inPeer && StartsWith(line, "PublicKey = ") then ScanLines(rest, s.(key := line[12..]))
      else if s.inPeer && StartsWith(line, "AllowedIPs = ") then
        [Peer(s.name, s.key, line[13..])] + ScanLines(rest, s.(inPeer := false))
      else ScanLines(rest, s)
  }

  function ParsePeers(conf: string): seq<Peer> {
    ScanLines(LinesOf(conf), Scan("", false, ""))
  }

  lemma ScanBlock(p: Peer, rest: seq<string>, s: Scan)
    requires !s.inPeer
    ensures ScanLines(BlockLines(p) + rest, s) == [p] + ScanLines(rest, Scan(p.name, false, p.key))
  {
    var l := BlockLines(p) + rest;
    assert l[0] == "" && l[1..][0] == "# client:" + p.name && l[2..][0] == "[Peer]";
    assert l[3..][0] == "PublicKey = " + p.key && l[4..][0] == "AllowedIPs = " + p.allowed;
    assert l[1..][1..] == l[2..] && l[2..][1..] == l[3..] && l[3..][1..] == l[4..] && l[4..][1..] == l[5..] == rest;
    var named := s.(name := p.name);
    assert ScanLines(l, s) == ScanLines(l[1..], s);
    assert ScanLines(l[1..], s) == ScanLines(l[2..], named);
    assert ScanLines(l[2..], named) == ScanLines(l[3..], named.(inPeer := true));
    assert l[3..][0][0] == 'P' && l[4..][0][0] == 'A';
    assert ScanLines(l[3..], named.(inPeer := true)) == ScanLines(l[4..], Scan(p.name, true, p.key));
    assert ScanLines(l[4..], Scan(p.name, true, p.key)) == [p] + ScanLines(l[5..], Scan(p.name, false, p.key));
  }

  function AllBlockLines(peers: seq<Peer>): seq<string> {
    if peers == [] then [] else BlockLines(peers[0]) + AllBlockLines(peers[1..])
  }

  lemma {:induction false} ScanBlocks(peers: seq<Peer>, s: Scan)
    requires !s.inPeer
    ensures ScanLines(AllBlockLines(peers), s) == peers
  {
    if peers != [] {
      ScanBlock(peers[0], AllBlockLines(peers[1..]), s);
      ScanBlocks(peers[1..], Scan(peers[0].name, false, peers[0].key));
    }
  }

  lemma {:induction false} ScanSkips(lines: seq<string>, rest: seq<string>, s: Scan)
    requires !s.inPeer
    requires forall i | 0 <= i < |lines| :: !StartsWith(lines[i], "# client:") && lines[i] != "[Peer]"
    ensures ScanLines(lines + rest, s) == ScanLines(rest, s)
  {
    if lines == [] {
      assert lines + rest == rest;
    } else {
      assert (lines + rest)[1..] == lines[1..] + rest;
      ScanSkips(lines[1..], rest, s);
    }
  }

  lemma BlockIsLines(p: Peer)
    requires CleanPeer(p)
    ensures AllOneLine(BlockLines(p))
  {
    OneLineAppend("# client:", p.name);
    OneLineAppend("PublicKey = ", p.key);
    OneLineAppend("AllowedIPs = ", p.allowed);
  }

  lemma {:induction false} BlocksFromTheFront(peers: seq<Peer>)
    requires peers != []
    ensures Blocks(peers) == Block(peers[0]) + Blocks(peers[1..])
  {
    hide Block;
    if |peers| == 1 {
      assert Blocks(peers[..0]) == "" && Blocks(peers[1..]) == "";
    } else {
      var front, last := peers[..|peers| - 1], peers[|peers| - 1];
      BlocksFromTheFront(front);
      var rest := peers[1..];
      assert rest[..|rest| - 1] == front[1..];
      Reassociate(Block(peers[0]), Blocks(front[1..]), Block(last));
    }
  }

  lemma {:induction false} LinesOfBlocks(peers: seq<Peer>)
    requires AllClean(peers)
    ensures LinesOf(Blocks(peers)) == AllBlockLines(peers)
  {
    if peers != [] {
      BlocksFromTheFront(peers);
      BlockIsLines(peers[0]);
      LinesOfUnlines(BlockLines(peers[0]), Blocks(peers[1..]));
      LinesOfBlocks(peers[1..]);
    }
  }

  /** The peers read back from the conf are exactly the ones appended, in order. */
  lemma ParsedPeersAreTheAppended(i: Interface, peers: seq<Peer>)
    requires CleanInterface(i) && AllClean(peers)
    ensures ParsePeers(Conf(i, peers)) == peers
  {
    var lines := StanzaLines(i);
    StanzaIsPlain(i);
    LinesOfUnlines(lines, Blocks(peers));
    LinesOfBlocks(peers);
    forall k | 0 <= k < |lines| ensures !StartsWith(lines[k], "# client:") && lines[k] != "[Peer]" {
      assert Plain(lines[k]);
      NotMarkerNotPeer(lines[k]);
    }
    ScanSkips(lines, AllBlockLines(peers), Scan("", false, ""));
    ScanBlocks(peers, Scan("", false, ""));
  }

  lemma NotMarkerNotPeer(line: string)
    requires Plain(line)
    ensures !StartsWith(line, "# client:") && line != "[Peer]"
  {
    var whole := line + "\n";
    assert line <= whole;
    if line != "" && !IsSpace(line[0]) {
      assert LStrip(whole) == whole;
    } else {
      assert line == "" || (line[0] != '#' && line[0] != '[');
    }
  }

  // ---------------------------------------------------------------- the stanza read back

  /** The first line that sets a key. */
  function Setting(lines: seq<string>, key: string): Option<string> {
    if lines == [] then None
    else if StartsWith(lines[0], key + " = ") then Some(lines[0][|key| + 3..])
    else Setting(lines[1..], key)
  }

  lemma {:induction false} SettingAt(lines: seq<string>, key: string, value: string, k: nat)
    requires k < |lines| && key != "" && lines[k] == key + " = " + value
    requires forall j | 0 <= j < k :: lines[j] != "" && lines[j][0] != key[0]
    ensures Setting(lines, key) == Some(value)
  {
    var start := key + " = ";
    assert start[0] == key[0];
    if k == 0 {
      assert lines[0] == start + value;
      assert lines[0][..|start|] == start && lines[0][|start|..] == value;
    } else {
      SettingAt(lines[1..], key, value, k - 1);
    }
  }

  /** These lines set the key, the address and the port, keep wg-quick from saving over the conf, and masquerade
      traffic out of the WAN interface, up and down. */
  ghost predicate SaysInterface(lines: seq<string>, privateKey: string, address: string, port: int, wan: string) {
    && Setting(lines, "PrivateKey") == Some(privateKey) && Setting(lines, "Address") == Some(address)
    && Setting(lines, "ListenPort") == Some(PortText(port)) && Setting(lines, "SaveConfig") == Some("false")
    && "PostUp = " + ("iptables -t nat " + "-A" + " POSTROUTING -o " + wan + " -j MASQUERADE") in lines
    && "PostDown = " + ("iptables -t nat " + "-D" + " POSTROUTING -o " + wan + " -j MASQUERADE") in lines
  }

  /** THE STANZA SAYS WHAT IT WAS RENDERED FROM, to a reader of its lines, whatever follows it. */
  lemma StanzaReadsBack(i: Interface, rest: string)
    requires CleanInterface(i)
    ensures SaysInterface(LinesOf(Render(i) + rest), i.privateKey, i.address, i.listenPort, i.wan)
  {
    hide LinesOf, Unlines, Plain, Setting, PortText, Forward;
    var stanza := StanzaLines(i);
    StanzaIsPlain(i);
    LinesOfStanza(i, rest);
    var lines := LinesOf(Render(i) + rest);
    assert forall k | 0 <= k < |stanza| :: lines[k] == stanza[k];
    assert lines[0][0] == '[' && lines[1][0] == 'P' && lines[2][0] == 'A' && lines[3][0] == 'L';
    SettingAt(lines, "PrivateKey", i.privateKey, 1);
    SettingAt(lines, "Address", i.address, 2);
    SettingAt(lines, "ListenPort", PortText(i.listenPort), 3);
    SettingAt(lines, "SaveConfig", "false", 4);
    assert lines[8] in lines && lines[10] in lines;
  }

  lemma LinesOfStanza(i: Interface, rest: string)
    requires forall k | 0 <= k < |StanzaLines(i)| :: Plain(StanzaLines(i)[k])
    ensures LinesOf(Render(i) + rest) == StanzaLines(i) + LinesOf(rest)
  {
    hide LinesOf, StanzaLines, Unlines;
    LinesOfUnlines(StanzaLines(i), rest);
  }
}
