/**
 The hub's DogStatsD lines and the greedy packing of lines into datagrams.

 Text is what `str.encode` gives for the ASCII the line builders emit: one byte a character.
 */
module Statsd {
  import opened ByteStrings

  type Line = seq<Byte>

  const NEWLINE: Byte := 10
  const MAX_PAYLOAD := 1400
  const TAG_MAX := 100

  // ---------------------------------------------------------------- lines

  /** The characters a tag may carry: A-Z a-z 0-9 _ - . / : */
  predicate TagSafe(c: char) {
    'A' <= c <= 'Z' || 'a' <= c <= 'z' || '0' <= c <= '9' || c in "_-./:"
  }

  function Substitute(value: string): (r: string)
    ensures |r| == |value|
    ensures forall i | 0 <= i < |value| :: r[i] == if TagSafe(value[i]) then value[i] else '_'
  {
    seq(|value|, i requires 0 <= i < |value| => if TagSafe(value[i]) then value[i] else '_')
  }

  /** The part of a tag after its key. */
  function TagValue(value: string): string {
    var safe := Substitute(value);
    if |safe| > TAG_MAX then safe[..TAG_MAX] else safe
  }

  function StatsdTag(key: string, value: string): string {
    key + ":" + TagValue(value)
  }

  function JoinTags(tags: seq<string>): string {
    if tags == [] then "" else if |tags| == 1 then tags[0] else tags[0] + "," + JoinTags(tags[1..])
  }

  /** One gauge line; `number` is the value as %g renders it. */
  function StatsdLine(metric: string, number: string, tags: seq<string>): string {
    var line := metric + ":" + number + "|g";
    if tags == [] then line else line + "|#" + JoinTags(tags)
  }

  predicate OneLine(s: string) {
    '\n' !in s
  }

  lemma TagValueIsSafe(value: string)
    ensures forall c | c in TagValue(value) :: TagSafe(c)
    ensures |TagValue(value)| <= TAG_MAX
  {
    var safe := Substitute(value);
    forall i | 0 <= i < |safe| ensures TagSafe(safe[i]) {
    }
  }

  lemma OneLineTogether(a: string, b: string)
    requires OneLine(a) && OneLine(b)
    ensures OneLine(a + b)
  {
  }

  /** Whatever the router is called, its tag cannot break the line, forge a second tag, or grow. */
  lemma TagIsHarmless(key: string, value: string)
    requires OneLine(key)
    ensures OneLine(StatsdTag(key, value))
    ensures StatsdTag(key, value)[|key| + 1..] == TagValue(value)
    ensures forall c | c in TagValue(value) :: TagSafe(c) && c != ',' && c != '|' && c != '#'
    ensures |StatsdTag(key, value)| <= |key| + 1 + TAG_MAX
  {
    hide TagValue;
    TagValueIsSafe(value);
    OneLineTogether(key, ":");
    OneLineTogether(key + ":", TagValue(value));
  }

  lemma {:induction false} JoinedTagsAreOneLine(tags: seq<string>)
    requires forall t | t in tags :: OneLine(t)
    ensures OneLine(JoinTags(tags))
  {
    if |tags| > 1 {
      JoinedTagsAreOneLine(tags[1..]);
      assert OneLine(tags[0]);
    }
  }

  /** The tags of a line: the router, then the configured service, env and version. */
  function RouterTags(router: string, extra: seq<(string, string)>): seq<string> {
    [StatsdTag("router", router)] + seq(|extra|, i requires 0 <= i < |extra| => StatsdTag(extra[i].0, extra[i].1))
  }

  lemma TagsAreOneLine(router: string, extra: seq<(string, string)>)
    requires forall e | e in extra :: OneLine(e.0)
    ensures forall t | t in RouterTags(router, extra) :: OneLine(t)
  {
    hide StatsdTag, OneLine;
    RouterIsOneLine();
    TagIsHarmless("router", router);
    forall i | 0 <= i < |extra| ensures OneLine(StatsdTag(extra[i].0, extra[i].1)) {
      assert extra[i] in extra;
      TagIsHarmless(extra[i].0, extra[i].1);
    }
  }

  lemma RouterIsOneLine()
    ensures OneLine("router") && OneLine(":") && OneLine("|g") && OneLine("|#")
  {
  }

  /** A line built from any router name and any configured service, env and version is one line. */
  lemma LineIsOneLine(metric: string, number: string, router: string, extra: seq<(string, string)>)
    requires OneLine(metric) && OneLine(number)
    requires forall e | e in extra :: OneLine(e.0)
    ensures OneLine(StatsdLine(metric, number, RouterTags(router, extra)))
  {
    hide OneLine, JoinTags, RouterTags;
    TagsAreOneLine(router, extra);
    JoinedTagsAreOneLine(RouterTags(router, extra));
    RouterIsOneLine();
    OneLineTogether(metric, ":");
    OneLineTogether(metric + ":", number);
    OneLineTogether(metric + ":" + number, "|g");
    OneLineTogether(metric + ":" + number + "|g", "|#");
    OneLineTogether(metric + ":" + number + "|g" + "|#", JoinTags(RouterTags(router, extra)));
  }

  // ---------------------------------------------------------------- a line read back

  /** A TAG THAT IS SAFE AND SHORT ENOUGH COMES THROUGH UNCHANGED, and no other does; each character that is not
      safe becomes an underscore where it stands, and what is over the bound is cut. */
  lemma TagComesThroughExactly(value: string)
    ensures TagValue(value) == value <==> |value| <= TAG_MAX && forall i | 0 <= i < |value| :: TagSafe(value[i])
    ensures |TagValue(value)| == if |value| <= TAG_MAX then |value| else TAG_MAX
    ensures forall i | 0 <= i < |TagValue(value)| :: TagValue(value)[i] == if TagSafe(value[i]) then value[i] else '_'
  {
    var safe := Substitute(value);
    assert TagSafe('_');
    if TagValue(value) == value {
      forall i | 0 <= i < |value| ensures TagSafe(value[i]) {
        assert TagSafe(safe[i]);
      }
    }
    if forall i | 0 <= i < |value| :: TagSafe(value[i]) {
      assert safe == value;
    }
  }

  /** What stands before and after the first separator; all of it and nothing when there is none. */
  function CutAt(s: string, sep: char): (string, string) {
    if s == "" then ("", "")
    else if s[0] == sep then ("", s[1..])
    else var rest := CutAt(s[1..], sep); ([s[0]] + rest.0, rest.1)
  }

  lemma {:induction false} CutIs(a: string, sep: char, b: string)
    requires sep !in a
    ensures CutAt(a + [sep] + b, sep) == (a, b) && CutAt(a, sep) == (a, "")
  {
    var all := a + [sep] + b;
    if a == "" {
      assert all[1..] == b;
    } else {
      assert all[1..] == a[1..] + [sep] + b && a == [a[0]] + a[1..];
      CutIs(a[1..], sep, b);
    }
  }

  function ReadTags(s: string, count: nat): seq<string>
    decreases count
  {
    if count == 0 then [] else var (tag, rest) := CutAt(s, ','); [tag] + ReadTags(rest, count - 1)
  }

  lemma {:induction false} TagsReadBack(tags: seq<string>)
    requires forall t | t in tags :: ',' !in t
    ensures ReadTags(JoinTags(tags), |tags|) == tags
  {
    if |tags| == 1 {
      CutIs(tags[0], ',', "");
      assert ReadTags(CutAt(JoinTags(tags), ',').1, 0) == [] && tags == [tags[0]];
    } else if |tags| > 1 {
      TagsReadBack(tags[1..]);
      CutIs(tags[0], ',', JoinTags(tags[1..]));
      assert tags[0] + "," + JoinTags(tags[1..]) == tags[0] + [','] + JoinTags(tags[1..]);
      assert tags == [tags[0]] + tags[1..];
    }
  }

  /** THE AGENT READS THE LINE BACK: the metric up to the colon, the number up to the bar, that it is a gauge, and
      the tags one by one. */
  lemma LineReadsBack(metric: string, number: string, tags: seq<string>)
    requires ':' !in metric && '|' !in number && forall t | t in tags :: ',' !in t
    ensures var line := StatsdLine(metric, number, tags);
      var (name, rest) := CutAt(line, ':');
      var (value, kind) := CutAt(rest, '|');
      && name == metric && value == number
      && (if tags == [] then kind == "g" else CutAt(kind, '#').0 == "g|" && ReadTags(CutAt(kind, '#').1, |tags|) == tags)
  {
    hide JoinTags, CutAt, ReadTags, StatsdLine;
    var kind := if tags == [] then "g" else "g|" + ['#'] + JoinTags(tags);
    LineShape(metric, number, tags);
    CutIs(metric, ':', number + ['|'] + kind);
    CutIs(number, '|', kind);
    if tags != [] {
      assert '#' !in "g|";
      CutIs("g|", '#', JoinTags(tags));
      TagsReadBack(tags);
    }
  }

  lemma LineShape(metric: string, number: string, tags: seq<string>)
    ensures StatsdLine(metric, number, tags)
            == metric + [':'] + (number + ['|'] + if tags == [] then "g" else "g|" + ['#'] + JoinTags(tags))
  {
    hide JoinTags;
    var joined := JoinTags(tags);
    assert "|g" == ['|'] + "g" && "|g" + "|#" == ['|'] + ("g|" + ['#']) && ":" == [':'];
    if tags == [] {
      assert metric + ":" + number + "|g" == metric + [':'] + (number + (['|'] + "g"));
      Reassociate(number, ['|'], "g");
    } else {
      assert metric + ":" + number + "|g" + "|#" + joined == metric + [':'] + (number + (("|g" + "|#") + joined));
      assert ("|g" + "|#") + joined == ['|'] + ("g|" + ['#'] + joined);
      Reassociate(number, ['|'], "g|" + ['#'] + joined);
    }
  }

  /** A tag has no comma whatever its value, so the tags of every line read back. */
  lemma RouterTagsReadBack(router: string, extra: seq<(string, string)>)
    requires forall e | e in extra :: ',' !in e.0
    ensures var tags := RouterTags(router, extra);
      && (forall t | t in tags :: ',' !in t)
      && tags[0] == "router:" + TagValue(router)
      && |tags| == 1 + |extra| && forall i | 0 <= i < |extra| :: tags[1 + i] == extra[i].0 + ":" + TagValue(extra[i].1)
  {
    hide TagValue;
    var tags := RouterTags(router, extra);
    TagHasNoComma("router", router);
    assert tags[0] == "router" + ":" + TagValue(router);
    assert "router" + ":" == "router:";
    forall k | 0 <= k < |tags| ensures ',' !in tags[k] {
      if k > 0 {
        assert extra[k - 1] in extra;
        TagHasNoComma(extra[k - 1].0, extra[k - 1].1);
      }
    }
  }

  lemma TagHasNoComma(key: string, value: string)
    requires ',' !in key
    ensures ',' !in StatsdTag(key, value)
  {
    hide TagValue;
    TagValueIsSafe(value);
    assert !TagSafe(',');
  }

  // ---------------------------------------------------------------- joining and splitting

  function Join(group: seq<Line>): Line {
    if group == [] then []
    else if |group| == 1 then group[0]
    else Join(group[..|group| - 1]) + [NEWLINE] + group[|group| - 1]
  }

  /** `blob.split("\n")`, read from the right. */
  function Split(blob: Line): (lines: seq<Line>)
    ensures |lines| > 0
  {
    if blob == [] then [[]]
    else
      var rest := Split(blob[..|blob| - 1]);
      if blob[|blob| - 1] == NEWLINE then rest + [[]]
      else rest[..|rest| - 1] + [rest[|rest| - 1] + [blob[|blob| - 1]]]
  }

  predicate NewlineFree(line: Line) {
    NEWLINE !in line
  }

  /** Some lines, the last of them one byte longer. */
  function Longer(lines: seq<Line>, b: Byte): seq<Line>
    requires lines != []
  {
    lines[..|lines| - 1] + [lines[|lines| - 1] + [b]]
  }

  lemma SplitOneMore(blob: Line, b: Byte)
    ensures Split(blob + [b]) == if b == NEWLINE then Split(blob) + [[]] else Longer(Split(blob), b)
    ensures Split([]) == [[]]
  {
    assert (blob + [b])[..|blob|] == blob;
  }

  lemma LongerLast(lines: seq<Line>, last: Line, b: Byte)
    ensures Longer(lines + [last], b) == lines + [last + [b]]
    ensures Longer([last], b) == [last + [b]]
  {
    assert (lines + [last])[..|lines|] == lines;
  }

  lemma {:induction false} SplitAppends(head: Line, line: Line)
    requires NewlineFree(line)
    ensures Split(head + [NEWLINE] + line) == Split(head) + [line]
    ensures Split(line) == [line]
  {
    hide Split, Longer;
    SplitOneMore(head, NEWLINE);
    if line == [] {
      assert head + [NEWLINE] + line == head + [NEWLINE];
    } else {
      var front, last := line[..|line| - 1], line[|line| - 1];
      assert last in line;
      SplitAppends(head, front);
      SplitOneMore(head + [NEWLINE] + front, last);
      SplitOneMore(front, last);
      LongerLast(Split(head), front, last);
      assert line == front + [last];
      assert head + [NEWLINE] + line == (head + [NEWLINE] + front) + [last];
    }
  }

  /** Splitting a datagram gives back the lines that went into it. */
  lemma {:induction false} SplitInvertsJoin(group: seq<Line>)
    requires group != [] && forall line | line in group :: NewlineFree(line)
    ensures Split(Join(group)) == group
  {
    hide Split, NewlineFree;
    var front, last := group[..|group| - 1], group[|group| - 1];
    assert last in group;
    if front == [] {
      SplitAppends([], last);
      assert group == [last];
    } else {
      SplitInvertsJoin(front);
      SplitAppends(Join(front), last);
      assert group == front + [last];
    }
  }

  // ---------------------------------------------------------------- groupings

  function Flatten<T>(groups: seq<seq<T>>): seq<T> {
    if groups == [] then [] else Flatten(groups[..|groups| - 1]) + groups[|groups| - 1]
  }

  /** A group that may travel as one datagram: within the budget, or a single line that has no choice. */
  predicate Sendable(group: seq<Line>) {
    group != [] && (|group| == 1 || |Join(group)| <= MAX_PAYLOAD)
  }

  /** An in-order grouping of `lines` into datagrams that keeps the rule. */
  ghost predicate Grouping(groups: seq<seq<Line>>, lines: seq<Line>) {
    Flatten(groups) == lines && forall g | g in groups :: Sendable(g)
  }

  /** Dropping the last line of a sendable group leaves a sendable group, or none. */
  lemma ShorterIsSendable(group: seq<Line>)
    requires Sendable(group) && |group| > 1
    ensures Sendable(group[..|group| - 1])
  {
  }

  /** The size of a longer suffix of the lines dominates the size of a shorter one. */
  lemma {:induction false} LongerSuffixIsLarger(group: seq<Line>, k: nat)
    requires k < |group|
    ensures |Join(group[k..])| <= |Join(group)|
  {
    if k > 0 && |group| > 1 {
      var front, last := group[..|group| - 1], group[|group| - 1];
      assert Join(group) == Join(front) + [NEWLINE] + last;
      if k < |group| - 1 {
        LongerSuffixIsLarger(front, k);
        assert group[k..][..|group[k..]| - 1] == front[k..];
        assert Join(group[k..]) == Join(front[k..]) + [NEWLINE] + last;
      } else {
        assert group[k..] == [last];
      }
    }
  }

  /** Greedy's lead after some lines: no valid grouping has used fewer datagrams, and one that has used
      as few has at least as many lines in its open one. */
  ghost predicate Ahead(out: nat, batch: nat, lines: seq<Line>) {
    forall groups | Grouping(groups, lines) && groups != [] ::
      |groups| >= out + 1 && (|groups| == out + 1 ==> |groups[|groups| - 1]| >= batch)
  }

  /** A grouping of one line fewer: the last line taken off the last group. */
  lemma DropLastLine(groups: seq<seq<Line>>, lines: seq<Line>, line: Line)
    returns (shorter: seq<seq<Line>>)
    requires Grouping(groups, lines + [line])
    ensures groups != [] && Grouping(shorter, lines)
    ensures shorter == [] <==> lines == []
    ensures var last := groups[|groups| - 1];
            last != [] && last[|last| - 1] == line &&
            shorter == if |last| == 1 then groups[..|groups| - 1] else groups[..|groups| - 1] + [last[..|last| - 1]]
  {
    assert Flatten(groups) == lines + [line] != [];
    var front, last := groups[..|groups| - 1], groups[|groups| - 1];
    assert last in groups && Sendable(last);
    assert Flatten(front) + last == lines + [line];
    assert last[|last| - 1] == (Flatten(front) + last)[|Flatten(front) + last| - 1] == line;
    if |last| == 1 {
      shorter := front;
      assert Flatten(front) == (Flatten(front) + last)[..|lines|] == lines;
    } else {
      ShorterIsSendable(last);
      shorter := front + [last[..|last| - 1]];
      assert shorter[..|shorter| - 1] == front;
      assert Flatten(shorter) == Flatten(front) + last[..|last| - 1] == (Flatten(front) + last)[..|lines|] == lines;
    }
    if shorter != [] {
      assert shorter[|shorter| - 1] in shorter && Sendable(shorter[|shorter| - 1]);
    }
  }

  /** The last group of a grouping is a suffix of the lines. */
  lemma LastGroupIsSuffix(groups: seq<seq<Line>>, lines: seq<Line>)
    requires Grouping(groups, lines) && groups != []
    ensures |groups[|groups| - 1]| <= |lines|
    ensures groups[|groups| - 1] == lines[|lines| - |groups[|groups| - 1]|..]
  {
    assert lines == Flatten(groups[..|groups| - 1]) + groups[|groups| - 1];
  }

  /** A group that ends in the line and takes in all of greedy's batch is over the budget. */
  lemma TooLargeToSend(group: seq<Line>, batch: nat, lines: seq<Line>, line: Line)
    requires 0 < batch <= |lines| && batch < |group| <= |lines| + 1
    requires group == (lines + [line])[|lines| + 1 - |group|..]
    requires |Join(lines[|lines| - batch..] + [line])| > MAX_PAYLOAD
    ensures !Sendable(group)
  {
    var k := |group| - batch - 1;
    assert group[k..] == lines[|lines| - batch..] + [line];
    LongerSuffixIsLarger(group, k);
  }

  /** When the line does not fit greedy's batch, a grouping that includes it has a group more than some
      grouping of the lines before it, or one whose open group is smaller than the batch. */
  lemma FlushCostsOthersToo(groups: seq<seq<Line>>, batch: nat, lines: seq<Line>, line: Line)
    returns (shorter: seq<seq<Line>>)
    requires Grouping(groups, lines + [line])
    requires 0 < batch <= |lines|
    requires |Join(lines[|lines| - batch..] + [line])| > MAX_PAYLOAD
    ensures Grouping(shorter, lines) && shorter != []
    ensures groups != [] && |groups[|groups| - 1]| >= 1
    ensures |groups| == |shorter| + 1 || (|groups| == |shorter| && |shorter[|shorter| - 1]| < batch)
  {
    shorter := DropLastLine(groups, lines, line);
    var last := groups[|groups| - 1];
    assert last in groups && Sendable(last);
    LastGroupIsSuffix(groups, lines + [line]);
    if |last| > batch {
      TooLargeToSend(last, batch, lines, line);
    }
  }

  // ---------------------------------------------------------------- the packer

  ghost function JoinAll(groups: seq<seq<Line>>): (out: seq<Line>)
    ensures |out| == |groups|
  {
    if groups == [] then [] else JoinAll(groups[..|groups| - 1]) + [Join(groups[|groups| - 1])]
  }

  lemma JoinAllAppends(groups: seq<seq<Line>>, group: seq<Line>)
    ensures JoinAll(groups + [group]) == JoinAll(groups) + [Join(group)]
  {
    assert (groups + [group])[..|groups|] == groups;
  }

  /** Greedy's state after some of the lines: closed groups and an open batch ... */
  ghost predicate Laid(groups: seq<seq<Line>>, batch: seq<Line>, lines: seq<Line>) {
    && (forall g | g in groups :: Sendable(g))
    && Flatten(groups) + batch == lines
    && (batch == [] <==> lines == [])
    && (lines == [] ==> groups == [])
    && (batch != [] ==> Sendable(batch))
  }

  /** ... and the lead. */
  ghost predicate Packed(groups: seq<seq<Line>>, batch: seq<Line>, lines: seq<Line>) {
    Laid(groups, batch, lines) && Ahead(|groups|, |batch|, lines)
  }

  lemma NothingPacked()
    ensures Packed([], [], [])
  {
    assert forall groups: seq<seq<Line>> | groups != [] :: groups[|groups| - 1] in groups;
  }

  /** Appending the line to the open batch keeps greedy ahead. */
  lemma AppendPacks(groups: seq<seq<Line>>, batch: seq<Line>, lines: seq<Line>, line: Line)
    requires Packed(groups, batch, lines)
    requires batch == [] || |Join(batch + [line])| <= MAX_PAYLOAD
    ensures Packed(groups, batch + [line], lines + [line])
  {
    hide Join, Ahead;
    AppendLays(groups, batch, lines, line);
    AppendLeads(|groups|, |batch|, lines, line);
  }

  lemma AppendLays(groups: seq<seq<Line>>, batch: seq<Line>, lines: seq<Line>, line: Line)
    requires Laid(groups, batch, lines) && (batch == [] || |Join(batch + [line])| <= MAX_PAYLOAD)
    ensures Laid(groups, batch + [line], lines + [line]) && (lines == [] ==> groups == [] && batch == [])
  {
    hide Join;
    assert Flatten(groups) + (batch + [line]) == lines + [line];
  }

  lemma AppendLeads(out: nat, batch: nat, lines: seq<Line>, line: Line)
    requires Ahead(out, batch, lines) && (lines == [] ==> out == 0 && batch == 0)
    ensures Ahead(out, batch + 1, lines + [line])
  {
    hide Join, Grouping;
    forall other | Grouping(other, lines + [line]) && other != []
      ensures |other| >= out + 1 && (|other| == out + 1 ==> |other[|other| - 1]| >= batch + 1)
    {
      var shorter := DropLastLine(other, lines, line);
    }
  }

  lemma FlushLays(groups: seq<seq<Line>>, batch: seq<Line>, lines: seq<Line>, line: Line)
    requires Laid(groups, batch, lines) && batch != []
    ensures Laid(groups + [batch], [line], lines + [line])
    ensures |batch| <= |lines| && lines[|lines| - |batch|..] == batch
  {
    hide Join;
    assert (groups + [batch])[..|groups|] == groups;
    assert Flatten(groups + [batch]) == lines;
  }

  /** When the line does not fit the open datagram, starting a new one keeps greedy ahead. */
  lemma FlushLeads(out: nat, batch: nat, lines: seq<Line>, line: Line)
    requires Ahead(out, batch, lines) && 0 < batch <= |lines|
    requires |Join(lines[|lines| - batch..] + [line])| > MAX_PAYLOAD
    ensures Ahead(out + 1, 1, lines + [line])
  {
    hide Join, Grouping;
    forall other | Grouping(other, lines + [line]) && other != []
      ensures |other| >= out + 2 && (|other| == out + 2 ==> |other[|other| - 1]| >= 1)
    {
      var shorter := FlushCostsOthersToo(other, batch, lines, line);
    }
  }

  lemma FlushPacks(groups: seq<seq<Line>>, batch: seq<Line>, lines: seq<Line>, line: Line)
    requires Packed(groups, batch, lines)
    requires batch != [] && |Join(batch + [line])| > MAX_PAYLOAD
    ensures Packed(groups + [batch], [] + [line], lines + [line])
  {
    hide Join, Laid, Ahead;
    FlushLays(groups, batch, lines, line);
    FlushLeads(|groups|, |batch|, lines, line);
    assert [] + [line] == [line];
  }

  lemma PackedIsBest(groups: seq<seq<Line>>, batch: seq<Line>, lines: seq<Line>)
    requires Packed(groups, batch, lines)
    ensures var all := if batch == [] then groups else groups + [batch];
            Grouping(all, lines) && forall other | Grouping(other, lines) :: |all| <= |other|
  {
    assert (groups + [batch])[..|groups|] == groups;
    assert Flatten(groups + [batch]) == lines;
    assert forall other | Grouping(other, lines) && other == [] :: lines == [];
  }

  lemma JoinAppended(batch: seq<Line>, line: Line)
    ensures |Join(batch + [line])| == |Join(batch)| + |line| + if batch != [] then 1 else 0
    ensures Join([]) == []
  {
    assert (batch + [line])[..|batch|] == batch;
  }

  /** Every line goes out, in order, in as few datagrams as the budget allows: the datagrams are the
      joins of a valid grouping, and no valid grouping has fewer. */
  method StatsdDatagrams(lines: seq<Line>) returns (out: seq<Line>, ghost groups: seq<seq<Line>>)
    ensures Grouping(groups, lines) && out == JoinAll(groups)
    ensures forall other | Grouping(other, lines) :: |out| <= |other|
  {
    hide Join, Packed, Grouping;
    out, groups := [], [];
    JoinAppended([], []);
    var batch: seq<Line>, size := [], 0;
    ghost var done: seq<Line> := [];
    NothingPacked();
    for i := 0 to |lines|
      invariant out == JoinAll(groups)
      invariant size == |Join(batch)|
      invariant done == lines[..i] && Packed(groups, batch, done)
    {
      var blob := lines[i];
      var extra := |blob| + if batch != [] then 1 else 0;
      JoinAppended(batch, blob);
      if batch != [] && size + extra > MAX_PAYLOAD {
        FlushPacks(groups, batch, done, blob);
        JoinAllAppends(groups, batch);
        out := out + [Join(batch)];
        groups := groups + [batch];
        batch, size := [], 0;
        extra := |blob|;
        JoinAppended([], blob);
      } else {
        AppendPacks(groups, batch, done, blob);
      }
      batch := batch + [blob];
      size := size + extra;
      TakeOneMore(lines, i);
      done := done + [blob];
    }
    TakeAll(lines);
    PackedIsBest(groups, batch, done);
    if batch != [] {
      JoinAllAppends(groups, batch);
      out := out + [Join(batch)];
      groups := groups + [batch];
    }
  }

  /** The agent's reading of a run of datagrams: each split into lines, end to end. */
  ghost function ReadBack(out: seq<Line>): seq<Line> {
    if out == [] then [] else ReadBack(out[..|out| - 1]) + Split(out[|out| - 1])
  }

  /** The agent reads back exactly the lines, and every datagram is within the budget unless it is one
      oversized line. */
  lemma {:induction false} AgentReadsTheLines(groups: seq<seq<Line>>, lines: seq<Line>)
    requires Grouping(groups, lines) && forall line | line in lines :: NewlineFree(line)
    ensures ReadBack(JoinAll(groups)) == lines
    ensures forall datagram | datagram in JoinAll(groups) :: |datagram| <= MAX_PAYLOAD || datagram in lines
  {
    if groups != [] {
      var front, last := groups[..|groups| - 1], groups[|groups| - 1];
      assert last in groups && Sendable(last);
      assert lines == Flatten(front) + last;
      AgentReadsTheLines(front, Flatten(front));
      SplitInvertsJoin(last);
    }
  }
}
