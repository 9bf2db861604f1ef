/**
 The mDNS prober's codec: names with compression pointers (sections 3.1 and 4.1.4 of RFC 1035) and the
 SRV and A records of a reply. A name's text is its ASCII bytes.
 */
module DnsName {
  import opened ByteStrings

  type Label = seq<Byte>

  const DOT: Byte := 46
  const MAX_DEPTH := 16

  function Join(parts: seq<Label>): seq<Byte> {
    if parts == [] then []
    else if |parts| == 1 then parts[0]
    else Join(parts[..|parts| - 1]) + [DOT] + parts[|parts| - 1]
  }

  // ---------------------------------------------------------------- writing a name

  /** `name.split(".")`. */
  function SplitDots(name: seq<Byte>): (parts: seq<Label>)
    ensures |parts| > 0
  {
    if name == [] then [[]]
    else
      var rest := SplitDots(name[1..]);
      if name[0] == DOT then [[]] + rest else [[name[0]] + rest[0]] + rest[1..]
  }

  function NonEmpty(parts: seq<Label>): seq<Label> {
    if parts == [] then []
    else NonEmpty(parts[..|parts| - 1]) + if parts[|parts| - 1] != [] then [parts[|parts| - 1]] else []
  }

  /** Some labels in place, each behind its length. */
  function Wire(labels: seq<Label>): seq<Byte>
    requires AllFit(labels)
  {
    if labels == [] then [] else Wire(labels[..|labels| - 1]) + [|labels[|labels| - 1]|] + labels[|labels| - 1]
  }

  predicate AllFit(labels: seq<Label>) {
    forall i | 0 <= i < |labels| :: |labels[i]| <= 255
  }

  /** The encoding of a name, or None where `bytes([len(label)])` raises. */
  function Encoded(name: seq<Byte>): Option<seq<Byte>> {
    var labels := NonEmpty(SplitDots(name));
    if AllFit(labels) then Some(Wire(labels) + [0]) else None
  }

  method EncodeName(name: seq<Byte>) returns (out: Option<seq<Byte>>)
    ensures out == Encoded(name)
  {
    hide Wire, NonEmpty, SplitDots;
    var parts := SplitDots(name);
    var bytes: seq<Byte> := [];
    ghost var done: seq<Label> := [];
    NothingYet(parts);
    for i := 0 to |parts|
      invariant done == NonEmpty(parts[..i]) && AllFit(done) && bytes == Wire(done)
    {
      NonEmptyStep(parts, i);
      if parts[i] != [] {
        if |parts[i]| > 255 {
          NonEmptyGrows(parts, i + 1);
          assert NonEmpty(parts)[|done|] == parts[i];
          return None;
        }
        WireAppend(done, parts[i]);
        bytes := bytes + ([|parts[i]|] + parts[i]);
        done := done + [parts[i]];
      }
    }
    assert parts[..|parts|] == parts;
    return Some(bytes + [0]);
  }

  lemma NothingYet(parts: seq<Label>)
    ensures NonEmpty(parts[..0]) == [] && Wire([]) == []
  {
  }

  lemma NonEmptyStep(parts: seq<Label>, i: nat)
    requires i < |parts|
    ensures NonEmpty(parts[..i + 1]) == NonEmpty(parts[..i]) + if parts[i] != [] then [parts[i]] else []
  {
    assert parts[..i + 1][..i] == parts[..i];
  }

  lemma {:induction false} NonEmptyGrows(parts: seq<Label>, i: nat)
    requires i <= |parts|
    ensures NonEmpty(parts[..i]) <= NonEmpty(parts)
    decreases |parts| - i
  {
    if i == |parts| {
      assert parts[..i] == parts;
    } else {
      assert parts[..i + 1][..i] == parts[..i];
      NonEmptyGrows(parts, i + 1);
    }
  }

  // ---------------------------------------------------------------- reading a name

  /** A name and the offset after its in-place part, or struct.error on half a pointer. */
  datatype Read = Read(name: seq<Byte>, off: nat) | StructError

  function Clip(buf: seq<Byte>, lo: nat, hi: nat): seq<Byte> {
    if lo >= |buf| || hi <= lo then [] else buf[lo..if hi <= |buf| then hi else |buf|]
  }

  function PointerAt(buf: seq<Byte>, off: nat): nat
    requires off + 2 <= |buf|
  {
    var high: int, low: int := buf[off], buf[off + 1];
    (high * 256 + low) % 0x4000
  }

  function ReadFrom(buf: seq<Byte>, off: nat, depth: nat, parts: seq<Label>): Read
    decreases if depth <= MAX_DEPTH then MAX_DEPTH + 1 - depth else 0, if off <= |buf| then |buf| - off else 0
  {
    if off >= |buf| || depth > MAX_DEPTH then Read(Join(parts), off)
    else
      var ln := buf[off];
      if ln == 0 then Read(Join(parts), off + 1)
      else if ln >= 0xC0 then
        if off + 2 > |buf| then StructError
        else
          (match ReadFrom(buf, PointerAt(buf, off), depth + 1, [])
           case StructError => StructError
           case Read(tail, _) => Read(Join(parts + [tail]), off + 2))
      else ReadFrom(buf, off + 1 + ln, depth, parts + [Clip(buf, off + 1, off + 1 + ln)])
  }

  lemma ReadUnfolds(buf: seq<Byte>, off: nat, depth: nat, parts: seq<Label>)
    ensures off >= |buf| || depth > MAX_DEPTH ==> ReadFrom(buf, off, depth, parts) == Read(Join(parts), off)
    ensures off < |buf| && depth <= MAX_DEPTH ==>
      && (buf[off] == 0 ==> ReadFrom(buf, off, depth, parts) == Read(Join(parts), off + 1))
      && (0 < buf[off] < 0xC0 ==>
            ReadFrom(buf, off, depth, parts) == ReadFrom(buf, off + 1 + buf[off], depth, parts + [Clip(buf, off + 1, off + 1 + buf[off])]))
      && (buf[off] >= 0xC0 && off + 2 > |buf| ==> ReadFrom(buf, off, depth, parts) == StructError)
      && (buf[off] >= 0xC0 && off + 2 <= |buf| ==>
            var tail := ReadFrom(buf, PointerAt(buf, off), depth + 1, []);
            ReadFrom(buf, off, depth, parts) == if tail.StructError? then StructError else Read(Join(parts + [tail.name]), off + 2))
  {
  }

  /** Terminates on every buffer, pointer loops included: a label moves on, a pointer goes one deeper. */
  method ReadName(buf: seq<Byte>, start: nat, depth: nat) returns (r: Read)
    ensures r == ReadFrom(buf, start, depth, [])
    decreases if depth <= MAX_DEPTH then MAX_DEPTH + 1 - depth else 0
  {
    hide ReadFrom, Join, Clip, PointerAt;
    var parts: seq<Label>, off := [], start;
    while true
      invariant ReadFrom(buf, off, depth, parts) == ReadFrom(buf, start, depth, [])
      decreases if off <= |buf| then |buf| - off else 0
    {
      ReadUnfolds(buf, off, depth, parts);
      if off >= |buf| || depth > MAX_DEPTH {
        return Read(Join(parts), off);
      }
      var ln := buf[off];
      if ln == 0 {
        return Read(Join(parts), off + 1);
      }
      if ln >= 0xC0 {
        if off + 2 > |buf| {
          return StructError;
        }
        var tail := ReadName(buf, PointerAt(buf, off), depth + 1);
        if tail.StructError? {
          return StructError;
        }
        parts := parts + [tail.name];
        return Read(Join(parts), off + 2);
      }
      parts := parts + [Clip(buf, off + 1, off + 1 + ln)];
      off := off + 1 + ln;
    }
  }

  // ---------------------------------------------------------------- how a name is stored

  /** A stretch of labels at one offset; a name is one stretch, or several chained by pointers. */
  datatype Segment = Segment(at: nat, labels: seq<Label>)

  /** A label the reader takes for a label: its length byte is neither zero nor a pointer's. */
  predicate Plain(l: Label) {
    1 <= |l| <= 191
  }

  predicate AllPlain(labels: seq<Label>) {
    forall i | 0 <= i < |labels| :: Plain(labels[i])
  }

  predicate Lies(buf: seq<Byte>, at: nat, bytes: seq<Byte>) {
    at + |bytes| <= |buf| && buf[at..at + |bytes|] == bytes
  }

  function Pointer(to: nat): seq<Byte>
    requires to < 0x4000
  {
    [0xC0 + to / 256, to % 256]
  }

  /** The bytes of a name spread over some segments: each in place, ended by a zero or a pointer on. */
  predicate Stored(buf: seq<Byte>, segs: seq<Segment>) {
    && segs != [] && AllPlain(segs[0].labels)
    && (if |segs| == 1 then Lies(buf, segs[0].at, Wire(segs[0].labels) + [0])
        else
          && segs[1].at < 0x4000
          && Lies(buf, segs[0].at, Wire(segs[0].labels) + Pointer(segs[1].at))
          && Stored(buf, segs[1..]))
  }

  function AllLabels(segs: seq<Segment>): seq<Label> {
    if segs == [] then [] else segs[0].labels + AllLabels(segs[1..])
  }

  /** Every pointer leads to a suffix that is not empty. */
  predicate SuffixesNonEmpty(segs: seq<Segment>) {
    |segs| <= 1 || segs[|segs| - 1].labels != []
  }

  /** The offset just past the in-place part. */
  function InPlaceEnd(segs: seq<Segment>): nat
    requires segs != [] && AllPlain(segs[0].labels)
  {
    segs[0].at + |Wire(segs[0].labels)| + if |segs| == 1 then 1 else 2
  }

  // ---------------------------------------------------------------- lemmas

  lemma WireAppend(labels: seq<Label>, l: Label)
    requires AllFit(labels) && |l| <= 255
    ensures AllFit(labels + [l]) && Wire(labels + [l]) == Wire(labels) + ([|l|] + l)
  {
    assert (labels + [l])[..|labels|] == labels;
  }

  lemma WireOne(l: Label)
    requires |l| <= 255
    ensures Wire([]) == [] && Wire([l]) == [|l|] + l
  {
    NothingYet([]);
    hide Wire;
    WireAppend([], l);
    assert [] + [l] == [l];
  }

  lemma {:induction false} WireFromTheFront(labels: seq<Label>)
    requires AllFit(labels) && labels != []
    ensures Wire(labels) == [|labels[0]|] + labels[0] + Wire(labels[1..])
  {
    hide Wire;
    var front, last := labels[..|labels| - 1], labels[|labels| - 1];
    assert labels == front + [last];
    if front == [] {
      assert labels == [last] && labels[1..] == [];
      WireOne(last);
    } else {
      WireFromTheFront(front);
      WireAppend(front, last);
      WireAppend(front[1..], last);
      assert labels[1..] == front[1..] + [last];
      Reassociate([|labels[0]|] + labels[0], Wire(front[1..]), [|last|] + last);
    }
  }

  lemma LiesSplit(buf: seq<Byte>, at: nat, a: seq<Byte>, b: seq<Byte>)
    requires Lies(buf, at, a + b)
    ensures Lies(buf, at, a) && Lies(buf, at + |a|, b)
  {
    assert buf[at..at + |a|] == (a + b)[..|a|] == a;
    assert buf[at + |a|..at + |a| + |b|] == (a + b)[|a|..] == b;
  }

  lemma LabelLies(buf: seq<Byte>, at: nat, l: Label)
    requires Plain(l) && Lies(buf, at, [|l|] + l)
    ensures at < |buf| && buf[at] == |l| && Clip(buf, at + 1, at + 1 + |l|) == l
  {
    LiesSplit(buf, at, [|l|], l);
    assert buf[at] == buf[at..at + 1][0] == |l|;
  }

  lemma StepLabel(buf: seq<Byte>, at: nat, depth: nat, parts: seq<Label>, l: Label)
    requires depth <= MAX_DEPTH && Plain(l) && Lies(buf, at, [|l|] + l)
    ensures ReadFrom(buf, at, depth, parts) == ReadFrom(buf, at + 1 + |l|, depth, parts + [l])
  {
    hide ReadFrom, Clip, Lies;
    LabelLies(buf, at, l);
    ReadUnfolds(buf, at, depth, parts);
  }

  lemma StepZero(buf: seq<Byte>, at: nat, depth: nat, parts: seq<Label>)
    requires depth <= MAX_DEPTH && Lies(buf, at, [0])
    ensures ReadFrom(buf, at, depth, parts) == Read(Join(parts), at + 1)
  {
    hide ReadFrom, Join;
    assert buf[at] == buf[at..at + 1][0] == 0;
    ReadUnfolds(buf, at, depth, parts);
  }

  lemma StepPointer(buf: seq<Byte>, at: nat, depth: nat, parts: seq<Label>, to: nat)
    requires depth <= MAX_DEPTH && to < 0x4000 && Lies(buf, at, Pointer(to))
    requires ReadFrom(buf, to, depth + 1, []).Read?
    ensures ReadFrom(buf, at, depth, parts) == Read(Join(parts + [ReadFrom(buf, to, depth + 1, []).name]), at + 2)
  {
    hide ReadFrom, Join;
    PointerRoundTrip(buf, at, to);
    ReadUnfolds(buf, at, depth, parts);
  }

  /** Reading over some labels in place. */
  lemma {:induction false} ReadOverLabels(buf: seq<Byte>, at: nat, depth: nat, parts: seq<Label>, labels: seq<Label>)
    requires AllPlain(labels) && depth <= MAX_DEPTH && Lies(buf, at, Wire(labels))
    ensures ReadFrom(buf, at, depth, parts) == ReadFrom(buf, at + |Wire(labels)|, depth, parts + labels)
    decreases |labels|
  {
    hide ReadFrom;
    if labels == [] {
      assert parts + labels == parts;
    } else {
      var first, rest := labels[0], labels[1..];
      WireFromTheFront(labels);
      assert Plain(first);
      LiesSplit(buf, at, [|first|] + first, Wire(rest));
      StepLabel(buf, at, depth, parts, first);
      ReadOverLabels(buf, at + 1 + |first|, depth, parts + [first], rest);
      assert parts + [first] + rest == parts + labels;
    }
  }

  lemma {:induction false} JoinNested(parts: seq<Label>, rest: seq<Label>)
    requires rest != []
    ensures Join(parts + [Join(rest)]) == Join(parts + rest)
  {
    hide Join;
    var front, last := rest[..|rest| - 1], rest[|rest| - 1];
    assert rest == front + [last];
    JoinLast(front, last);
    if front == [] {
      assert rest == [last];
    } else {
      JoinNested(parts, front);
      JoinLast(parts, Join(rest));
      JoinLast(parts, Join(front));
      JoinLast(parts + front, last);
      assert parts + rest == parts + front + [last];
      JoinRegroup(Join(parts), Join(front), last);
    }
  }

  lemma JoinRegroup(a: seq<Byte>, b: seq<Byte>, c: seq<Byte>)
    ensures a + [DOT] + (b + [DOT] + c) == a + [DOT] + b + [DOT] + c
  {
  }

  lemma JoinLast(parts: seq<Label>, l: Label)
    ensures Join(parts + [l]) == if parts == [] then l else Join(parts) + [DOT] + l
  {
    assert (parts + [l])[..|parts|] == parts;
  }

  lemma PointerRoundTrip(buf: seq<Byte>, at: nat, to: nat)
    requires to < 0x4000 && Lies(buf, at, Pointer(to))
    ensures buf[at] >= 0xC0 && PointerAt(buf, at) == to
  {
    assert buf[at] == buf[at..at + 2][0] && buf[at + 1] == buf[at..at + 2][1];
    assert (0xC0 + to / 256) * 256 + to % 256 == 3 * 0x4000 + to;
  }

  lemma LastSegmentCounts(segs: seq<Segment>)
    requires |segs| > 1 && SuffixesNonEmpty(segs)
    ensures SuffixesNonEmpty(segs[1..]) && AllLabels(segs[1..]) != []
    decreases |segs|
  {
    if |segs| > 2 {
      LastSegmentCounts(segs[1..]);
    }
  }

  /** A COMPRESSED NAME IS READ WHOLE: spread over at most 16 pointers, each to a non-empty suffix, it
      comes back as its full dotted name with the offset just past its in-place part. */
  lemma {:induction false} StoredNameIsRead(buf: seq<Byte>, segs: seq<Segment>, depth: nat)
    requires Stored(buf, segs) && SuffixesNonEmpty(segs)
    requires depth + |segs| - 1 <= MAX_DEPTH
    ensures ReadFrom(buf, segs[0].at, depth, []) == Read(Join(AllLabels(segs)), InPlaceEnd(segs))
    decreases |segs|
  {
    hide ReadFrom, Join, Wire;
    var labels, end := segs[0].labels, segs[0].at + |Wire(segs[0].labels)|;
    assert [] + labels == labels;
    if |segs| == 1 {
      LiesSplit(buf, segs[0].at, Wire(labels), [0]);
      ReadOverLabels(buf, segs[0].at, depth, [], labels);
      StepZero(buf, end, depth, labels);
      assert labels + AllLabels(segs[1..]) == labels;
    } else {
      LiesSplit(buf, segs[0].at, Wire(labels), Pointer(segs[1].at));
      ReadOverLabels(buf, segs[0].at, depth, [], labels);
      LastSegmentCounts(segs);
      StoredNameIsRead(buf, segs[1..], depth + 1);
      StepPointer(buf, end, depth, labels, segs[1].at);
      JoinNested(labels, AllLabels(segs[1..]));
    }
  }

  lemma {:induction false} JoinGrows(parts: seq<Label>)
    ensures parts != [] && (forall i | 0 <= i < |parts| :: |parts[i]| >= 1) ==> |Join(parts)| >= 1
  {
  }

  lemma {:induction false} AllLabelsArePlain(buf: seq<Byte>, segs: seq<Segment>)
    requires Stored(buf, segs)
    ensures AllPlain(AllLabels(segs))
    decreases |segs|
  {
    if |segs| > 1 {
      AllLabelsArePlain(buf, segs[1..]);
    }
  }

  lemma ShorterTailShorterName(labels: seq<Label>, part: Label, rest: seq<Label>)
    requires rest != [] && |part| < |Join(rest)|
    ensures |Join(labels + [part])| < |Join(labels + rest)|
  {
    hide Join;
    JoinNested(labels, rest);
    JoinLast(labels, Join(rest));
    JoinLast(labels, part);
  }

  lemma StoredOverPointer(buf: seq<Byte>, segs: seq<Segment>)
    requires Stored(buf, segs) && |segs| > 1
    ensures AllPlain(segs[0].labels) && Lies(buf, segs[0].at, Wire(segs[0].labels))
    ensures segs[1].at < 0x4000 && Lies(buf, segs[0].at + |Wire(segs[0].labels)|, Pointer(segs[1].at)) && Stored(buf, segs[1..])
  {
    hide Wire;
    LiesSplit(buf, segs[0].at, Wire(segs[0].labels), Pointer(segs[1].at));
  }

  lemma NotCutBelow(buf: seq<Byte>, segs: seq<Segment>)
    requires Stored(buf, segs) && AllLabels(segs) != []
    ensures |Join(AllLabels(segs))| >= 1
  {
    hide Join, Stored, AllLabels;
    AllLabelsArePlain(buf, segs);
    JoinGrows(AllLabels(segs));
  }

  lemma TooDeepReadsNothing(buf: seq<Byte>, segs: seq<Segment>, depth: nat)
    requires Stored(buf, segs) && AllLabels(segs) != [] && depth == MAX_DEPTH + 1
    ensures ReadFrom(buf, segs[0].at, depth, []).Read?
    ensures |ReadFrom(buf, segs[0].at, depth, []).name| < |Join(AllLabels(segs))|
  {
    hide ReadFrom, AllLabels;
    NotCutBelow(buf, segs);
    ReadUnfolds(buf, segs[0].at, depth, []);
    assert Join([]) == [];
  }

  /** A name cut short behind a pointer is cut short before it. */
  lemma CutBehindPointer(buf: seq<Byte>, segs: seq<Segment>, depth: nat)
    requires Stored(buf, segs) && |segs| > 1 && AllLabels(segs[1..]) != [] && depth <= MAX_DEPTH
    requires ReadFrom(buf, segs[1].at, depth + 1, []).Read?
    requires |ReadFrom(buf, segs[1].at, depth + 1, []).name| < |Join(AllLabels(segs[1..]))|
    ensures ReadFrom(buf, segs[0].at, depth, []).Read?
    ensures |ReadFrom(buf, segs[0].at, depth, []).name| < |Join(AllLabels(segs))|
  {
    hide ReadFrom, Wire, Stored, Join;
    StoredOverPointer(buf, segs);
    var labels, end := segs[0].labels, segs[0].at + |Wire(segs[0].labels)|;
    ReadOverLabels(buf, segs[0].at, depth, [], labels);
    assert [] + labels == labels;
    StepPointer(buf, end, depth, labels, segs[1].at);
    ShorterTailShorterName(labels, ReadFrom(buf, segs[1].at, depth + 1, []).name, AllLabels(segs[1..]));
  }

  /** Past the depth limit part of the name is missing. */
  lemma {:induction false} DeepNameIsCut(buf: seq<Byte>, segs: seq<Segment>, depth: nat)
    requires Stored(buf, segs) && SuffixesNonEmpty(segs) && AllLabels(segs) != []
    requires depth <= MAX_DEPTH + 1 && depth + |segs| - 1 > MAX_DEPTH
    ensures ReadFrom(buf, segs[0].at, depth, []).Read?
    ensures |ReadFrom(buf, segs[0].at, depth, []).name| < |Join(AllLabels(segs))|
    decreases |segs|
  {
    hide ReadFrom, Stored, SuffixesNonEmpty, Join;
    if depth > MAX_DEPTH {
      TooDeepReadsNothing(buf, segs, depth);
    } else {
      StoredOverPointer(buf, segs);
      LastSegmentCounts(segs);
      DeepNameIsCut(buf, segs[1..], depth + 1);
      CutBehindPointer(buf, segs, depth);
    }
  }

  /** ... AND SIXTEEN IS THE EXACT BOUND: a stored name that is not the root is read whole if and only if
      it takes at most 16 pointers. */
  lemma ReadWholeExactly(buf: seq<Byte>, segs: seq<Segment>)
    requires Stored(buf, segs) && SuffixesNonEmpty(segs) && AllLabels(segs) != []
    ensures ReadFrom(buf, segs[0].at, 0, []) == Read(Join(AllLabels(segs)), InPlaceEnd(segs)) <==> |segs| - 1 <= 16
  {
    hide ReadFrom, Join;
    if |segs| <= MAX_DEPTH + 1 {
      StoredNameIsRead(buf, segs, 0);
    } else {
      DeepNameIsCut(buf, segs, 0);
    }
  }

  // ---------------------------------------------------------------- round trip

  lemma {:induction false} NonEmptyAreNonEmpty(parts: seq<Label>)
    ensures forall i | 0 <= i < |NonEmpty(parts)| :: NonEmpty(parts)[i] != []
  {
    if parts != [] {
      NonEmptyAreNonEmpty(parts[..|parts| - 1]);
    }
  }

  /** The first label too long to be read as one. */
  lemma {:induction false} FirstLongLabel(labels: seq<Label>) returns (k: nat)
    requires AllFit(labels) && !AllPlain(labels) && forall i | 0 <= i < |labels| :: labels[i] != []
    ensures k < |labels| && |labels[k]| >= 192 && AllPlain(labels[..k])
  {
    k := 0;
    while Plain(labels[k])
      invariant k < |labels| && AllPlain(labels[..k])
      decreases |labels| - k
    {
      k := k + 1;
    }
  }

  lemma WireSplitStep(a: seq<Label>, front: seq<Label>, last: Label)
    requires AllFit(a) && AllFit(front) && AllFit(a + front) && |last| <= 255 && Wire(a + front) == Wire(a) + Wire(front)
    ensures AllFit(front + [last]) && AllFit(a + (front + [last]))
    ensures Wire(a + (front + [last])) == Wire(a) + Wire(front + [last])
  {
    hide Wire;
    WireAppend(a + front, last);
    WireAppend(front, last);
    Reassociate(Wire(a), Wire(front), [|last|] + last);
    assert a + (front + [last]) == a + front + [last];
  }

  lemma {:induction false} WireSplit(a: seq<Label>, b: seq<Label>)
    requires AllFit(a) && AllFit(b)
    ensures AllFit(a + b) && Wire(a + b) == Wire(a) + Wire(b)
  {
    FitFacts(a, b);
    hide Wire, AllFit;
    if b != [] {
      var front, last := b[..|b| - 1], b[|b| - 1];
      WireSplit(a, front);
      WireSplitStep(a, front, last);
      assert b == front + [last];
    }
  }

  lemma FitFacts(a: seq<Label>, b: seq<Label>)
    requires AllFit(a) && AllFit(b)
    ensures AllFit(a + b)
    ensures b != [] ==> AllFit(b[..|b| - 1]) && |b[|b| - 1]| <= 255
    ensures b == [] ==> Wire(a + b) == Wire(a) + Wire(b)
  {
    assert b == [] ==> a + b == a && Wire(b) == [];
  }

  /** A long label's length byte reads as a pointer, so the reader stops two bytes on, well short of the
      end of the name, or fails. */
  lemma LongLabelStopsShort(buf: seq<Byte>, at: nat, labels: seq<Label>)
    requires AllFit(labels) && !AllPlain(labels) && forall i | 0 <= i < |labels| :: labels[i] != []
    requires Lies(buf, at, Wire(labels) + [0])
    ensures var r := ReadFrom(buf, at, 0, []); r.StructError? || r.off < at + |Wire(labels)| + 1
  {
    hide ReadFrom, Wire;
    var k := FirstLongLabel(labels);
    var head, tail := labels[..k], labels[k..];
    assert labels == head + tail;
    WireSplit(head, tail);
    WireFromTheFront(tail);
    LiesSplit(buf, at, Wire(labels), [0]);
    LiesSplit(buf, at, Wire(head), Wire(tail));
    ReadOverLabels(buf, at, 0, [], head);
    assert [] + head == head;
    var o := at + |Wire(head)|;
    assert Wire(tail)[0] == |labels[k]|;
    assert buf[o] == buf[o..o + |Wire(tail)|][0] == Wire(tail)[0];
    ReadUnfolds(buf, o, 0, head);
  }

  /** READING INVERTS WRITING, exactly: wherever an encoded name lies, it is read back as its non-empty
      labels joined by dots, with the offset just past it, if and only if no label is longer than 191
      bytes. The writer lets a label be up to 255 bytes, and a length of 192 or more is a pointer to the
      reader. (RFC 1035 allows 63.) */
  lemma RoundTripExactly(name: seq<Byte>, before: seq<Byte>, after: seq<Byte>)
    requires Encoded(name).Some?
    ensures var labels, bytes := NonEmpty(SplitDots(name)), Encoded(name).value;
            ReadFrom(before + bytes + after, |before|, 0, []) == Read(Join(labels), |before| + |bytes|)
            <==> forall i | 0 <= i < |labels| :: |labels[i]| <= 191
  {
    hide ReadFrom, Wire, SplitDots, NonEmpty, Join;
    var labels, bytes := NonEmpty(SplitDots(name)), Encoded(name).value;
    var buf := before + bytes + after;
    NonEmptyAreNonEmpty(SplitDots(name));
    assert Lies(buf, |before|, bytes);
    if AllPlain(labels) {
      var segs := [Segment(|before|, labels)];
      StoredNameIsRead(buf, segs, 0);
      assert segs[1..] == [] && AllLabels(segs) == labels + AllLabels([]) == labels;
    } else {
      LongLabelStopsShort(buf, |before|, labels);
    }
  }

  // ---------------------------------------------------------------- records

  datatype Entry =
    | SrvEntry(name: seq<Byte>, target: seq<Byte>, port: nat)
    | AEntry(name: seq<Byte>, address: seq<Byte>)

  /** What the generator yielded, and whether it then raised. */
  datatype Yielded = Yielded(entries: seq<Entry>, raised: bool)

  const SRV := 33
  const A := 1

  function SkipQuestions(buf: seq<Byte>, off: nat, n: nat): Option<nat>
    decreases n
  {
    if n == 0 then Some(off)
    else
      match ReadFrom(buf, off, 0, [])
      case StructError => None
      case Read(_, end) => SkipQuestions(buf, end + 4, n - 1)
  }

  /** One record's contribution, with its type, its data's offset and length. */
  function EntryAt(buf: seq<Byte>, name: seq<Byte>, rtype: nat, rdlen: nat, off: nat): Yielded {
    if rtype == SRV && rdlen >= 6 then
      if off + 6 > |buf| then Yielded([], true)
      else
        match ReadFrom(buf, off + 6, 0, [])
        case StructError => Yielded([], true)
        case Read(target, _) => Yielded([SrvEntry(name, target, FromBigEndian(buf[off + 4..off + 6]))], false)
    else if rtype == A && rdlen == 4 then
      if off + 4 > |buf| then Yielded([], true) else Yielded([AEntry(name, buf[off..off + 4])], false)
    else Yielded([], false)
  }

  function RecordsFrom(buf: seq<Byte>, off: nat, n: nat): Yielded
    decreases n
  {
    if n == 0 then Yielded([], false)
    else
      match ReadFrom(buf, off, 0, [])
      case StructError => Yielded([], true)
      case Read(name, end) =>
        if end + 10 > |buf| then Yielded([], false)
        else
          var rtype, rdlen := FromBigEndian(buf[end..end + 2]), FromBigEndian(buf[end + 8..end + 10]);
          var here := EntryAt(buf, name, rtype, rdlen, end + 10);
          if here.raised then here
          else
            var rest := RecordsFrom(buf, end + 10 + rdlen, n - 1);
            Yielded(here.entries + rest.entries, rest.raised)
  }

  function AllRecords(buf: seq<Byte>): Yielded {
    if |buf| < 12 then Yielded([], false)
    else
      var qd, an := FromBigEndian(buf[4..6]), FromBigEndian(buf[6..8]);
      var ns, ar := FromBigEndian(buf[8..10]), FromBigEndian(buf[10..12]);
      match SkipQuestions(buf, 12, qd)
      case None => Yielded([], true)
      case Some(off) => RecordsFrom(buf, off, an + ns + ar)
  }

  lemma QuestionsUnfold(buf: seq<Byte>, off: nat, n: nat)
    ensures n == 0 ==> SkipQuestions(buf, off, n) == Some(off)
    ensures n > 0 ==>
      var name := ReadFrom(buf, off, 0, []);
      SkipQuestions(buf, off, n) == if name.StructError? then None else SkipQuestions(buf, name.off + 4, n - 1)
  {
  }

  lemma RecordsUnfold(buf: seq<Byte>, off: nat, n: nat)
    ensures n == 0 ==> RecordsFrom(buf, off, n) == Yielded([], false)
    ensures n > 0 ==>
      var name := ReadFrom(buf, off, 0, []);
      && (name.StructError? ==> RecordsFrom(buf, off, n) == Yielded([], true))
      && (name.Read? && name.off + 10 > |buf| ==> RecordsFrom(buf, off, n) == Yielded([], false))
      && (name.Read? && name.off + 10 <= |buf| ==>
            var rtype, rdlen := FromBigEndian(buf[name.off..name.off + 2]), FromBigEndian(buf[name.off + 8..name.off + 10]);
            var here := EntryAt(buf, name.name, rtype, rdlen, name.off + 10);
            var rest := RecordsFrom(buf, name.off + 10 + rdlen, n - 1);
            RecordsFrom(buf, off, n) == if here.raised then here else Yielded(here.entries + rest.entries, rest.raised))
  {
  }

  method Records(buf: seq<Byte>) returns (y: Yielded)
    ensures y == AllRecords(buf)
  {
    if |buf| < 12 {
      return Yielded([], false);
    }
    var qd, an := FromBigEndian(buf[4..6]), FromBigEndian(buf[6..8]);
    var ns, ar := FromBigEndian(buf[8..10]), FromBigEndian(buf[10..12]);
    hide ReadFrom, SkipQuestions, RecordsFrom, FromBigEndian;
    var off: nat := 12;
    for i := 0 to qd
      invariant SkipQuestions(buf, off, qd - i) == SkipQuestions(buf, 12, qd)
    {
      QuestionsUnfold(buf, off, qd - i);
      var r := ReadName(buf, off, 0);
      if r.StructError? {
        return Yielded([], true);
      }
      off := r.off + 4;
    }
    QuestionsUnfold(buf, off, 0);
    y := ReadRecords(buf, off, an + ns + ar);
  }

  /** What is yielded once `so` has been and the reading goes on. */
  ghost function Behind(so: seq<Entry>, rest: Yielded): Yielded {
    Yielded(so + rest.entries, rest.raised)
  }

  lemma BehindAgain(so: seq<Entry>, here: seq<Entry>, rest: Yielded)
    ensures Behind(so, Behind(here, rest)) == Behind(so + here, rest)
    ensures Behind(so, Yielded([], rest.raised)) == Yielded(so, rest.raised)
    ensures Behind(here, rest) == Yielded(here + rest.entries, rest.raised)
    ensures Behind([], rest) == rest
  {
  }

  method ReadRecords(buf: seq<Byte>, start: nat, n: nat) returns (y: Yielded)
    ensures y == RecordsFrom(buf, start, n)
  {
    hide ReadFrom, EntryAt, FromBigEndian, RecordsFrom, Behind;
    var off: nat := start;
    var entries: seq<Entry> := [];
    BehindAgain([], [], RecordsFrom(buf, start, n));
    for i := 0 to n
      invariant RecordsFrom(buf, start, n) == Behind(entries, RecordsFrom(buf, off, n - i))
    {
      RecordsUnfold(buf, off, n - i);
      BehindAgain(entries, [], RecordsFrom(buf, off, n - i));
      var r := ReadName(buf, off, 0);
      if r.StructError? {
        return Yielded(entries, true);
      }
      off := r.off;
      if off + 10 > |buf| {
        return Yielded(entries, false);
      }
      var rtype, rdlen := FromBigEndian(buf[off..off + 2]), FromBigEndian(buf[off + 8..off + 10]);
      off := off + 10;
      var here := ReadEntry(buf, r.name, rtype, rdlen, off);
      if here.raised {
        return Yielded(entries, true);
      }
      BehindAgain(entries, here.entries, RecordsFrom(buf, off + rdlen, n - i - 1));
      entries := entries + here.entries;
      off := off + rdlen;
    }
    RecordsUnfold(buf, off, 0);
    BehindAgain(entries, [], RecordsFrom(buf, off, 0));
    return Yielded(entries, false);
  }

  method ReadEntry(buf: seq<Byte>, name: seq<Byte>, rtype: nat, rdlen: nat, off: nat) returns (y: Yielded)
    ensures y == EntryAt(buf, name, rtype, rdlen, off)
    ensures y.raised ==> y.entries == []
  {
    if rtype == SRV && rdlen >= 6 {
      if off + 6 > |buf| {
        return Yielded([], true);
      }
      var port := FromBigEndian(buf[off + 4..off + 6]);
      var target := ReadName(buf, off + 6, 0);
      if target.StructError? {
        return Yielded([], true);
      }
      return Yielded([SrvEntry(name, target.name, port)], false);
    } else if rtype == A && rdlen == 4 {
      if off + 4 > |buf| {
        return Yielded([], true);
      }
      return Yielded([AEntry(name, buf[off..off + 4])], false);
    }
    return Yielded([], false);
  }

  // ---------------------------------------------------------------- well-formed messages

  datatype Data =
    | SrvData(priority: nat, weight: nat, port: nat, target: seq<Segment>)
    | AData(address: seq<Byte>)
    | OtherData(rtype: nat, bytes: seq<Byte>)

  datatype Resource = Resource(name: seq<Segment>, class_: nat, ttl: nat, data: Data)

  /** A name as RFC 1035 lets a message hold one, within the reader's depth. */
  predicate NameAt(buf: seq<Byte>, off: nat, name: seq<Segment>) {
    Stored(buf, name) && name[0].at == off && SuffixesNonEmpty(name) && |name| <= MAX_DEPTH + 1
  }

  function TypeOf(d: Data): nat {
    // the types RFC 2782 and RFC 1035 give them
    match d case SrvData(_, _, _, _) => 33 case AData(_) => 1 case OtherData(rtype, _) => rtype
  }

  function DataLength(d: Data): nat
    requires d.SrvData? ==> d.target != [] && AllPlain(d.target[0].labels)
  {
    match d
    case SrvData(_, _, _, target) => 6 + (InPlaceEnd(target) - target[0].at)
    case AData(address) => |address|
    case OtherData(_, bytes) => |bytes|
  }

  /** The record's data as it lies in the message. */
  predicate DataAt(buf: seq<Byte>, off: nat, d: Data) {
    match d
    case SrvData(priority, weight, port, target) =>
      && Fits(priority, 2) && Fits(weight, 2) && Fits(port, 2)
      && Lies(buf, off, BigEndian(priority, 2) + BigEndian(weight, 2) + BigEndian(port, 2))
      && NameAt(buf, off + 6, target)
    case AData(address) => |address| == 4 && Lies(buf, off, address)
    case OtherData(rtype, bytes) =>
      !(rtype == SRV && |bytes| >= 6) && !(rtype == A && |bytes| == 4) && Lies(buf, off, bytes)
  }

  predicate ResourceAt(buf: seq<Byte>, off: nat, r: Resource) {
    && NameAt(buf, off, r.name)
    && var end := InPlaceEnd(r.name);
    && DataAt(buf, end + 10, r.data)
    && Fits(TypeOf(r.data), 2) && Fits(r.class_, 2) && Fits(r.ttl, 4) && Fits(DataLength(r.data), 2)
    && Lies(buf, end, BigEndian(TypeOf(r.data), 2) + BigEndian(r.class_, 2) + BigEndian(r.ttl, 4) + BigEndian(DataLength(r.data), 2))
  }

  predicate ResourcesAt(buf: seq<Byte>, off: nat, rs: seq<Resource>)
    decreases |rs|
  {
    rs == [] ||
    (ResourceAt(buf, off, rs[0]) && ResourcesAt(buf, InPlaceEnd(rs[0].name) + 10 + DataLength(rs[0].data), rs[1..]))
  }

  predicate QuestionsAt(buf: seq<Byte>, off: nat, end: nat, qs: seq<seq<Segment>>)
    decreases |qs|
  {
    if qs == [] then off == end
    else NameAt(buf, off, qs[0]) && QuestionsAt(buf, InPlaceEnd(qs[0]) + 4, end, qs[1..])
  }

  function EntriesOf(rs: seq<Resource>): seq<Entry> {
    if rs == [] then []
    else
      var name := Join(AllLabels(rs[0].name));
      (match rs[0].data
       case SrvData(_, _, port, target) => [SrvEntry(name, Join(AllLabels(target)), port)]
       case AData(address) => [AEntry(name, address)]
       case OtherData(_, _) => [])
      + EntriesOf(rs[1..])
  }

  lemma {:induction false} QuestionsAreSkipped(buf: seq<Byte>, off: nat, end: nat, qs: seq<seq<Segment>>)
    requires QuestionsAt(buf, off, end, qs)
    ensures SkipQuestions(buf, off, |qs|) == Some(end)
    decreases |qs|
  {
    if qs != [] {
      StoredNameIsRead(buf, qs[0], 0);
      QuestionsAreSkipped(buf, InPlaceEnd(qs[0]) + 4, end, qs[1..]);
    }
  }

  lemma FixedPart(buf: seq<Byte>, at: nat, a: nat, b: nat, c: nat, d: nat)
    requires Fits(a, 2) && Fits(b, 2) && Fits(c, 4) && Fits(d, 2)
    requires Lies(buf, at, BigEndian(a, 2) + BigEndian(b, 2) + BigEndian(c, 4) + BigEndian(d, 2))
    ensures at + 10 <= |buf| && FromBigEndian(buf[at..at + 2]) == a && FromBigEndian(buf[at + 8..at + 10]) == d
  {
    hide BigEndian, FromBigEndian;
    BigEndianRoundTrip(a, 2);
    BigEndianRoundTrip(d, 2);
    LiesSplit(buf, at, BigEndian(a, 2) + BigEndian(b, 2) + BigEndian(c, 4), BigEndian(d, 2));
    LiesSplit(buf, at, BigEndian(a, 2) + BigEndian(b, 2), BigEndian(c, 4));
    LiesSplit(buf, at, BigEndian(a, 2), BigEndian(b, 2));
  }

  lemma SrvFixedPart(buf: seq<Byte>, at: nat, a: nat, b: nat, port: nat)
    requires Fits(a, 2) && Fits(b, 2) && Fits(port, 2)
    requires Lies(buf, at, BigEndian(a, 2) + BigEndian(b, 2) + BigEndian(port, 2))
    ensures at + 6 <= |buf| && FromBigEndian(buf[at + 4..at + 6]) == port
  {
    hide BigEndian, FromBigEndian;
    BigEndianRoundTrip(port, 2);
    LiesSplit(buf, at, BigEndian(a, 2) + BigEndian(b, 2), BigEndian(port, 2));
  }

  lemma ResourceIsRead(buf: seq<Byte>, off: nat, r: Resource)
    requires ResourceAt(buf, off, r)
    ensures ReadFrom(buf, off, 0, []) == Read(Join(AllLabels(r.name)), InPlaceEnd(r.name))
    ensures var end := InPlaceEnd(r.name);
            && end + 10 <= |buf|
            && FromBigEndian(buf[end..end + 2]) == TypeOf(r.data) && FromBigEndian(buf[end + 8..end + 10]) == DataLength(r.data)
            && EntryAt(buf, Join(AllLabels(r.name)), TypeOf(r.data), DataLength(r.data), end + 10) == Yielded(EntriesOf([r]), false)
  {
    hide ReadFrom, BigEndian, FromBigEndian, Join, AllLabels, Wire, EntryAt, EntriesOf;
    StoredNameIsRead(buf, r.name, 0);
    var end := InPlaceEnd(r.name);
    FixedPart(buf, end, TypeOf(r.data), r.class_, r.ttl, DataLength(r.data));
    DataIsRead(buf, end + 10, r);
  }

  lemma DataIsRead(buf: seq<Byte>, at: nat, r: Resource)
    requires DataAt(buf, at, r.data)
    ensures EntryAt(buf, Join(AllLabels(r.name)), TypeOf(r.data), DataLength(r.data), at) == Yielded(EntriesOf([r]), false)
  {
    hide ReadFrom, BigEndian, FromBigEndian, Join, AllLabels, Wire, Stored, SuffixesNonEmpty;
    assert EntriesOf([r][1..]) == [];
    match r.data
    case SrvData(priority, weight, port, target) =>
      SrvFixedPart(buf, at, priority, weight, port);
      StoredNameIsRead(buf, target, 0);
    case AData(address) =>
    case OtherData(_, _) =>
  }

  lemma {:induction false} ResourcesAreRead(buf: seq<Byte>, off: nat, rs: seq<Resource>)
    requires ResourcesAt(buf, off, rs)
    ensures RecordsFrom(buf, off, |rs|) == Yielded(EntriesOf(rs), false)
    decreases |rs|
  {
    hide ReadFrom, EntryAt, BigEndian, FromBigEndian, EntriesOf, Join, AllLabels, Wire;
    if rs == [] {
      NoEntries();
    } else {
      ResourceIsRead(buf, off, rs[0]);
      ResourcesAreRead(buf, InPlaceEnd(rs[0].name) + 10 + DataLength(rs[0].data), rs[1..]);
      FirstEntries(rs);
    }
  }

  lemma NoEntries()
    ensures EntriesOf([]) == []
  {
  }

  lemma FirstEntries(rs: seq<Resource>)
    requires rs != []
    ensures EntriesOf(rs) == EntriesOf([rs[0]]) + EntriesOf(rs[1..])
  {
    assert [rs[0]][1..] == [];
  }

  /** The header's four counts; the identifier and the flags before them are not looked at. */
  predicate HeaderAt(buf: seq<Byte>, qd: nat, an: nat, ns: nat, ar: nat) {
    && Fits(qd, 2) && Fits(an, 2) && Fits(ns, 2) && Fits(ar, 2)
    && Lies(buf, 4, BigEndian(qd, 2)) && Lies(buf, 6, BigEndian(an, 2))
    && Lies(buf, 8, BigEndian(ns, 2)) && Lies(buf, 10, BigEndian(ar, 2))
  }

  /** A WELL-FORMED MESSAGE YIELDS ITS RECORDS: exactly the SRV and A entries of its answer, authority and
      additional sections, in order, names and targets decompressed, nothing raised. */
  lemma MessageIsRead(buf: seq<Byte>, qs: seq<seq<Segment>>, an: nat, ns: nat, ar: nat, rs: seq<Resource>, off: nat)
    requires HeaderAt(buf, |qs|, an, ns, ar)
    requires |rs| == an + ns + ar
    requires QuestionsAt(buf, 12, off, qs) && ResourcesAt(buf, off, rs)
    ensures AllRecords(buf) == Yielded(EntriesOf(rs), false)
  {
    hide ReadFrom, BigEndian, FromBigEndian, RecordsFrom, EntriesOf, ResourcesAt, QuestionsAt, SkipQuestions;
    BigEndianRoundTrip(|qs|, 2);
    BigEndianRoundTrip(an, 2);
    BigEndianRoundTrip(ns, 2);
    BigEndianRoundTrip(ar, 2);
    QuestionsAreSkipped(buf, 12, off, qs);
    ResourcesAreRead(buf, off, rs);
  }

  // ---------------------------------------------------------------- when reading raises

  /** Reading a name from `off` comes to look at the byte at `at` for a length. */
  predicate Reaches(buf: seq<Byte>, off: nat, depth: nat, at: nat)
    decreases if depth <= MAX_DEPTH then MAX_DEPTH + 1 - depth else 0, if off <= |buf| then |buf| - off else 0
  {
    && off < |buf| && depth <= MAX_DEPTH
    && (|| off == at
        || (0 < buf[off] < 0xC0 && Reaches(buf, off + 1 + buf[off], depth, at))
        || (buf[off] >= 0xC0 && off + 2 <= |buf| && Reaches(buf, PointerAt(buf, off), depth + 1, at)))
  }

  /** Reading a name from `off` comes to half a pointer: the last byte, with a pointer's first bits. */
  predicate HalfPointer(buf: seq<Byte>, off: nat, depth: nat) {
    buf != [] && buf[|buf| - 1] >= 0xC0 && Reaches(buf, off, depth, |buf| - 1)
  }

  /** A name raises exactly when its reading comes to half a pointer. */
  lemma {:induction false} ReadRaisesExactly(buf: seq<Byte>, off: nat, depth: nat, parts: seq<Label>)
    ensures ReadFrom(buf, off, depth, parts).StructError? <==> HalfPointer(buf, off, depth)
    decreases if depth <= MAX_DEPTH then MAX_DEPTH + 1 - depth else 0, if off <= |buf| then |buf| - off else 0
  {
    hide ReadFrom, PointerAt, Join, Clip;
    ReadUnfolds(buf, off, depth, parts);
    if off < |buf| && depth <= MAX_DEPTH {
      if 0 < buf[off] < 0xC0 {
        ReadRaisesExactly(buf, off + 1 + buf[off], depth, parts + [Clip(buf, off + 1, off + 1 + buf[off])]);
      } else if buf[off] >= 0xC0 && off + 2 <= |buf| {
        ReadRaisesExactly(buf, PointerAt(buf, off), depth + 1, []);
      }
    }
  }

  /** So names can be read from anywhere in a buffer exactly when its last byte does not begin a pointer. */
  lemma ReadingIsSafeExactly(buf: seq<Byte>)
    ensures (forall off: nat :: ReadFrom(buf, off, 0, []).Read?) <==> buf == [] || buf[|buf| - 1] < 0xC0
  {
    hide ReadFrom;
    forall off: nat ensures ReadFrom(buf, off, 0, []).Read? <==> !HalfPointer(buf, off, 0) {
      ReadRaisesExactly(buf, off, 0, []);
    }
    if buf != [] && buf[|buf| - 1] >= 0xC0 {
      assert HalfPointer(buf, |buf| - 1, 0);
      assert !ReadFrom(buf, |buf| - 1, 0, []).Read?;
    }
  }

  /** SRV or A data that begins with its fixed part past the end of the buffer. */
  predicate DataPastEnd(buf: seq<Byte>, rtype: nat, rdlen: nat, off: nat) {
    || (rtype == SRV && rdlen >= 6 && off + 6 > |buf|)
    || (rtype == A && rdlen == 4 && off + 4 > |buf|)
  }

  lemma EntryRaisesExactly(buf: seq<Byte>, name: seq<Byte>, rtype: nat, rdlen: nat, off: nat)
    ensures EntryAt(buf, name, rtype, rdlen, off).raised <==>
      || DataPastEnd(buf, rtype, rdlen, off)
      || (rtype == SRV && rdlen >= 6 && HalfPointer(buf, off + 6, 0))
  {
    hide ReadFrom, FromBigEndian;
    ReadRaisesExactly(buf, off + 6, 0, []);
  }

  /** Where the k-th question after the one at `off` begins, if the generator gets there. */
  function QuestionAt(buf: seq<Byte>, off: nat, k: nat): Option<nat>
    decreases k
  {
    if k == 0 then Some(off)
    else
      var name := ReadFrom(buf, off, 0, []);
      if name.StructError? then None else QuestionAt(buf, name.off + 4, k - 1)
  }

  predicate QuestionFails(buf: seq<Byte>, off: nat, k: nat) {
    QuestionAt(buf, off, k).Some? && HalfPointer(buf, QuestionAt(buf, off, k).value, 0)
  }

  lemma {:induction false} QuestionsRaiseExactly(buf: seq<Byte>, off: nat, n: nat)
    ensures SkipQuestions(buf, off, n).None? <==> exists k: nat | k < n :: QuestionFails(buf, off, k)
    decreases n
  {
    hide ReadFrom, HalfPointer, SkipQuestions;
    QuestionsUnfold(buf, off, n);
    if n > 0 {
      ReadRaisesExactly(buf, off, 0, []);
      var name := ReadFrom(buf, off, 0, []);
      if name.StructError? {
        assert QuestionFails(buf, off, 0);
      } else {
        QuestionsRaiseExactly(buf, name.off + 4, n - 1);
        if SkipQuestions(buf, name.off + 4, n - 1).None? {
          var j: nat :| j < n - 1 && QuestionFails(buf, name.off + 4, j);
          assert QuestionFails(buf, off, j + 1);
        }
        if exists k: nat | k < n :: QuestionFails(buf, off, k) {
          var k: nat :| k < n && QuestionFails(buf, off, k);
          assert k > 0 && QuestionFails(buf, name.off + 4, k - 1);
        }
      }
    }
  }

  /** What follows a record's name, when its fixed part is all there: its type and its data's length. */
  function Fixed(buf: seq<Byte>, off: nat): (nat, nat)
    requires off + 10 <= |buf|
  {
    (FromBigEndian(buf[off..off + 2]), FromBigEndian(buf[off + 8..off + 10]))
  }

  /** Where the k-th record after the one at `off` begins, if the generator gets there. */
  function RecordAt(buf: seq<Byte>, off: nat, k: nat): Option<nat>
    decreases k
  {
    if k == 0 then Some(off)
    else
      var name := ReadFrom(buf, off, 0, []);
      if name.StructError? || name.off + 10 > |buf| || FixedFails(buf, name.off) then None
      else RecordAt(buf, name.off + 10 + Fixed(buf, name.off).1, k - 1)
  }

  /** SRV or A data past the end of the buffer, or an SRV target that comes to half a pointer. */
  predicate FixedFails(buf: seq<Byte>, off: nat)
    requires off + 10 <= |buf|
  {
    var (rtype, rdlen) := Fixed(buf, off);
    DataPastEnd(buf, rtype, rdlen, off + 10) || (rtype == SRV && rdlen >= 6 && HalfPointer(buf, off + 16, 0))
  }

  predicate RecordFails(buf: seq<Byte>, off: nat, k: nat) {
    RecordAt(buf, off, k).Some? && FailsAt(buf, RecordAt(buf, off, k).value)
  }

  predicate FailsAt(buf: seq<Byte>, off: nat) {
    || HalfPointer(buf, off, 0)
    || (var name := ReadFrom(buf, off, 0, []); name.Read? && name.off + 10 <= |buf| && FixedFails(buf, name.off))
  }

  lemma {:induction false} SectionRaisesExactly(buf: seq<Byte>, off: nat, n: nat)
    ensures RecordsFrom(buf, off, n).raised <==> exists k: nat | k < n :: RecordFails(buf, off, k)
    decreases n
  {
    hide ReadFrom, HalfPointer, RecordsFrom, EntryAt, DataPastEnd, FromBigEndian;
    RecordsUnfold(buf, off, n);
    if n > 0 {
      ReadRaisesExactly(buf, off, 0, []);
      var name := ReadFrom(buf, off, 0, []);
      if name.Read? && name.off + 10 <= |buf| {
        var (rtype, rdlen) := Fixed(buf, name.off);
        EntryRaisesExactly(buf, name.name, rtype, rdlen, name.off + 10);
        if FixedFails(buf, name.off) {
          assert RecordFails(buf, off, 0);
        } else {
          var next := name.off + 10 + rdlen;
          SectionRaisesExactly(buf, next, n - 1);
          if RecordsFrom(buf, next, n - 1).raised {
            var j: nat :| j < n - 1 && RecordFails(buf, next, j);
            assert RecordFails(buf, off, j + 1);
          }
          if exists k: nat | k < n :: RecordFails(buf, off, k) {
            var k: nat :| k < n && RecordFails(buf, off, k);
            assert k > 0 && RecordFails(buf, next, k - 1);
          }
        }
      } else if name.StructError? {
        assert RecordFails(buf, off, 0);
      } else {
        forall k: nat | k < n ensures !RecordFails(buf, off, k) {
        }
      }
    }
  }

  /** `records` RAISES EXACTLY when it comes to half a pointer in the name of a question or a record, or to a
      record whose SRV or A data lies past the end or whose SRV target is half a pointer. */
  lemma RecordsRaiseExactly(buf: seq<Byte>)
    ensures AllRecords(buf).raised <==>
      && |buf| >= 12
      && var qd := FromBigEndian(buf[4..6]);
      var rest := FromBigEndian(buf[6..8]) + FromBigEndian(buf[8..10]) + FromBigEndian(buf[10..12]);
      || (exists k: nat | k < qd :: QuestionFails(buf, 12, k))
      || (SkipQuestions(buf, 12, qd).Some? && exists k: nat | k < rest :: RecordFails(buf, SkipQuestions(buf, 12, qd).value, k))
  {
    hide SkipQuestions, RecordsFrom, FromBigEndian, QuestionFails, RecordFails;
    if |buf| >= 12 {
      var qd := FromBigEndian(buf[4..6]);
      var rest := FromBigEndian(buf[6..8]) + FromBigEndian(buf[8..10]) + FromBigEndian(buf[10..12]);
      QuestionsRaiseExactly(buf, 12, qd);
      if SkipQuestions(buf, 12, qd).Some? {
        SectionRaisesExactly(buf, SkipQuestions(buf, 12, qd).value, rest);
      }
    }
  }

  /** A question whose name is half a pointer. */
  lemma HalfPointerQuestion(buf: seq<Byte>)
    requires |buf| == 13 && buf[12] >= 0xC0
    requires forall k | 4 <= k < 12 :: buf[k] == if k == 5 then 1 else 0
    ensures AllRecords(buf) == Yielded([], true)
  {
    hide ReadFrom, SkipQuestions, RecordsFrom, FromBigEndian;
    HeaderOfOne(buf, 4);
    ReadUnfolds(buf, 12, 0, []);
    QuestionsUnfold(buf, 12, 1);
  }

  /** So do twenty-three: a record at the root, of type A, that claims four bytes and has none. */
  lemma DataPastEndEscapes(buf: seq<Byte>)
    requires |buf| == 23 && buf[12] == 0
    requires forall k | 4 <= k < 12 :: buf[k] == if k == 7 then 1 else 0
    requires buf[13] == 0 && buf[14] == A && buf[21] == 0 && buf[22] == 4
    ensures AllRecords(buf) == Yielded([], true)
  {
    hide ReadFrom, SkipQuestions, RecordsFrom, FromBigEndian;
    HeaderOfOne(buf, 6);
    SmallFields(buf[13..15]);
    SmallFields(buf[21..23]);
    ReadUnfolds(buf, 12, 0, []);
    QuestionsUnfold(buf, 12, 0);
    RecordsUnfold(buf, 12, 1);
    assert EntryAt(buf, Join([]), A, 4, 23).raised && EntryAt(buf, Join([]), A, 4, 23).entries == [];
  }

  /** Thirteen bytes raise: one question, and half a pointer for its name. */
  lemma HalfPointerEscapes()
    ensures AllRecords([0, 0, 0, 0, 0, 1, 0, 0, 0, 0, 0, 0, 0xC0]) == Yielded([], true)
  {
    hide AllRecords;
    HalfPointerQuestion([0, 0, 0, 0, 0, 1, 0, 0, 0, 0, 0, 0, 0xC0]);
  }

  lemma SmallFields(two: seq<Byte>)
    requires |two| == 2 && two[0] == 0
    ensures FromBigEndian(two) == two[1]
  {
    assert two[..1][..0] == [] && FromBigEndian(two[..1]) == 0;
  }

  lemma HeaderOfOne(buf: seq<Byte>, at: nat)
    requires |buf| >= 12 && at in {4, 6, 8, 10}
    requires forall k | 4 <= k < 12 :: buf[k] == if k == at + 1 then 1 else 0
    ensures FromBigEndian(buf[4..6]) == if at == 4 then 1 else 0
    ensures FromBigEndian(buf[6..8]) == if at == 6 then 1 else 0
    ensures FromBigEndian(buf[8..10]) == if at == 8 then 1 else 0
    ensures FromBigEndian(buf[10..12]) == if at == 10 then 1 else 0
  {
    hide FromBigEndian;
    SmallFields(buf[4..6]);
    SmallFields(buf[6..8]);
    SmallFields(buf[8..10]);
    SmallFields(buf[10..12]);
  }
}
