/**
 The package fingerprint: the byte stream fed to the hash, over every module in sorted filename order.
 A filename is its UTF-8 bytes, whose byte order is the code-point order of the names.
 */
module Fingerprint {
  import opened ByteStrings
  import opened Decimal

  datatype File = File(name: seq<Byte>, data: seq<Byte>)

  const SHORT_LEN := 16

  // ---------------------------------------------------------------- filename order

  predicate Less(a: seq<Byte>, b: seq<Byte>)
    decreases |a|
  {
    if b == [] then false
    else if a == [] then true
    else a[0] < b[0] || (a[0] == b[0] && Less(a[1..], b[1..]))
  }

  lemma {:induction false} LessTransitive(a: seq<Byte>, b: seq<Byte>, c: seq<Byte>)
    requires Less(a, b) && Less(b, c)
    ensures Less(a, c)
    decreases |a|
  {
    if a != [] && a[0] == b[0] && b[0] == c[0] {
      LessTransitive(a[1..], b[1..], c[1..]);
    }
  }

  lemma {:induction false} LessIrreflexive(a: seq<Byte>)
    ensures !Less(a, a)
    decreases |a|
  {
    if a != [] {
      LessIrreflexive(a[1..]);
    }
  }

  lemma {:induction false} LessTotal(a: seq<Byte>, b: seq<Byte>)
    ensures Less(a, b) || Less(b, a) || a == b
    decreases |a|
  {
    if a != [] && b != [] && a[0] == b[0] {
      LessTotal(a[1..], b[1..]);
      assert a == [a[0]] + a[1..] && b == [b[0]] + b[1..];
    }
  }

  /** The names agree before `k`, where the first ends or has the smaller byte. */
  predicate SmallerAt(a: seq<Byte>, b: seq<Byte>, k: nat) {
    k <= |a| && k < |b| && a[..k] == b[..k] && (k == |a| || a[k] < b[k])
  }

  lemma {:induction false} SmallerIsLess(a: seq<Byte>, b: seq<Byte>, k: nat)
    requires SmallerAt(a, b, k)
    ensures Less(a, b)
    decreases k
  {
    if k > 0 {
      assert a[..k][0] == b[..k][0] && a[1..][..k - 1] == a[..k][1..] == b[..k][1..] == b[1..][..k - 1];
      SmallerIsLess(a[1..], b[1..], k - 1);
    }
  }

  lemma {:induction false} LessIsSmaller(a: seq<Byte>, b: seq<Byte>) returns (k: nat)
    requires Less(a, b)
    ensures SmallerAt(a, b, k)
    decreases |a|
  {
    if a != [] && a[0] == b[0] {
      var rest := LessIsSmaller(a[1..], b[1..]);
      k := rest + 1;
      assert a[..k] == [a[0]] + a[1..][..rest] == b[..k];
    } else {
      k := 0;
    }
  }

  /** The order is that of the first byte in which two names differ, a name before what continues it. */
  lemma LessExactly(a: seq<Byte>, b: seq<Byte>)
    ensures Less(a, b) <==> exists k: nat :: SmallerAt(a, b, k)
  {
    hide Less, SmallerAt;
    if Less(a, b) {
      var k := LessIsSmaller(a, b);
    }
    if k: nat :| SmallerAt(a, b, k) {
      SmallerIsLess(a, b, k);
    }
  }

  // ---------------------------------------------------------------- sorting

  predicate SortedByName(files: seq<File>) {
    forall i, j | 0 <= i < j < |files| :: Less(files[i].name, files[j].name)
  }

  predicate DistinctNames(files: seq<File>) {
    forall i, j | 0 <= i < j < |files| :: files[i].name != files[j].name
  }

  ghost predicate SameFiles(a: seq<File>, b: seq<File>) {
    forall f :: f in a <==> f in b
  }

  /** Insert a file before the first one whose name follows it. */
  function Inserted(files: seq<File>, f: File): seq<File> {
    if files == [] then [f]
    else if Less(f.name, files[0].name) then [f] + files
    else [files[0]] + Inserted(files[1..], f)
  }

  function Sorted(files: seq<File>): seq<File> {
    if files == [] then [] else Inserted(Sorted(files[..|files| - 1]), files[|files| - 1])
  }

  lemma {:induction false} InsertedHolds(files: seq<File>, f: File)
    ensures forall g :: g in Inserted(files, f) <==> g in files || g == f
  {
    if files != [] && !Less(f.name, files[0].name) {
      InsertedHolds(files[1..], f);
      assert files == [files[0]] + files[1..];
    }
  }

  lemma {:induction false} InsertedIsSorted(files: seq<File>, f: File)
    requires SortedByName(files) && forall g | g in files :: g.name != f.name
    ensures SortedByName(Inserted(files, f))
  {
    if files != [] {
      var first, rest := files[0], files[1..];
      if Less(f.name, first.name) {
        forall j | 0 <= j < |files| ensures Less(f.name, files[j].name) {
          if j > 0 {
            LessTransitive(f.name, first.name, files[j].name);
          }
        }
      } else {
        LessTotal(f.name, first.name);
        assert first in files;
        InsertedIsSorted(rest, f);
        InsertedHolds(rest, f);
        var tail := Inserted(rest, f);
        forall j | 0 <= j < |tail| ensures Less(first.name, tail[j].name) {
          assert tail[j] in tail;
          if tail[j] in rest {
            var k :| 0 <= k < |rest| && rest[k] == tail[j];
            assert files[k + 1] == rest[k];
          }
        }
      }
    }
  }

  lemma {:induction false} SortedIsSorted(files: seq<File>)
    requires DistinctNames(files)
    ensures SortedByName(Sorted(files)) && SameFiles(Sorted(files), files)
  {
    if files != [] {
      var front, last := files[..|files| - 1], files[|files| - 1];
      SortedIsSorted(front);
      forall g | g in Sorted(front) ensures g.name != last.name {
        assert g in front;
        var i :| 0 <= i < |front| && front[i] == g;
        assert files[i] == g;
      }
      InsertedIsSorted(Sorted(front), last);
      InsertedHolds(Sorted(front), last);
      assert files == front + [last];
    }
  }

  /** A set of files has one sorted listing. */
  lemma {:induction false} SortedListingIsUnique(a: seq<File>, b: seq<File>)
    requires SortedByName(a) && SortedByName(b) && SameFiles(a, b)
    ensures a == b
    decreases |a|
  {
    if a != [] {
      NonEmptyIsSame(a, b);
    }
    if b != [] {
      NonEmptyIsSame(b, a);
    }
    if a != [] && b != [] {
      FirstIsLeast(a, b);
      FirstIsLeast(b, a);
      LessTotal(a[0].name, b[0].name);
      assert a[0] == b[0];
      RestIsSame(a, b);
      RestIsSame(b, a);
      SortedListingIsUnique(a[1..], b[1..]);
      assert a == [a[0]] + a[1..] && b == [b[0]] + b[1..];
    }
  }

  lemma NonEmptyIsSame(a: seq<File>, b: seq<File>)
    requires SameFiles(a, b) && a != []
    ensures b != []
  {
    assert a[0] in a && a[0] in b;
  }

  lemma FirstIsLeast(a: seq<File>, b: seq<File>)
    requires SortedByName(a) && SameFiles(a, b) && a != [] && b != []
    ensures a[0] == b[0] || Less(a[0].name, b[0].name)
    ensures !(Less(a[0].name, b[0].name) && Less(b[0].name, a[0].name))
  {
    assert b[0] in b;
    var i :| 0 <= i < |a| && a[i] == b[0];
    if Less(a[0].name, b[0].name) && Less(b[0].name, a[0].name) {
      LessTransitive(a[0].name, b[0].name, a[0].name);
      LessIrreflexive(a[0].name);
    }
  }

  lemma RestIsSame(a: seq<File>, b: seq<File>)
    requires SortedByName(a) && SortedByName(b) && SameFiles(a, b) && a != [] && b != [] && a[0] == b[0]
    ensures forall f | f in a[1..] :: f in b[1..]
  {
    forall f | f in a[1..] ensures f in b[1..] {
      var i :| 1 <= i < |a| && a[i] == f;
      assert f in a && f in b;
      LessIrreflexive(a[0].name);
      assert Less(a[0].name, f.name) && f != b[0];
      var j :| 0 <= j < |b| && b[j] == f;
      assert b[1..][j - 1] == f;
    }
  }

  // ---------------------------------------------------------------- the stream

  function Ascii(s: string): (r: seq<Byte>)
    requires AllDigits(s)
    ensures |r| == |s|
  {
    seq(|s|, i requires 0 <= i < |s| => s[i] as int)
  }

  /** What one file adds: its name, a NUL, its length in decimal, a NUL, its contents. */
  function Record(f: File): seq<Byte> {
    f.name + [0] + Ascii(Dec(|f.data|)) + [0] + f.data
  }

  function Stream(files: seq<File>): seq<Byte> {
    if files == [] then [] else Stream(files[..|files| - 1]) + Record(files[|files| - 1])
  }

  /** `root.glob` lists the files in any order; the hash is a parameter. */
  method Fingerprint(listing: seq<File>, full: bool, hash: seq<Byte> -> string) returns (r: string)
    ensures var digest := hash(Stream(Sorted(listing)));
            r == if full || |digest| <= SHORT_LEN then digest else digest[..SHORT_LEN]
  {
    var sorted := Sorted(listing);
    var fed: seq<Byte> := [];
    for i := 0 to |sorted|
      invariant fed == Stream(sorted[..i])
    {
      hide Record;
      ghost var before := fed;
      var f := sorted[i];
      fed := fed + f.name;
      fed := fed + [0];
      fed := fed + Ascii(Dec(|f.data|));
      fed := fed + [0];
      fed := fed + f.data;
      RecordIsFed(before, f);
      assert sorted[..i + 1][..i] == sorted[..i];
    }
    assert sorted[..|sorted|] == sorted;
    var digest := hash(fed);
    r := if full || |digest| <= SHORT_LEN then digest else digest[..SHORT_LEN];
  }

  lemma RecordIsFed(before: seq<Byte>, f: File)
    ensures before + f.name + [0] + Ascii(Dec(|f.data|)) + [0] + f.data == before + Record(f)
  {
  }

  // ---------------------------------------------------------------- unique decoding

  predicate NulFree(s: seq<Byte>) {
    forall i | 0 <= i < |s| :: s[i] != 0
  }

  predicate NulFreeNames(files: seq<File>) {
    forall i | 0 <= i < |files| :: NulFree(files[i].name)
  }

  function FirstNul(s: seq<Byte>): nat {
    if s == [] || s[0] == 0 then 0 else 1 + FirstNul(s[1..])
  }

  lemma {:induction false} FirstNulIs(a: seq<Byte>, x: seq<Byte>)
    requires NulFree(a)
    ensures FirstNul(a + [0] + x) == |a|
  {
    if a != [] {
      assert (a + [0] + x)[1..] == a[1..] + [0] + x;
      FirstNulIs(a[1..], x);
    }
  }

  /** A NUL ends a NUL-free field: two texts that agree have the same first field and the same rest. */
  lemma FieldsAgree(a: seq<Byte>, x: seq<Byte>, b: seq<Byte>, y: seq<Byte>)
    requires NulFree(a) && NulFree(b) && a + [0] + x == b + [0] + y
    ensures a == b && x == y
  {
    var s, t := a + [0] + x, b + [0] + y;
    FirstNulIs(a, x);
    FirstNulIs(b, y);
    assert a == s[..|a|] && b == t[..|b|];
    assert x == s[|a| + 1..] && y == t[|b| + 1..];
  }

  lemma AsciiInjective(m: nat, n: nat)
    ensures NulFree(Ascii(Dec(m)))
    ensures Ascii(Dec(m)) == Ascii(Dec(n)) ==> m == n
  {
    if Ascii(Dec(m)) == Ascii(Dec(n)) {
      forall i | 0 <= i < |Dec(m)| ensures Dec(m)[i] == Dec(n)[i] {
        assert Ascii(Dec(m))[i] == Ascii(Dec(n))[i];
      }
      assert Dec(m) == Dec(n);
      DecInjective(m, n);
    }
  }

  /** The first record of a stream is determined by the stream. */
  lemma FirstRecordAgrees(f: File, x: seq<Byte>, g: File, y: seq<Byte>)
    requires NulFree(f.name) && NulFree(g.name) && Record(f) + x == Record(g) + y
    ensures f == g && x == y
  {
    var fLen, gLen := Ascii(Dec(|f.data|)), Ascii(Dec(|g.data|));
    RecordSplits(f, x);
    RecordSplits(g, y);
    FieldsAgree(f.name, fLen + [0] + (f.data + x), g.name, gLen + [0] + (g.data + y));
    AsciiInjective(|f.data|, |g.data|);
    AsciiInjective(|g.data|, |f.data|);
    FieldsAgree(fLen, f.data + x, gLen, g.data + y);
    assert f.data == (f.data + x)[..|f.data|] && g.data == (g.data + y)[..|g.data|];
    assert x == (f.data + x)[|f.data|..] && y == (g.data + y)[|g.data|..];
  }

  lemma RecordSplits(f: File, x: seq<Byte>)
    ensures Record(f) + x == f.name + [0] + (Ascii(Dec(|f.data|)) + [0] + (f.data + x))
  {
  }

  /** A RECORD IS READ BACK from the stream: its name up to the first NUL, the length of its contents in decimal up
      to the next, and that many bytes. */
  lemma RecordReadsBack(f: File, x: seq<Byte>)
    requires NulFree(f.name)
    ensures var s := Record(f) + x;
      var n := FirstNul(s);
      && n < |s| && s[..n] == f.name
      && (var rest := s[n + 1..];
          var m := FirstNul(rest);
          && m < |rest| && rest[..m] == Ascii(Dec(|f.data|))
          && m + 1 + |f.data| <= |rest| && rest[m + 1..m + 1 + |f.data|] == f.data && rest[m + 1 + |f.data|..] == x)
  {
    var digits := Ascii(Dec(|f.data|));
    AsciiInjective(|f.data|, |f.data|);
    RecordSplits(f, x);
    FirstNulIs(f.name, digits + [0] + (f.data + x));
    FirstNulIs(digits, f.data + x);
    hide Record, Ascii, FirstNul;
    var s := Record(f) + x;
    assert s[..|f.name|] == f.name;
    var rest := s[|f.name| + 1..];
    assert rest == digits + [0] + (f.data + x);
    assert rest[..|digits|] == digits && rest[|digits| + 1..] == f.data + x;
    assert rest[|digits| + 1..|digits| + 1 + |f.data|] == f.data;
  }

  lemma {:induction false} StreamFromTheFront(files: seq<File>)
    requires files != []
    ensures Stream(files) == Record(files[0]) + Stream(files[1..])
  {
    hide Record, Stream;
    var front, last := files[..|files| - 1], files[|files| - 1];
    StreamOneMore(front, last);
    assert files == front + [last];
    if front == [] {
      assert files[1..] == [];
      StreamOneMore([], last);
      assert [] + Record(last) == Record(last) + [];
    } else {
      StreamFromTheFront(front);
      StreamOneMore(front[1..], last);
      assert files[1..] == front[1..] + [last];
      assert Record(files[0]) + Stream(front[1..]) + Record(last) == Record(files[0]) + (Stream(front[1..]) + Record(last));
    }
  }

  lemma StreamOneMore(files: seq<File>, f: File)
    ensures Stream(files + [f]) == Stream(files) + Record(f)
    ensures Stream([]) == []
  {
    hide Record;
    assert (files + [f])[..|files|] == files;
  }

  lemma RecordIsNotEmpty(f: File)
    ensures Record(f) != []
  {
    assert |Record(f)| >= 2;
  }

  /** Reading the stream record by record gives back the files in their order: nothing in a name or in the
      contents can be mistaken for a boundary. */
  lemma {:induction false} StreamIsUniquelyDecodable(a: seq<File>, b: seq<File>)
    requires NulFreeNames(a) && NulFreeNames(b) && Stream(a) == Stream(b)
    ensures a == b
    decreases |a|
  {
    hide Record;
    if a != [] {
      StreamFromTheFront(a);
      RecordIsNotEmpty(a[0]);
    }
    if b != [] {
      StreamFromTheFront(b);
      RecordIsNotEmpty(b[0]);
    }
    if a != [] && b != [] {
      FirstRecordAgrees(a[0], Stream(a[1..]), b[0], Stream(b[1..]));
      StreamIsUniquelyDecodable(a[1..], b[1..]);
      assert a == [a[0]] + a[1..] && b == [b[0]] + b[1..];
    }
  }

  /** THE STREAM IDENTIFIES THE PACKAGE. For two listings of NUL-free, distinct filenames, each in any
      order: the bytes fed to the hash are the same if and only if the two hold the same files with the
      same contents. A rename, a truncation, or content moved between files always changes them. */
  lemma SameStreamExactly(a: seq<File>, b: seq<File>)
    requires NulFreeNames(a) && NulFreeNames(b) && DistinctNames(a) && DistinctNames(b)
    ensures Stream(Sorted(a)) == Stream(Sorted(b)) <==> SameFiles(a, b)
  {
    SortedIsSorted(a);
    SortedIsSorted(b);
    if SameFiles(a, b) {
      SortedListingIsUnique(Sorted(a), Sorted(b));
    }
    if Stream(Sorted(a)) == Stream(Sorted(b)) {
      SortedKeepsNames(a);
      SortedKeepsNames(b);
      StreamIsUniquelyDecodable(Sorted(a), Sorted(b));
    }
  }

  lemma SortedKeepsNames(files: seq<File>)
    requires NulFreeNames(files) && SameFiles(Sorted(files), files)
    ensures NulFreeNames(Sorted(files))
  {
    forall i | 0 <= i < |Sorted(files)| ensures NulFree(Sorted(files)[i].name) {
      assert Sorted(files)[i] in files;
    }
  }
}
