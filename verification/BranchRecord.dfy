/** The text form of a branch record: children joined by commas behind a prefix. */
module BranchRecord {
  import opened Wrappers

  const BASE32_HASH_LEN: nat := 26
  const BRANCH_PREFIX: string := "enrtree-branch:"

  predicate IsSpace(c: char) {
    || '\t' <= c <= '\r' || c == ' ' || c == '\U{85}' || c == '\U{A0}' || c == '\U{1680}'
    || '\U{2000}' <= c <= '\U{200A}' || c == '\U{2028}' || c == '\U{2029}' || c == '\U{202F}'
    || c == '\U{205F}' || c == '\U{3000}'
  }

  predicate IsBase32(c: char) {
    'A' <= c <= 'Z' || '2' <= c <= '7'
  }

  /** A hash as it stands in a branch. */
  predicate IsHash(s: string) {
    0 < |s| <= BASE32_HASH_LEN && forall i :: 0 <= i < |s| ==> IsBase32(s[i])
  }

  function TrimStart(s: string): string {
    if s != [] && IsSpace(s[0]) then TrimStart(s[1..]) else s
  }

  function TrimEnd(s: string): string {
    if s != [] && IsSpace(s[|s| - 1]) then TrimEnd(s[..|s| - 1]) else s
  }

  function Trim(s: string): string {
    TrimEnd(TrimStart(s))
  }

  /** Length in UTF-8, which is what bounds an array string. */
  function Utf8Len(s: string): nat {
    if s == [] then 0
    else
      var c := s[0] as int;
      (if c < 0x80 then 1 else if c < 0x800 then 2 else if c < 0x1_0000 then 3 else 4) + Utf8Len(s[1..])
  }

  /** The pieces between commas; always at least one. */
  function Split(s: string): (pieces: seq<string>)
    ensures pieces != []
  {
    if s == [] then [[]]
    else
      var rest := Split(s[1..]);
      if s[0] == ',' then [[]] + rest else [[s[0]] + rest[0]] + rest[1..]
  }

  function Join(pieces: seq<string>): string {
    if pieces == [] then []
    else if |pieces| == 1 then pieces[0]
    else pieces[0] + "," + Join(pieces[1..])
  }

  /** `children` is the hash set in the order its iterator happens to give. */
  function Print(children: seq<string>): string {
    BRANCH_PREFIX + Join(children)
  }

  function Parse(s: string): Option<set<string>> {
    if |s| < |BRANCH_PREFIX| || s[..|BRANCH_PREFIX|] != BRANCH_PREFIX then None
    else
      var pieces := Split(Trim(s[|BRANCH_PREFIX|..]));
      if exists h :: h in pieces && Utf8Len(h) > BASE32_HASH_LEN then None
      else Some(set h | h in pieces && h != [])
  }

  lemma {:induction false} SplitHead(head: string, tail: string)
    requires ',' !in head
    ensures Split(head + "," + tail) == [head] + Split(tail)
  {
    var s := head + "," + tail;
    if head == [] {
      assert s[1..] == tail;
    } else {
      SplitHead(head[1..], tail);
      assert s[1..] == head[1..] + "," + tail;
      assert s[0] == head[0];
      assert [head[0]] + head[1..] == head;
    }
  }

  lemma {:induction false} SplitWhole(s: string)
    requires ',' !in s
    ensures Split(s) == [s]
  {
    if s != [] {
      SplitWhole(s[1..]);
      assert [s[0]] + s[1..] == s;
    }
  }

  /** Splitting undoes joining. */
  lemma {:induction false} SplitJoin(pieces: seq<string>)
    requires forall i :: 0 <= i < |pieces| ==> ',' !in pieces[i]
    ensures Split(Join(pieces)) == if pieces == [] then [[]] else pieces
  {
    if |pieces| == 1 {
      SplitWhole(pieces[0]);
    } else if |pieces| > 1 {
      SplitHead(pieces[0], Join(pieces[1..]));
      SplitJoin(pieces[1..]);
    }
  }

  // ----- The exact condition -----

  lemma {:induction false} PiecesHaveNoCommas(s: string)
    ensures forall h :: h in Split(s) ==> ',' !in h
  {
    if s != [] {
      PiecesHaveNoCommas(s[1..]);
      var rest := Split(s[1..]);
      assert rest[0] in rest;
      if s[0] != ',' {
        assert forall h :: h in Split(s) ==> h == [s[0]] + rest[0] || h in rest;
      }
    }
  }

  /** Length with one separator for each piece. */
  function Weight(pieces: seq<string>): nat {
    if pieces == [] then 0 else |pieces[0]| + 1 + Weight(pieces[1..])
  }

  lemma {:induction false} SplitWeight(s: string)
    ensures Weight(Split(s)) == |s| + 1
  {
    if s != [] {
      SplitWeight(s[1..]);
    }
  }

  lemma {:induction false} JoinWeight(pieces: seq<string>)
    requires pieces != []
    ensures |Join(pieces)| + 1 == Weight(pieces)
  {
    if |pieces| > 1 {
      JoinWeight(pieces[1..]);
    }
  }

  lemma {:induction false} WeightWithout(pieces: seq<string>, k: nat)
    requires k < |pieces|
    ensures Weight(pieces) == Weight(pieces[..k] + pieces[k + 1..]) + |pieces[k]| + 1
  {
    var rest := pieces[..k] + pieces[k + 1..];
    if k == 0 {
      assert rest == pieces[1..];
    } else {
      WeightWithout(pieces[1..], k - 1);
      assert rest[1..] == pieces[1..][..k - 1] + pieces[1..][k..];
    }
  }

  ghost predicate Distinct(s: seq<string>) {
    forall i, j :: 0 <= i < j < |s| ==> s[i] != s[j]
  }

  /** Distinct strings that all occur among some pieces weigh no more than these. */
  lemma {:induction false} DistinctWeighLess(a: seq<string>, pieces: seq<string>)
    requires Distinct(a) && forall i :: 0 <= i < |a| ==> a[i] in pieces
    ensures Weight(a) <= Weight(pieces)
  {
    if a != [] {
      var k :| 0 <= k < |pieces| && pieces[k] == a[0];
      var rest := pieces[..k] + pieces[k + 1..];
      WeightWithout(pieces, k);
      forall i | 0 <= i < |a[1..]| ensures a[1..][i] in rest {
        var j :| 0 <= j < |pieces| && pieces[j] == a[i + 1];
        assert j != k;
        assert rest[if j < k then j else j - 1] == a[i + 1];
      }
      DistinctWeighLess(a[1..], rest);
    }
  }

  lemma {:induction false} TrimShortens(s: string)
    ensures |TrimStart(s)| <= |s| && |TrimEnd(s)| <= |s|
    ensures |TrimStart(s)| == |s| ==> TrimStart(s) == s
    ensures |TrimEnd(s)| == |s| ==> TrimEnd(s) == s
  {
    if s != [] {
      TrimShortens(s[1..]);
      TrimShortens(s[..|s| - 1]);
    }
  }

  /** A child that survives on its own. */
  predicate GoodChild(h: string) {
    h != [] && ',' !in h && Utf8Len(h) <= BASE32_HASH_LEN
  }

  /** What a caller can check: every child is sound, and no white space stands at either end of the joined text. */
  predicate Printable(children: seq<string>) {
    (forall i :: 0 <= i < |children| ==> GoodChild(children[i])) && Trim(Join(children)) == Join(children)
  }

  lemma ParsePrinted(children: seq<string>)
    ensures
      var pieces := Split(Trim(Join(children)));
      Parse(Print(children)) ==
        if exists h :: h in pieces && Utf8Len(h) > BASE32_HASH_LEN then None else Some(set h | h in pieces && h != [])
  {
    var s := Print(children);
    assert s[|BRANCH_PREFIX|..] == Join(children) && s[..|BRANCH_PREFIX|] == BRANCH_PREFIX;
  }

  lemma PrintableRoundTrips(children: seq<string>)
    requires Printable(children)
    ensures Parse(Print(children)) == Some(set h | h in children)
  {
    ParsePrinted(children);
    SplitJoin(children);
    var pieces := Split(Trim(Join(children)));
    assert forall h :: h in children ==> GoodChild(h);
    assert (set h | h in pieces && h != []) == set h | h in children;
  }

  lemma RoundTripIsPrintable(children: seq<string>)
    requires Distinct(children) && Parse(Print(children)) == Some(set h | h in children)
    ensures Printable(children)
  {
    ParsePrinted(children);
    var body := Join(children);
    var pieces := Split(Trim(body));
    PiecesHaveNoCommas(Trim(body));
    var parsed := set h | h in pieces && h != [];
    assert parsed == set h | h in children;
    forall i | 0 <= i < |children| ensures GoodChild(children[i]) && children[i] in pieces {
      assert children[i] in parsed;
    }
    TrimShortens(body);
    TrimShortens(TrimStart(body));
    if children != [] {
      DistinctWeighLess(children, pieces);
      JoinWeight(children);
      SplitWeight(Trim(body));
    }
  }

  /**
   * A branch parses back to the children it was printed from, in whatever order they were printed, exactly when
   * every child is non-empty, free of commas and at most 26 bytes long and the joined text has no outer white space.
   */
  lemma BranchRoundTrip(children: seq<string>)
    requires Distinct(children)
    ensures Parse(Print(children)) == Some(set h | h in children) <==> Printable(children)
  {
    if Printable(children) {
      PrintableRoundTrips(children);
    }
    if Parse(Print(children)) == Some(set h | h in children) {
      RoundTripIsPrintable(children);
    }
  }

  /** A child that begins with a space does not come back. */
  lemma LeadingSpaceIsLost()
    ensures Parse(Print([" A"])) != Some({" A"})
  {
    var children := [" A"];
    assert Join(children) == " A" && Trim(" A") == "A" by { assert " A"[1..] == "A"; }
    assert !Printable(children);
    BranchRoundTrip(children);
    assert (set h | h in children) == {" A"};
  }

  // ----- Base32 hashes -----

  lemma {:induction false} AsciiLen(s: string)
    requires forall i :: 0 <= i < |s| ==> IsBase32(s[i])
    ensures Utf8Len(s) == |s|
  {
    if s != [] {
      AsciiLen(s[1..]);
    }
  }

  lemma {:induction false} JoinEnds(pieces: seq<string>)
    requires pieces != [] && forall i :: 0 <= i < |pieces| ==> IsHash(pieces[i])
    ensures var s := Join(pieces); s != [] && IsBase32(s[0]) && IsBase32(s[|s| - 1])
  {
    if |pieces| > 1 {
      JoinEnds(pieces[1..]);
    }
  }

  /** Base32 hashes, as the standard prescribes, are always printable; so is a branch without children. */
  lemma {:induction false} HashesArePrintable(children: seq<string>)
    requires forall i :: 0 <= i < |children| ==> IsHash(children[i])
    ensures Printable(children)
  {
    if children != [] {
      JoinEnds(children);
    }
    forall i | 0 <= i < |children| ensures GoodChild(children[i]) {
      AsciiLen(children[i]);
    }
  }

  /** The text itself: the prefix, and the children behind it with commas between. */
  lemma BranchText(a: string, b: string)
    ensures Print([]) == "enrtree-branch:"
    ensures Print([a]) == "enrtree-branch:" + a
    ensures Print([a, b]) == "enrtree-branch:" + a + "," + b
  {
    assert [a, b][1..] == [b] && Join([b]) == b && Join([a, b]) == a + "," + b;
    assert BRANCH_PREFIX + (a + "," + b) == "enrtree-branch:" + a + "," + b;
    assert BRANCH_PREFIX + [] == BRANCH_PREFIX;
  }
}
