/** Strings as the Go library orders and splits them. */
module Strings {
  /** Strings compare character by character, as Go compares them byte by byte. */
  predicate Less(a: string, b: string) {
    b != [] && (a == [] || a[0] < b[0] || (a[0] == b[0] && Less(a[1..], b[1..])))
  }

  lemma {:induction false} LessIsTotal(a: string, b: string)
    ensures a == b || Less(a, b) || Less(b, a)
  {
    if a != [] && b != [] && a[0] == b[0] {
      LessIsTotal(a[1..], b[1..]);
      assert a == [a[0]] + a[1..] && b == [b[0]] + b[1..];
    }
  }

  lemma {:induction false} LessIsAsymmetric(a: string, b: string)
    requires Less(a, b)
    ensures !Less(b, a) && a != b
  {
    if a != [] && a[0] == b[0] { LessIsAsymmetric(a[1..], b[1..]); }
  }

  lemma {:induction false} LessIsTransitive(a: string, b: string, c: string)
    requires Less(a, b) && Less(b, c)
    ensures Less(a, c)
  {
    if a != [] && a[0] == b[0] == c[0] { LessIsTransitive(a[1..], b[1..], c[1..]); }
  }

  predicate AtMost(a: string, b: string) {
    a == b || Less(a, b)
  }

  predicate Ascending(s: seq<string>) {
    forall j, k :: 0 <= j < k < |s| ==> AtMost(s[j], s[k])
  }

  function InsertString(s: seq<string>, x: string): seq<string> {
    if s == [] || AtMost(x, s[0]) then [x] + s else [s[0]] + InsertString(s[1..], x)
  }

  /** sort.Strings. */
  function SortStrings(s: seq<string>): seq<string> {
    if s == [] then [] else InsertString(SortStrings(s[1..]), s[0])
  }

  lemma {:induction false} InsertKeepsContents(s: seq<string>, x: string)
    ensures multiset(InsertString(s, x)) == multiset(s) + multiset{x}
  {
    if s != [] && !AtMost(x, s[0]) {
      InsertKeepsContents(s[1..], x);
      assert s == [s[0]] + s[1..];
    }
  }

  lemma InsertedOrThere(s: seq<string>, x: string, y: string)
    requires y in InsertString(s, x)
    ensures y == x || y in s
  {
    InsertKeepsContents(s, x);
    assert y in multiset(InsertString(s, x));
  }

  lemma FirstGoesFirst(x: string, s: seq<string>)
    requires Ascending(s) && s != [] && AtMost(x, s[0])
    ensures Ascending([x] + s)
  {
    forall k | 0 <= k < |s|
      ensures AtMost(x, s[k])
    {
      if k > 0 && Less(x, s[0]) && Less(s[0], s[k]) { LessIsTransitive(x, s[0], s[k]); }
    }
  }

  lemma {:induction false} InsertKeepsOrder(s: seq<string>, x: string)
    requires Ascending(s)
    ensures Ascending(InsertString(s, x))
  {
    if s != [] && AtMost(x, s[0]) {
      FirstGoesFirst(x, s);
    } else if s != [] {
      var rest := InsertString(s[1..], x);
      InsertKeepsOrder(s[1..], x);
      LessIsTotal(x, s[0]);
      InsertedOrThere(s[1..], x, rest[0]);
      FirstGoesFirst(s[0], rest);
    }
  }

  /** Sorting sorts, and keeps every name as often as it occurs. */
  lemma {:induction false} SortStringsSorts(s: seq<string>)
    ensures Ascending(SortStrings(s)) && multiset(SortStrings(s)) == multiset(s)
    ensures |SortStrings(s)| == |s|
  {
    if s == [] {
    } else {
      var sorted := SortStrings(s[1..]);
      SortStringsSorts(s[1..]);
      InsertKeepsOrder(sorted, s[0]);
      InsertKeepsContents(sorted, s[0]);
      assert s == [s[0]] + s[1..];
      SameLength(InsertString(sorted, s[0]), s);
    }
  }

  lemma SameLength(s: seq<string>, t: seq<string>)
    requires multiset(s) == multiset(t)
    ensures |s| == |t|
  {
    assert |multiset(s)| == |s| && |multiset(t)| == |t|;
  }

  /** strings.Split(s, sep) for a one-character separator. */
  function Split(s: string, sep: char): (r: seq<string>)
    ensures r != []
    decreases |s|
  {
    if s == "" then [""]
    else if s[0] == sep then [""] + Split(s[1..], sep)
    else var rest := Split(s[1..], sep); [[s[0]] + rest[0]] + rest[1..]
  }

  lemma {:induction false} SplitAtFirst(first: string, sep: char, rest: string)
    requires sep !in first
    ensures Split(first + [sep] + rest, sep) == [first] + Split(rest, sep)
  {
    if first == "" {
      assert (first + [sep] + rest)[1..] == rest;
    } else {
      SplitAtFirst(first[1..], sep, rest);
      assert (first + [sep] + rest)[1..] == first[1..] + [sep] + rest;
      assert [first[0]] + first[1..] == first;
    }
  }

  lemma {:induction false} SplitWithout(s: string, sep: char)
    requires sep !in s
    ensures Split(s, sep) == [s]
  {
    if s == "" {
    } else {
      SplitWithout(s[1..], sep);
      assert [s[0]] + s[1..] == s;
    }
  }

  /** Every string is what comes before its first separator, and the rest. */
  lemma {:induction false} FirstPart(s: string, sep: char) returns (first: string, rest: string)
    ensures sep !in first
    ensures s == first + rest && (rest == "" <==> sep !in s) && (rest != "" ==> rest[0] == sep)
  {
    if s == "" || s[0] == sep {
      first, rest := "", s;
    } else {
      first, rest := FirstPart(s[1..], sep);
      first := [s[0]] + first;
      assert s == [s[0]] + s[1..];
    }
  }

  /** The strings agree up to position k, and there a ends or has the smaller character. */
  predicate SmallerAt(a: string, b: string, k: nat) {
    k <= |a| && k < |b| && a[..k] == b[..k] && (k == |a| || a[k] < b[k])
  }

  lemma SmallerAtNext(a: string, b: string, k: nat)
    requires a != [] && b != [] && a[0] == b[0]
    ensures SmallerAt(a, b, k + 1) <==> SmallerAt(a[1..], b[1..], k)
  {
    if k + 1 <= |a| && k + 1 < |b| {
      assert a[..k + 1] == [a[0]] + a[1..][..k] && b[..k + 1] == [b[0]] + b[1..][..k];
      if a[..k + 1] == b[..k + 1] { assert a[1..][..k] == a[..k + 1][1..] && b[1..][..k] == b[..k + 1][1..]; }
    }
  }

  lemma {:induction false} LessIsSmaller(a: string, b: string) returns (k: nat)
    requires Less(a, b)
    ensures SmallerAt(a, b, k)
  {
    if a == [] || a[0] < b[0] {
      k := 0;
    } else {
      var n := LessIsSmaller(a[1..], b[1..]);
      k := n + 1;
      SmallerAtNext(a, b, n);
    }
  }

  lemma {:induction false} SmallerIsLess(a: string, b: string, k: nat)
    requires SmallerAt(a, b, k)
    ensures Less(a, b)
  {
    if k == 0 {
    } else {
      assert a[..k][0] == b[..k][0];
      SmallerAtNext(a, b, k - 1);
      SmallerIsLess(a[1..], b[1..], k - 1);
    }
  }

  /** One string comes before another exactly when it is a proper prefix or has the smaller character where
      they first differ. */
  lemma LessExactlyWhen(a: string, b: string)
    ensures Less(a, b) <==> exists k: nat :: SmallerAt(a, b, k)
  {
    if Less(a, b) { var k := LessIsSmaller(a, b); }
    if k: nat :| SmallerAt(a, b, k) { SmallerIsLess(a, b, k); }
  }
}
