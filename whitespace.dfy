/**
  Splitting text into whitespace-separated words, as Go's strings.Fields does
  with unicode.IsSpace as its separator test.
 */
module Whitespace {

  /** Go's unicode.IsSpace: the Latin-1 spaces and the rest of Unicode's White_Space property. */
  predicate IsSpace(c: char) {
    var u := c as int;
    || 0x09 <= u <= 0x0D
    || u == 0x20 || u == 0x85 || u == 0xA0
    || u == 0x1680
    || 0x2000 <= u <= 0x200A
    || u == 0x2028 || u == 0x2029 || u == 0x202F || u == 0x205F
    || u == 0x3000
  }

  predicate AllSpace(s: string) {
    forall k :: 0 <= k < |s| ==> IsSpace(s[k])
  }

  predicate NoSpace(s: string) {
    forall k :: 0 <= k < |s| ==> !IsSpace(s[k])
  }

  /** The first position at or after i that does not hold whitespace, or |s|. */
  function SkipSpace(s: string, i: nat): (j: nat)
    requires i <= |s|
    ensures i <= j <= |s|
    decreases |s| - i
  {
    if i < |s| && IsSpace(s[i]) then SkipSpace(s, i + 1) else i
  }

  /** The first position at or after i that holds whitespace, or |s|. */
  function SkipWord(s: string, i: nat): (j: nat)
    requires i <= |s|
    ensures i <= j <= |s|
    ensures i < |s| && !IsSpace(s[i]) ==> i < j
    decreases |s| - i
  {
    if i < |s| && !IsSpace(s[i]) then SkipWord(s, i + 1) else i
  }

  /** The words of s from position i on. */
  function FieldsFrom(s: string, i: nat): seq<string>
    requires i <= |s|
    decreases |s| - i
  {
    var start := SkipSpace(s, i);
    if start == |s| then []
    else
      var end := SkipWord(s, start);
      [s[start..end]] + FieldsFrom(s, end)
  }

  /** strings.Fields: the maximal runs of non-whitespace characters of s, in order. */
  function Fields(s: string): seq<string> {
    FieldsFrom(s, 0)
  }

  /**
    Positions i < j delimit the first word of s: s holds only whitespace
    before i, no whitespace from i to j, and whitespace (or its end) at j.
   */
  predicate FirstWordAt(s: string, i: int, j: int) {
    && 0 <= i < j <= |s|
    && AllSpace(s[..i])
    && NoSpace(s[i..j])
    && (j == |s| || IsSpace(s[j]))
  }

  /** w is the first word of s. */
  ghost predicate IsFirstWord(s: string, w: string) {
    exists i, j :: FirstWordAt(s, i, j) && w == s[i..j]
  }

  /** SkipSpace passes only whitespace and stops at a non-space or the end. */
  lemma {:induction false} SkipSpaceSkipsSpace(s: string, i: nat)
    requires i <= |s|
    ensures AllSpace(s[i..SkipSpace(s, i)])
    ensures SkipSpace(s, i) == |s| || !IsSpace(s[SkipSpace(s, i)])
    decreases |s| - i
  {
    if i < |s| && IsSpace(s[i]) {
      SkipSpaceSkipsSpace(s, i + 1);
      var j := SkipSpace(s, i);
      assert s[i..j] == [s[i]] + s[i + 1..j];
    }
  }

  /** SkipWord passes only non-space and stops at whitespace or the end. */
  lemma {:induction false} SkipWordSkipsWord(s: string, i: nat)
    requires i <= |s|
    ensures NoSpace(s[i..SkipWord(s, i)])
    ensures SkipWord(s, i) == |s| || IsSpace(s[SkipWord(s, i)])
    decreases |s| - i
  {
    if i < |s| && !IsSpace(s[i]) {
      SkipWordSkipsWord(s, i + 1);
      var j := SkipWord(s, i);
      assert s[i..j] == [s[i]] + s[i + 1..j];
    }
  }

  lemma {:induction false} FieldsFromAreWords(s: string, i: nat)
    requires i <= |s|
    ensures forall k :: 0 <= k < |FieldsFrom(s, i)| ==> |FieldsFrom(s, i)[k]| > 0 && NoSpace(FieldsFrom(s, i)[k])
    decreases |s| - i
  {
    var start := SkipSpace(s, i);
    if start < |s| {
      SkipSpaceSkipsSpace(s, i);
      var end := SkipWord(s, start);
      SkipWordSkipsWord(s, start);
      FieldsFromAreWords(s, end);
    }
  }

  /** Every word strings.Fields returns is non-empty and free of whitespace. */
  lemma FieldsAreWords(s: string)
    ensures forall k :: 0 <= k < |Fields(s)| ==> |Fields(s)[k]| > 0 && NoSpace(Fields(s)[k])
  {
    FieldsFromAreWords(s, 0);
  }

  /** Fields finds no word exactly when the text is all whitespace. */
  lemma FieldsEmpty(s: string)
    ensures Fields(s) == [] <==> AllSpace(s)
  {
    SkipSpaceSkipsSpace(s, 0);
    assert s[0..|s|] == s;
  }

  /** The first element of Fields is the first word of the text. */
  lemma FirstField(s: string)
    requires !AllSpace(s)
    ensures |Fields(s)| > 0 && IsFirstWord(s, Fields(s)[0])
  {
    FieldsEmpty(s);
    var i := SkipSpace(s, 0);
    var j := SkipWord(s, i);
    SkipSpaceSkipsSpace(s, 0);
    SkipWordSkipsWord(s, i);
    assert s[..i] == s[0..i];
    assert FirstWordAt(s, i, j);
  }

  /** Whitespace from i to a, then a non-space or the end, means SkipSpace stops at a. */
  lemma {:induction false} SkipSpaceStopsAt(s: string, i: nat, a: nat)
    requires i <= a <= |s| && AllSpace(s[i..a])
    requires a == |s| || !IsSpace(s[a])
    ensures SkipSpace(s, i) == a
    decreases a - i
  {
    if i < a {
      assert s[i..a][0] == s[i];
      assert s[i + 1..a] == s[i..a][1..];
      SkipSpaceStopsAt(s, i + 1, a);
    }
  }

  /** No whitespace from a to b, then whitespace or the end, means SkipWord stops at b. */
  lemma {:induction false} SkipWordStopsAt(s: string, a: nat, b: nat)
    requires a <= b <= |s| && NoSpace(s[a..b])
    requires b == |s| || IsSpace(s[b])
    ensures SkipWord(s, a) == b
    decreases b - a
  {
    if a < b {
      assert s[a..b][0] == s[a];
      assert s[a + 1..b] == s[a..b][1..];
      SkipWordStopsAt(s, a + 1, b);
    }
  }

  /** Every first word of a text is the first element of Fields: a text has at most one. */
  lemma FirstWordIsFirstField(s: string, w: string)
    requires IsFirstWord(s, w)
    ensures |Fields(s)| > 0 && Fields(s)[0] == w
  {
    var i, j :| FirstWordAt(s, i, j) && w == s[i..j];
    assert s[0..i] == s[..i];
    assert s[i..j][0] == s[i];
    SkipSpaceStopsAt(s, 0, i);
    SkipWordStopsAt(s, i, j);
  }
}
