/** The two JavaScript string operations the URL hash code relies on:
    `s.replace(c, '')` with a one-character pattern, which removes only the
    first occurrence, and `s.split(sep)` with a one-character separator. */
module Strings {

  /** Position of the first occurrence of c in s. */
  function FirstIndex(s: string, c: char): (i: nat)
    requires c in s
    ensures i < |s| && s[i] == c
    ensures c !in s[..i]
  {
    if s[0] == c then 0
    else
      var j := FirstIndex(s[1..], c);
      assert s[..j + 1] == [s[0]] + s[1..][..j];
      j + 1
  }

  /** Any position holding c with no c before it is the first index. */
  lemma FirstIndexUnique(s: string, c: char, j: nat)
    requires j < |s| && s[j] == c && c !in s[..j]
    ensures FirstIndex(s, c) == j
  {
  }

  /** `s.replace(c, '')`: s without its first c; s itself when it has none.
      Putting c back at the first index restores s. */
  function ReplaceFirst(s: string, c: char): (r: string)
    ensures c !in s ==> r == s
    ensures c in s ==> |r| == |s| - 1 && s == r[..FirstIndex(s, c)] + [c] + r[FirstIndex(s, c)..]
  {
    if c !in s then s
    else
      var i := FirstIndex(s, c);
      assert s == s[..i] + [c] + s[i + 1..];
      s[..i] + s[i + 1..]
  }

  /** The inverse of Split: the fields glued back together with sep between
      neighbours. */
  function Join(fields: seq<string>, sep: char): (s: string)
    requires |fields| >= 1
  {
    if |fields| == 1 then fields[0]
    else fields[0] + [sep] + Join(fields[1..], sep)
  }

  /** No field contains the separator. */
  predicate SeparatorFree(fields: seq<string>, sep: char)
  {
    forall k :: 0 <= k < |fields| ==> sep !in fields[k]
  }

  /** `s.split(sep)`: the maximal runs of s between separators. There is
      always at least one field, the empty string splits into one empty
      field, no field contains sep, and joining the fields gives s back. */
  function Split(s: string, sep: char): (fields: seq<string>)
    ensures |fields| >= 1
    ensures SeparatorFree(fields, sep)
    ensures Join(fields, sep) == s
    decreases |s|
  {
    if sep !in s then [s]
    else
      var i := FirstIndex(s, sep);
      var rest := Split(s[i + 1..], sep);
      assert Join([s[..i]] + rest, sep) == s[..i] + [sep] + Join(rest, sep) by {
        assert ([s[..i]] + rest)[1..] == rest;
      }
      assert s == s[..i] + [sep] + s[i + 1..];
      [s[..i]] + rest
  }

  /** The first field of a split is the text before the first separator;
      the remaining fields are the split of the text after it. */
  lemma SplitFirst(s: string, sep: char)
    requires sep in s
    ensures var fields, i := Split(s, sep), FirstIndex(s, sep);
            && |fields| >= 2
            && fields[0] == s[..i]
            && fields[1..] == Split(s[i + 1..], sep)
  {
    var i := FirstIndex(s, sep);
    var rest := Split(s[i + 1..], sep);
    assert Split(s, sep) == [s[..i]] + rest;
    assert ([s[..i]] + rest)[1..] == rest;
  }

  /** Splitting a join of separator-free fields gives the fields back. */
  lemma {:induction false} SplitJoin(fields: seq<string>, sep: char)
    requires |fields| >= 1
    requires SeparatorFree(fields, sep)
    ensures Split(Join(fields, sep), sep) == fields
    decreases |fields|
  {
    if |fields| > 1 {
      var head, tail := fields[0], fields[1..];
      var joined := Join(tail, sep);
      var s := Join(fields, sep);
      assert s == head + [sep] + joined;
      assert sep !in head;
      assert s[..|head|] == head;
      FirstIndexUnique(s, sep, |head|);
      assert s[|head| + 1..] == joined;
      assert SeparatorFree(tail, sep) by {
        forall k | 0 <= k < |tail| ensures sep !in tail[k] {
          assert tail[k] == fields[k + 1];
        }
      }
      SplitJoin(tail, sep);
      SplitFirst(s, sep);
      assert fields == [head] + tail;
    } else {
      assert sep !in fields[0];
    }
  }

  /** A join starts with its first field, followed by the separator or the
      end. */
  lemma JoinStartsWithHead(fields: seq<string>, sep: char)
    requires |fields| >= 1
    ensures var s := Join(fields, sep);
            && |fields[0]| <= |s|
            && s[..|fields[0]|] == fields[0]
            && (|fields[0]| == |s| || s[|fields[0]|] == sep)
  {
  }

  /** Cutting a + [c] + b after k characters of b. */
  lemma CutAfterSeparator(a: string, c: char, b: string, k: nat)
    requires k <= |b|
    ensures (a + [c] + b)[..|a| + 1 + k] == a + [c] + b[..k]
    ensures k < |b| ==> (a + [c] + b)[|a| + 1 + k] == b[k]
  {
  }

  /** A join of at least two fields starts with the first two fields and
      the separator between them, followed by the end or another separator. */
  lemma JoinStartsWithTwo(fields: seq<string>, sep: char)
    requires |fields| >= 2
    ensures var s, n := Join(fields, sep), |fields[0]| + 1 + |fields[1]|;
            && n <= |s|
            && s[..n] == fields[0] + [sep] + fields[1]
            && (n == |s| || s[n] == sep)
  {
    var tail := fields[1..];
    JoinStartsWithHead(tail, sep);
    assert tail[0] == fields[1];
    CutAfterSeparator(fields[0], sep, Join(tail, sep), |fields[1]|);
  }

  /** When s contains sep, s starts with its first two fields joined by sep,
      followed by the end or another sep. */
  lemma SplitFirstTwo(s: string, sep: char)
    requires sep in s
    ensures var fields := Split(s, sep);
            var n := |fields[0]| + 1 + |fields[1]|;
            && |fields| >= 2
            && n <= |s|
            && s[..n] == fields[0] + [sep] + fields[1]
            && (n == |s| || s[n] == sep)
  {
    SplitFirst(s, sep);
    JoinStartsWithTwo(Split(s, sep), sep);
  }

}
