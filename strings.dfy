/** Python's `str.join` and single-character `str.split`, with the facts
    about them that the URL and message builders rely on. */
module Strings {

  lemma AppendAssoc<T>(x: seq<T>, y: seq<T>, z: seq<T>)
    ensures x + (y + z) == (x + y) + z
  {
  }

  /** Splitting a concatenation at the length of its first half gives the halves back. */
  lemma AppendHalves<T>(x: seq<T>, y: seq<T>)
    ensures x <= x + y
    ensures (x + y)[..|x|] == x && (x + y)[|x|..] == y
  {
  }

  /** `sep.join(parts)`. */
  function Join(parts: seq<string>, sep: string): (r: string)
    ensures |parts| == 0 ==> r == ""
    ensures |parts| >= 1 ==> parts[0] <= r
  {
    if |parts| == 0 then ""
    else if |parts| == 1 then parts[0]
    else parts[0] + sep + Join(parts[1..], sep)
  }

  /** `s.split(sep)` for a one-character separator: the maximal pieces of `s`
      between occurrences of `sep`, so "" splits into [""]. */
  function Split(s: string, sep: char): (r: seq<string>)
    ensures |r| >= 1
    ensures forall k, j :: 0 <= k < |r| && 0 <= j < |r[k]| ==> r[k][j] != sep
  {
    if s == [] then [""]
    else if s[0] == sep then [""] + Split(s[1..], sep)
    else
      var rest := Split(s[1..], sep);
      [[s[0]] + rest[0]] + rest[1..]
  }

  /** The index of the first `c` in `s`, or `|s|` when there is none. */
  function FindChar(s: string, c: char): (r: nat)
    ensures r <= |s|
    ensures r < |s| ==> s[r] == c
    ensures forall j :: 0 <= j < r ==> s[j] != c
  {
    if s == [] then 0
    else if s[0] == c then 0
    else 1 + FindChar(s[1..], c)
  }

  /** Where the `i`-th part starts in `Join(parts, sep)`. */
  function Offset(parts: seq<string>, sep: string, i: nat): nat
    requires i < |parts|
  {
    if i == 0 then 0 else |parts[0]| + |sep| + Offset(parts[1..], sep, i - 1)
  }

  /** A slice beyond a prefix is a slice of what follows the prefix. */
  lemma SliceAfter(head: string, tail: string, o: nat, len: nat)
    requires o + len <= |tail|
    ensures (head + tail)[|head| + o..|head| + o + len] == tail[o..o + len]
  {
  }

  /** Each part stands, unchanged and in order, at its offset in the joined string. */
  lemma {:induction false} JoinPieceAt(parts: seq<string>, sep: string, i: nat)
    requires i < |parts|
    ensures Offset(parts, sep, i) + |parts[i]| <= |Join(parts, sep)|
    ensures Join(parts, sep)[Offset(parts, sep, i)..Offset(parts, sep, i) + |parts[i]|] == parts[i]
  {
    if i == 0 {
      if |parts| > 1 {
        assert Join(parts, sep) == parts[0] + (sep + Join(parts[1..], sep));
      }
    } else {
      var rest := parts[1..];
      JoinPieceAt(rest, sep, i - 1);
      assert rest[i - 1] == parts[i];
      var tail := Join(rest, sep);
      var o := Offset(rest, sep, i - 1);
      var head := parts[0] + sep;
      assert Join(parts, sep) == head + tail;
      assert Offset(parts, sep, i) == |head| + o;
      SliceAfter(head, tail, o, |parts[i]|);
    }
  }

  /** Between two consecutive parts stands exactly one separator. */
  lemma {:induction false} JoinSepAt(parts: seq<string>, sep: string, i: nat)
    requires i + 1 < |parts|
    ensures Offset(parts, sep, i + 1) == Offset(parts, sep, i) + |parts[i]| + |sep|
    ensures Offset(parts, sep, i + 1) <= |Join(parts, sep)|
    ensures Join(parts, sep)[Offset(parts, sep, i) + |parts[i]|..Offset(parts, sep, i + 1)] == sep
  {
    var rest := parts[1..];
    var tail := Join(rest, sep);
    if i == 0 {
      AppendAssoc(parts[0], sep, tail);
      assert Join(parts, sep) == parts[0] + (sep + tail);
      assert Offset(parts, sep, 1) == |parts[0]| + |sep|;
      SliceAfter(parts[0], sep + tail, 0, |sep|);
      AppendHalves(sep, tail);
    } else {
      JoinSepAt(rest, sep, i - 1);
      assert rest[i - 1] == parts[i];
      var head := parts[0] + sep;
      var o := Offset(rest, sep, i - 1) + |rest[i - 1]|;
      assert Join(parts, sep) == head + tail;
      assert Offset(parts, sep, i) == |head| + Offset(rest, sep, i - 1);
      assert Offset(parts, sep, i + 1) == |head| + Offset(rest, sep, i);
      SliceAfter(head, tail, o, |sep|);
    }
  }

  /** A joined string ends with its last part: nothing follows it. */
  lemma {:induction false} JoinLength(parts: seq<string>, sep: string)
    requires |parts| >= 1
    ensures |Join(parts, sep)| == Offset(parts, sep, |parts| - 1) + |parts[|parts| - 1]|
  {
    if |parts| > 1 {
      var rest := parts[1..];
      JoinLength(rest, sep);
      assert rest[|rest| - 1] == parts[|parts| - 1];
      assert Join(parts, sep) == parts[0] + sep + Join(rest, sep);
    }
  }

  /** Every character of a joined string comes from a part or from the separator. */
  lemma {:induction false} JoinKeeps(parts: seq<string>, sep: string, p: char -> bool)
    requires forall k, j :: 0 <= k < |parts| && 0 <= j < |parts[k]| ==> p(parts[k][j])
    requires forall j :: 0 <= j < |sep| ==> p(sep[j])
    ensures forall j :: 0 <= j < |Join(parts, sep)| ==> p(Join(parts, sep)[j])
  {
    if |parts| > 1 {
      JoinKeeps(parts[1..], sep, p);
      var tail := Join(parts[1..], sep);
      assert Join(parts, sep) == parts[0] + sep + tail;
      forall j | 0 <= j < |Join(parts, sep)| ensures p(Join(parts, sep)[j]) {
        if j < |parts[0]| {
          assert Join(parts, sep)[j] == parts[0][j];
        } else if j < |parts[0]| + |sep| {
          assert Join(parts, sep)[j] == sep[j - |parts[0]|];
        } else {
          assert Join(parts, sep)[j] == tail[j - |parts[0]| - |sep|];
        }
      }
    }
  }

  /** A string without the separator is one piece. */
  lemma {:induction false} SplitWhole(s: string, sep: char)
    requires forall j :: 0 <= j < |s| ==> s[j] != sep
    ensures Split(s, sep) == [s]
  {
    if s != [] {
      SplitWhole(s[1..], sep);
      assert [s[0]] + s[1..] == s;
    }
  }

  /** Splitting at the first separator yields the text before it as the first piece. */
  lemma {:induction false} SplitAtFirst(a: string, sep: char, b: string)
    requires forall j :: 0 <= j < |a| ==> a[j] != sep
    ensures Split(a + [sep] + b, sep) == [a] + Split(b, sep)
  {
    if a == [] {
      assert a + [sep] + b == [sep] + b;
      assert ([sep] + b)[1..] == b;
    } else {
      SplitAtFirst(a[1..], sep, b);
      assert (a + [sep] + b)[1..] == a[1..] + [sep] + b;
      assert [a[0]] + a[1..] == a;
    }
  }

  /** Splitting a joined list gives the list back when no part holds the separator. */
  lemma {:induction false} SplitJoin(parts: seq<string>, sep: char)
    requires |parts| >= 1
    requires forall k, j :: 0 <= k < |parts| && 0 <= j < |parts[k]| ==> parts[k][j] != sep
    ensures Split(Join(parts, [sep]), sep) == parts
  {
    if |parts| == 1 {
      SplitWhole(parts[0], sep);
    } else {
      SplitJoin(parts[1..], sep);
      SplitAtFirst(parts[0], sep, Join(parts[1..], [sep]));
      assert [parts[0]] + parts[1..] == parts;
    }
  }
}
