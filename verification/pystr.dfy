/** The Python string operations the backend relies on: `str.split` with a
    one-character separator, `str.join`, and `str.strip()` with its default
    whitespace set. Strings are sequences of code points, as in Python 3. */
module PyStr {

  /** The characters for which Python's `str.isspace()` holds, which is the
      set `str.strip()` removes when called without arguments. */
  predicate IsSpace(c: char) {
    || '\t' <= c <= '\r'
    || '\U{1C}' <= c <= '\U{1F}'
    || c == ' '
    || c == '\U{85}'
    || c == '\U{A0}'
    || c == '\U{1680}'
    || '\U{2000}' <= c <= '\U{200A}'
    || c == '\U{2028}'
    || c == '\U{2029}'
    || c == '\U{202F}'
    || c == '\U{205F}'
    || c == '\U{3000}'
  }

  /** The position of the first `c` in `s`. */
  function IndexOf(s: string, c: char): (i: nat)
    requires c in s
    ensures i < |s| && s[i] == c && c !in s[..i]
  {
    if s[0] == c then 0
    else
      assert s == [s[0]] + s[1..];
      var i := IndexOf(s[1..], c);
      assert s[..i + 1] == [s[0]] + s[1..][..i];
      i + 1
  }

  /** `s.split(sep)`: the pieces between occurrences of `sep`, empty pieces
      included, so there is always one more piece than separators. */
  function Split(s: string, sep: char): (pieces: seq<string>)
    ensures |pieces| == multiset(s)[sep] + 1
    ensures forall i :: 0 <= i < |pieces| ==> sep !in pieces[i]
    decreases |s|
  {
    if sep !in s then [s]
    else
      var i := IndexOf(s, sep);
      SplitAtIndex(s, i, sep);
      [s[..i]] + Split(s[i + 1..], sep)
  }

  lemma SplitAtIndex(s: string, i: nat, sep: char)
    requires i < |s| && s[i] == sep && sep !in s[..i]
    ensures multiset(s)[sep] == multiset(s[i + 1..])[sep] + 1
  {
    assert s == s[..i] + [sep] + s[i + 1..];
  }

  /** `glue.join(parts)`. */
  function Join(parts: seq<string>, glue: string): string {
    if parts == [] then ""
    else if |parts| == 1 then parts[0]
    else parts[0] + glue + Join(parts[1..], glue)
  }

  lemma JoinCons(parts: seq<string>, glue: string)
    requires |parts| >= 2
    ensures Join(parts, glue) == parts[0] + glue + Join(parts[1..], glue)
  {
  }

  /** Joining the pieces back with the separator restores the string. */
  lemma {:induction false} JoinSplit(s: string, sep: char)
    ensures Join(Split(s, sep), [sep]) == s
    decreases |s|
  {
    if sep in s {
      var i := IndexOf(s, sep);
      var rest := Split(s[i + 1..], sep);
      JoinSplit(s[i + 1..], sep);
      JoinCons([s[..i]] + rest, [sep]);
      assert ([s[..i]] + rest)[1..] == rest;
      assert s == s[..i] + [sep] + s[i + 1..];
    }
  }

  /** A separator-free head followed by a separator splits off as one piece. */
  lemma SplitAfterPiece(a: string, b: string, sep: char)
    requires sep !in a
    ensures Split(a + [sep] + b, sep) == [a] + Split(b, sep)
  {
    var s := a + [sep] + b;
    assert s[|a|] == sep;
    var i := IndexOf(s, sep);
    assert forall j :: 0 <= j < |a| ==> s[j] == a[j];
    assert forall j :: 0 <= j < i ==> s[..i][j] == s[j];
    assert i == |a|;
    assert s[..i] == a && s[i + 1..] == b;
  }

  /** Splitting a join of separator-free pieces recovers the pieces. */
  lemma {:induction false} SplitJoin(parts: seq<string>, sep: char)
    requires |parts| > 0
    requires forall i :: 0 <= i < |parts| ==> sep !in parts[i]
    ensures Split(Join(parts, [sep]), sep) == parts
  {
    if |parts| > 1 {
      SplitJoin(parts[1..], sep);
      SplitAfterPiece(parts[0], Join(parts[1..], [sep]), sep);
      assert parts == [parts[0]] + parts[1..];
    }
  }

  /** `s.lstrip()`: drops the leading whitespace and nothing else. */
  function StripLeft(s: string): (r: string)
    ensures |r| <= |s| && r == s[|s| - |r|..]
    ensures forall k :: 0 <= k < |s| - |r| ==> IsSpace(s[k])
    ensures r != [] ==> !IsSpace(r[0])
  {
    if s != [] && IsSpace(s[0]) then StripLeft(s[1..]) else s
  }

  /** `s.rstrip()`: drops the trailing whitespace and nothing else. */
  function StripRight(s: string): (r: string)
    ensures |r| <= |s| && r == s[..|r|]
    ensures forall k :: |r| <= k < |s| ==> IsSpace(s[k])
    ensures r != [] ==> !IsSpace(r[|r| - 1])
  {
    if s != [] && IsSpace(s[|s| - 1]) then StripRight(s[..|s| - 1]) else s
  }

  /** `s.strip()`: empty exactly when `s` is all whitespace; otherwise it
      starts and ends with a non-whitespace character of `s`. */
  function Strip(s: string): (r: string)
    ensures r == [] <==> forall k :: 0 <= k < |s| ==> IsSpace(s[k])
    ensures r != [] ==> !IsSpace(r[0]) && !IsSpace(r[|r| - 1])
    ensures |r| <= |s|
  {
    var left := StripLeft(s);
    StripBothEnds(s, left, StripRight(left));
    StripRight(left)
  }

  lemma StripBothEnds(s: string, left: string, r: string)
    requires left == StripLeft(s) && r == StripRight(left)
    ensures r == [] <==> forall k :: 0 <= k < |s| ==> IsSpace(s[k])
    ensures r != [] ==> !IsSpace(r[0]) && !IsSpace(r[|r| - 1])
  {
    if left != [] {
      assert left[0] == s[|s| - |left|];
      assert r != [];
      assert r[0] == left[0];
    }
  }
}
