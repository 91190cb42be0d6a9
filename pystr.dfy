/** The few Python `str` operations the pipeline relies on:
    `s.split(sep, 1)` unpacked into two names, and `s.replace(old, new)`
    for single characters. */
module PyStr {
  import opened Wrappers

  /** Index of the first occurrence of `c` in `s`, if there is one. */
  function FirstIndex(s: string, c: char): (r: Option<nat>)
    ensures r.None? <==> c !in s
    ensures r.Some? ==> r.value < |s| && s[r.value] == c && c !in s[..r.value]
  {
    if s == [] then None
    else if s[0] == c then Some(0)
    else match FirstIndex(s[1..], c)
      case None => None
      case Some(i) =>
        assert s[1..][..i] == s[1..i + 1];
        assert s[..i + 1] == [s[0]] + s[1..i + 1];
        Some(i + 1)
  }

  /** `a, b = s.split(sep, 1)`: the parts before and after the FIRST `sep`.
      With no `sep` the split yields a single element and the two-name
      unpacking fails; that failure is `None` here. */
  function SplitOnce(s: string, sep: char): (r: Option<(string, string)>)
    ensures r.None? <==> sep !in s
    ensures r.Some? ==> s == r.value.0 + [sep] + r.value.1 && sep !in r.value.0
  {
    match FirstIndex(s, sep)
    case None => None
    case Some(i) =>
      assert s == s[..i] + [sep] + s[i + 1..];
      Some((s[..i], s[i + 1..]))
  }

  /** The split is undone by joining, and joining is undone by the split
      as long as the left part holds no separator: the split point is the
      first separator, whatever the right part contains. */
  lemma SplitOnceOfJoin(a: string, sep: char, b: string)
    requires sep !in a
    ensures SplitOnce(a + [sep] + b, sep) == Some((a, b))
  {
    var s := a + [sep] + b;
    var i := FirstIndex(s, sep).value;
    assert s[|a|] == sep;
    assert s[..|a|] == a;
    assert i == |a| by {
      assert sep !in s[..|a|];
    }
    assert s[|a| + 1..] == b;
  }

  /** `s.replace(from, to)` with one-character arguments. */
  function ReplaceChar(s: string, from: char, to: char): (r: string)
    ensures |r| == |s|
    ensures forall i :: 0 <= i < |s| ==> r[i] == (if s[i] == from then to else s[i])
  {
    if s == [] then []
    else [if s[0] == from then to else s[0]] + ReplaceChar(s[1..], from, to)
  }

  /** After replacing, no `from` is left (when it is replaced by something
      else); and replacing again changes nothing. */
  lemma ReplaceCharRemoves(s: string, from: char, to: char)
    requires from != to
    ensures from !in ReplaceChar(s, from, to)
    ensures ReplaceChar(ReplaceChar(s, from, to), from, to) == ReplaceChar(s, from, to)
  {
  }
}
