/** The Python string operations `safe_parse_json` and `allowed_file` use:
    `str.strip`, `str.find`, `str.rfind` and `str.lower`. */
module Text {

  /** The characters for which Python's `str.isspace()` holds, which `str.strip()` removes. */
  predicate IsSpace(c: char) {
    c == ' ' || '\t' <= c <= '\r' || '\U{1C}' <= c <= '\U{1F}'
    || c == '\U{85}' || c == '\U{A0}' || c == '\U{1680}'
    || '\U{2000}' <= c <= '\U{200A}' || c == '\U{2028}' || c == '\U{2029}'
    || c == '\U{202F}' || c == '\U{205F}' || c == '\U{3000}'
  }

  /** Number of leading whitespace characters of `s`. */
  function StripStart(s: string): (lo: nat)
    ensures lo <= |s|
    ensures forall k :: 0 <= k < lo ==> IsSpace(s[k])
    ensures lo < |s| ==> !IsSpace(s[lo])
  {
    if s == [] || !IsSpace(s[0]) then 0
    else
      var rest := StripStart(s[1..]);
      assert forall k :: 1 <= k < 1 + rest ==> s[k] == s[1..][k - 1];
      1 + rest
  }

  /** End of `s` once the trailing whitespace after position `lo` is dropped. */
  function StripEnd(s: string, lo: nat): (hi: nat)
    requires lo <= |s|
    ensures lo <= hi <= |s|
    ensures forall k :: hi <= k < |s| ==> IsSpace(s[k])
    ensures lo < hi ==> !IsSpace(s[hi - 1])
    decreases |s|
  {
    if |s| == lo || !IsSpace(s[|s| - 1]) then |s|
    else
      var hi := StripEnd(s[..|s| - 1], lo);
      assert forall k :: hi <= k < |s| - 1 ==> s[k] == s[..|s| - 1][k];
      hi
  }

  /** `s.strip()`: `s` with its leading and trailing whitespace removed. */
  function Strip(s: string): (r: string)
    ensures |r| <= |s|
    ensures r == [] || (!IsSpace(r[0]) && !IsSpace(r[|r| - 1]))
  {
    var lo := StripStart(s);
    s[lo..StripEnd(s, lo)]
  }

  /** Stripping keeps every character that is not whitespace, and removes
      only whitespace. */
  lemma StripKeepsNonSpace(s: string, c: char)
    requires !IsSpace(c)
    ensures c in Strip(s) <==> c in s
  {
    var lo := StripStart(s);
    var hi := StripEnd(s, lo);
    assert Strip(s) == s[lo..hi];
    if c in s {
      var k :| 0 <= k < |s| && s[k] == c;
      assert lo <= k < hi;
      assert s[lo..hi][k - lo] == c;
    }
  }

  /** `s.find(c)`: the first index of `c` in `s`, or -1. */
  function Find(s: string, c: char): (i: int)
    ensures -1 <= i < |s|
  {
    if s == [] then -1
    else if s[0] == c then 0
    else
      var j := Find(s[1..], c);
      if j == -1 then -1 else j + 1
  }

  /** `Find` gives -1 exactly when `c` does not occur, and otherwise the
      index of the first `c`. */
  lemma {:induction false} FindSpec(s: string, c: char)
    ensures Find(s, c) == -1 <==> c !in s
    ensures 0 <= Find(s, c) ==> s[Find(s, c)] == c && c !in s[..Find(s, c)]
  {
    if s != [] && s[0] != c {
      FindSpec(s[1..], c);
      assert s == [s[0]] + s[1..];
      var j := Find(s[1..], c);
      if j != -1 {
        assert s[..j + 1] == [s[0]] + s[1..][..j];
      }
    }
  }

  /** `s.rfind(c)`: the last index of `c` in `s`, or -1. */
  function RFind(s: string, c: char): (i: int)
    ensures -1 <= i < |s|
    decreases |s|
  {
    if s == [] then -1
    else if s[|s| - 1] == c then |s| - 1
    else RFind(s[..|s| - 1], c)
  }

  /** `RFind` gives -1 exactly when `c` does not occur, and otherwise the
      index of the last `c`. */
  lemma {:induction false} RFindSpec(s: string, c: char)
    ensures RFind(s, c) == -1 <==> c !in s
    ensures 0 <= RFind(s, c) ==> s[RFind(s, c)] == c && c !in s[RFind(s, c) + 1..]
    decreases |s|
  {
    if s != [] && s[|s| - 1] != c {
      var init := s[..|s| - 1];
      RFindSpec(init, c);
      assert s == init + [s[|s| - 1]];
      var j := RFind(init, c);
      if j != -1 {
        assert s[j + 1..] == init[j + 1..] + [s[|s| - 1]];
      }
    }
  }

  /** An index holding the first `c` is the one `Find` returns. */
  lemma FindIsFirst(s: string, c: char, i: int)
    requires 0 <= i < |s| && s[i] == c && c !in s[..i]
    ensures Find(s, c) == i
  {
    FindSpec(s, c);
  }

  /** An index holding the last `c` is the one `RFind` returns. */
  lemma RFindIsLast(s: string, c: char, i: int)
    requires 0 <= i < |s| && s[i] == c && c !in s[i + 1..]
    ensures RFind(s, c) == i
  {
    RFindSpec(s, c);
  }

  /** `c.lower()` for ASCII letters. */
  function LowerChar(c: char): char {
    if 'A' <= c <= 'Z' then (c as int + 32) as char else c
  }

  /** `s.lower()`, for ASCII letters. */
  function Lower(s: string): string {
    seq(|s|, i requires 0 <= i < |s| => LowerChar(s[i]))
  }

  /** Lower-casing keeps the length, turns each ASCII capital into its
      lower-case letter, and changes no other character. */
  lemma LowerSpec(s: string)
    ensures |Lower(s)| == |s|
    ensures forall i :: 0 <= i < |s| ==> !('A' <= Lower(s)[i] <= 'Z')
    ensures forall i :: 0 <= i < |s| && !('A' <= s[i] <= 'Z') ==> Lower(s)[i] == s[i]
    ensures forall i :: 0 <= i < |s| && 'A' <= s[i] <= 'Z' ==>
      Lower(s)[i] == "abcdefghijklmnopqrstuvwxyz"[s[i] as int - 'A' as int]
  {
  }
}
