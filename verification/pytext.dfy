/**
 * The Python string methods the script uses on single lines of text:
 * `str.strip()`, `str.split(sep)` with a one-character separator,
 * `sep.join(parts)`, `str.startswith(prefix)` and `str.replace(old, new)`.
 */
module PyText {

  /** The characters `str.isspace()` accepts, which `str.strip()` removes. */
  predicate IsSpace(c: char) {
    || c == ' ' || c == '\t' || c == '\n' || c == '\r'
    || c == '\U{B}' || c == '\U{C}'
    || ('\U{1C}' <= c <= '\U{1F}')
    || c == '\U{85}' || c == '\U{A0}' || c == '\U{1680}'
    || ('\U{2000}' <= c <= '\U{200A}')
    || c == '\U{2028}' || c == '\U{2029}' || c == '\U{202F}' || c == '\U{205F}' || c == '\U{3000}'
  }

  predicate AllSpace(s: string) {
    forall i :: 0 <= i < |s| ==> IsSpace(s[i])
  }

  /** True when `s` has no white space at either end. */
  predicate Trimmed(s: string) {
    s == [] || (!IsSpace(s[0]) && !IsSpace(s[|s| - 1]))
  }

  function StripLeft(s: string): (r: string)
    ensures |r| <= |s| && r == s[|s| - |r|..]
    ensures AllSpace(s[..|s| - |r|])
    ensures r == [] || !IsSpace(r[0])
  {
    if s != [] && IsSpace(s[0]) then StripLeft(s[1..]) else s
  }

  function StripRight(s: string): (r: string)
    ensures |r| <= |s| && r == s[..|r|]
    ensures AllSpace(s[|r|..])
    ensures r == [] || !IsSpace(r[|r| - 1])
  {
    if s != [] && IsSpace(s[|s| - 1]) then StripRight(s[..|s| - 1]) else s
  }

  /** `s.strip()`: `s` with the white space at both ends removed. */
  function Strip(s: string): (r: string)
    ensures Trimmed(r)
  {
    StripRight(StripLeft(s))
  }

  /** `r` sits at index `a` of `s` with only white space before and after it. */
  predicate SpaceAround(s: string, r: string, a: int) {
    0 <= a <= |s| - |r| && r == s[a..a + |r|] && AllSpace(s[..a]) && AllSpace(s[a + |r|..])
  }

  /** What `Strip` removes is white space at the two ends, and nothing else. */
  lemma StripRemovesOnlyOuterSpace(s: string)
    ensures exists a :: SpaceAround(s, Strip(s), a)
  {
    var l := StripLeft(s);
    var a := |s| - |l|;
    RightSpaceAround(s, l, a);
    assert Strip(s) == StripRight(l);
    assert SpaceAround(s, Strip(s), a);
  }

  lemma RightSpaceAround(s: string, l: string, a: int)
    requires 0 <= a <= |s| && l == s[a..] && AllSpace(s[..a])
    ensures SpaceAround(s, StripRight(l), a)
  {
    var r := StripRight(l);
    assert r == s[a..a + |r|];
    assert s[a + |r|..] == l[|r|..];
  }

  /** Stripping a string that has no white space at its ends leaves it as it is. */
  lemma StripTrimmed(s: string)
    requires Trimmed(s)
    ensures Strip(s) == s
  {
  }

  /** `s.startswith(p)` */
  predicate StartsWith(s: string, p: string) {
    |p| <= |s| && s[..|p|] == p
  }

  /**
   * The index of the first `c` in `s`, or `|s|` when there is none: the
   * search of `str.split` and, for a `c` that occurs, `list.index`.
   */
  function Find<T(==)>(s: seq<T>, c: T): (i: nat)
    ensures i <= |s|
    ensures i < |s| ==> s[i] == c
    ensures forall k :: 0 <= k < i ==> s[k] != c
  {
    if s == [] then 0
    else if s[0] == c then 0
    else 1 + Find(s[1..], c)
  }

  /** `sep.join(parts)` */
  function Join(parts: seq<string>, sep: char): string {
    if |parts| == 0 then ""
    else if |parts| == 1 then parts[0]
    else parts[0] + [sep] + Join(parts[1..], sep)
  }

  /** `s.split(sep)`: the maximal pieces of `s` between occurrences of `sep`. */
  function Split(s: string, sep: char): (parts: seq<string>)
    ensures |parts| >= 1
    ensures forall i :: 0 <= i < |parts| ==> sep !in parts[i]
    ensures Join(parts, sep) == s
    decreases |s|
  {
    var i := Find(s, sep);
    if i == |s| then
      [s]
    else
      var rest := Split(s[i + 1..], sep);
      assert s == s[..i] + [sep] + s[i + 1..];
      [s[..i]] + rest
  }

  /** Splitting what `Join` built gives back the pieces, when no piece holds the separator. */
  lemma {:induction false} SplitJoin(parts: seq<string>, sep: char)
    requires |parts| >= 1
    requires forall i :: 0 <= i < |parts| ==> sep !in parts[i]
    ensures Split(Join(parts, sep), sep) == parts
  {
    if |parts| > 1 {
      var a, rest := parts[0], parts[1..];
      var t := Join(rest, sep);
      var s := Join(parts, sep);
      assert s == a + [sep] + t;
      FindAfter(a, sep, t);
      assert s[..|a|] == a && s[|a| + 1..] == t;
      assert forall i :: 0 <= i < |rest| ==> sep !in rest[i] by {
        assert forall i :: 0 <= i < |rest| ==> rest[i] == parts[i + 1];
      }
      SplitJoin(rest, sep);
      assert Split(s, sep) == [a] + rest;
      assert [a] + rest == parts;
    }
  }

  /** A joined text begins with the first piece's first character and ends with the last piece's last one. */
  lemma {:induction false} JoinEnds(parts: seq<string>, sep: char)
    requires |parts| >= 1 && parts[0] != [] && parts[|parts| - 1] != []
    ensures var s := Join(parts, sep);
            |s| > 0 && s[0] == parts[0][0] && s[|s| - 1] == parts[|parts| - 1][|parts[|parts| - 1]| - 1]
  {
    if |parts| > 1 {
      var rest := parts[1..];
      if |rest| > 1 || rest[0] != [] {
        JoinEndsRest(rest, sep);
      }
    }
  }

  lemma {:induction false} JoinEndsRest(parts: seq<string>, sep: char)
    requires |parts| >= 1 && parts[|parts| - 1] != []
    ensures var s := Join(parts, sep);
            |s| > 0 && s[|s| - 1] == parts[|parts| - 1][|parts[|parts| - 1]| - 1]
  {
    if |parts| > 1 {
      JoinEndsRest(parts[1..], sep);
    }
  }

  lemma FindAfter(a: string, c: char, b: string)
    requires c !in a
    ensures Find(a + [c] + b, c) == |a|
  {
    var s := a + [c] + b;
    assert forall k :: 0 <= k < |a| ==> s[k] == a[k];
    assert s[|a|] == c;
  }

  /**
   * `s.replace(pat, rep)`: scanning left to right, every occurrence of `pat`
   * that does not overlap an earlier replaced one becomes `rep`.
   */
  function Replace(s: string, pat: string, rep: string): (r: string)
    requires |pat| > 0
    ensures |pat| == |rep| ==> |r| == |s|
    decreases |s|
  {
    if StartsWith(s, pat) then rep + Replace(s[|pat|..], pat, rep)
    else if s == [] then []
    else [s[0]] + Replace(s[1..], pat, rep)
  }

  /** True when some occurrence of `pat` in `s` begins before index `n`. */
  predicate OccursBefore(s: string, pat: string, n: nat) {
    exists i :: 0 <= i < n && i <= |s| && StartsWith(s[i..], pat)
  }

  /** Text in front of which no occurrence of `pat` begins is copied unchanged. */
  lemma {:induction false} ReplaceAfterPrefix(a: string, b: string, pat: string, rep: string)
    requires |pat| > 0
    requires !OccursBefore(a + b, pat, |a|)
    ensures Replace(a + b, pat, rep) == a + Replace(b, pat, rep)
  {
    if a != [] {
      var s := a + b;
      assert s[0..] == s;
      assert !StartsWith(s, pat);
      var t := a[1..] + b;
      assert s[1..] == t;
      forall i | 0 <= i < |a[1..]| && i <= |t|
        ensures !StartsWith(t[i..], pat)
      {
        assert t[i..] == s[i + 1..];
        assert !StartsWith(s[i + 1..], pat);
      }
      ReplaceAfterPrefix(a[1..], b, pat, rep);
      calc {
        Replace(s, pat, rep);
        [s[0]] + Replace(t, pat, rep);
        [a[0]] + (a[1..] + Replace(b, pat, rep));
        { assert a == [a[0]] + a[1..]; }
        a + Replace(b, pat, rep);
      }
    } else {
      assert a + b == b;
    }
  }

  /** Text holding no occurrence of `pat` is left as it is. */
  lemma ReplaceAbsent(s: string, pat: string, rep: string)
    requires |pat| > 0
    requires !OccursBefore(s, pat, |s| + 1)
    ensures Replace(s, pat, rep) == s
  {
    assert s + [] == s;
    ReplaceAfterPrefix(s, [], pat, rep);
    assert Replace([], pat, rep) == [] by {
      assert !StartsWith([], pat);
    }
  }

  /** Replacing a one-character pattern by nothing leaves no occurrence of that character. */
  lemma {:induction false} ReplaceRemovesChar(s: string, c: char)
    ensures c !in Replace(s, [c], [])
    decreases |s|
  {
    if StartsWith(s, [c]) {
      ReplaceRemovesChar(s[1..], c);
    } else if s != [] {
      assert s[0] != c;
      ReplaceRemovesChar(s[1..], c);
    }
  }

  /** Removing a character that does not occur leaves the text as it is. */
  lemma {:induction false} ReplaceCharAbsent(s: string, c: char)
    requires c !in s
    ensures Replace(s, [c], []) == s
    decreases |s|
  {
    if s != [] {
      assert s[0] != c;
      assert !StartsWith(s, [c]);
      assert c !in s[1..];
      ReplaceCharAbsent(s[1..], c);
      assert s == [s[0]] + s[1..];
    } else {
      assert !StartsWith(s, [c]);
    }
  }
}
