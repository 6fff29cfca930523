/**
 * The POSIX `os.path` functions the report writer uses to place the plot
 * next to the report: `dirname`, `basename` and `join`, and the plot path
 * derived from them (eval_somatic_control.py, lines 81-84).
 */
module PyPath {
  import opened PyText

  /** The index just after the last `/` of `p`, or 0 when `p` has none. */
  function LastSlashEnd(p: string): (i: nat)
    ensures i <= |p|
    ensures i > 0 ==> p[i - 1] == '/'
    ensures forall k :: i <= k < |p| ==> p[k] != '/'
  {
    if p == [] then 0
    else if p[|p| - 1] == '/' then |p|
    else LastSlashEnd(p[..|p| - 1])
  }

  predicate AllSlashes(s: string) {
    forall k :: 0 <= k < |s| ==> s[k] == '/'
  }

  /** `s.rstrip('/')` */
  function StripTrailingSlashes(s: string): (r: string)
    ensures |r| <= |s| && r == s[..|r|]
    ensures forall k :: |r| <= k < |s| ==> s[k] == '/'
    ensures r == [] || r[|r| - 1] != '/'
  {
    if s != [] && s[|s| - 1] == '/' then StripTrailingSlashes(s[..|s| - 1]) else s
  }

  /** `os.path.basename(p)`: what follows the last `/`. */
  function BaseName(p: string): (b: string)
    ensures '/' !in b
  {
    var i := LastSlashEnd(p);
    assert forall k :: 0 <= k < |p[i..]| ==> p[i..][k] == p[i + k];
    p[i..]
  }

  /**
   * `os.path.dirname(p)`: what precedes the last `/`, without its trailing
   * slashes unless it consists of slashes only.
   */
  function DirName(p: string): string {
    DirOfHead(p[..LastSlashEnd(p)])
  }

  /** The part of a path through its last slash, as `dirname` reports it. */
  function DirOfHead(head: string): string {
    if head != [] && !AllSlashes(head) then StripTrailingSlashes(head) else head
  }

  /** `os.path.join(a, b)` for two components. */
  function JoinPath(a: string, b: string): string {
    if StartsWith(b, "/") then b
    else if a == [] || a[|a| - 1] == '/' then a + b
    else a + "/" + b
  }

  /**
   * The plot path for a report path: the report's directory joined with its
   * base name in which every `.tsv` is replaced by `.png`.
   */
  function ImagePath(outputCsv: string): string {
    JoinPath(DirName(outputCsv), Replace(BaseName(outputCsv), ".tsv", ".png"))
  }

  /** True when no two slashes in `p` are adjacent. */
  predicate NoDoubleSlash(p: string) {
    forall k :: 0 <= k < |p| - 1 ==> !(p[k] == '/' && p[k + 1] == '/')
  }

  /** A replacement that brings no slash in leaves a slash-free text slash-free. */
  lemma {:induction false} ReplaceKeepsSlashFree(s: string, pat: string, rep: string)
    requires |pat| > 0 && '/' !in s && '/' !in rep
    ensures '/' !in Replace(s, pat, rep)
    decreases |s|
  {
    if StartsWith(s, pat) {
      assert forall k :: 0 <= k < |s[|pat|..]| ==> s[|pat|..][k] == s[|pat| + k];
      ReplaceKeepsSlashFree(s[|pat|..], pat, rep);
    } else if s != [] {
      assert forall k :: 0 <= k < |s[1..]| ==> s[1..][k] == s[1 + k];
      ReplaceKeepsSlashFree(s[1..], pat, rep);
    }
  }

  /**
   * When the path has no doubled slash, the plot path is the report path with
   * its directory part (through the last slash) kept character for character
   * and only the base name rewritten.
   */
  lemma ImagePathKeepsDirectory(p: string)
    requires NoDoubleSlash(p)
    ensures ImagePath(p) == p[..LastSlashEnd(p)] + Replace(BaseName(p), ".tsv", ".png")
    ensures |ImagePath(p)| == |p|
  {
    var i := LastSlashEnd(p);
    var name := Replace(BaseName(p), ".tsv", ".png");
    ImageNameSlashFree(p);
    HeadNoDoubleSlash(p, i);
    JoinDirOfHead(p[..i], name);
    assert |p[..i]| + |BaseName(p)| == |p|;
  }

  lemma ImageNameSlashFree(p: string)
    ensures !StartsWith(Replace(BaseName(p), ".tsv", ".png"), "/")
  {
    var name := Replace(BaseName(p), ".tsv", ".png");
    ReplaceKeepsSlashFree(BaseName(p), ".tsv", ".png");
    if |name| >= 1 {
      assert name[0] in name;
    }
  }

  lemma HeadNoDoubleSlash(p: string, i: nat)
    requires NoDoubleSlash(p) && i <= |p|
    ensures NoDoubleSlash(p[..i])
  {
    assert forall k :: 0 <= k < i ==> p[..i][k] == p[k];
  }

  /** Joining a name that does not start with a slash back onto `dirname` restores the head. */
  lemma JoinDirOfHead(head: string, name: string)
    requires head == [] || head[|head| - 1] == '/'
    requires NoDoubleSlash(head)
    requires !StartsWith(name, "/")
    ensures JoinPath(DirOfHead(head), name) == head + name
  {
    var n := |head|;
    if head != [] && !AllSlashes(head) {
      assert n >= 2;
      assert head[n - 2] != '/';
      var y := head[..n - 1];
      assert StripTrailingSlashes(head) == StripTrailingSlashes(y);
      assert y[|y| - 1] != '/';
      assert StripTrailingSlashes(y) == y;
      assert head == y + "/";
    }
  }

  /** A base name ending in `.tsv`, with no earlier `.tsv`, gets the extension `.png`. */
  lemma ImageNameOfTsv(stem: string)
    requires !OccursBefore(stem + ".tsv", ".tsv", |stem|)
    ensures Replace(stem + ".tsv", ".tsv", ".png") == stem + ".png"
  {
    ReplaceAfterPrefix(stem, ".tsv", ".tsv", ".png");
    assert Replace(".tsv", ".tsv", ".png") == ".png" by {
      assert StartsWith(".tsv", ".tsv");
      assert ".tsv"[4..] == [];
      assert !StartsWith([], ".tsv");
    }
  }

  /**
   * A report whose base name holds no `.tsv` gets a plot path equal to its
   * own path.
   */
  lemma ImagePathWithoutTsv(p: string)
    requires NoDoubleSlash(p)
    requires !OccursBefore(BaseName(p), ".tsv", |BaseName(p)| + 1)
    ensures ImagePath(p) == p
  {
    ImagePathKeepsDirectory(p);
    ReplaceAbsent(BaseName(p), ".tsv", ".png");
    HeadAndBase(p);
  }

  /** A path is its part through the last slash followed by its base name. */
  lemma HeadAndBase(p: string)
    ensures p[..LastSlashEnd(p)] + BaseName(p) == p
  {
    var i := LastSlashEnd(p);
    assert BaseName(p) == p[i..];
  }
}
