/**
  Datum enumeration: every path of a view that the glob matches is a datum, a
  directory standing for its whole subtree. Paths are slash separated and
  relative; the empty path is the root of the view.
 */
module Enumerate {
  import opened Sequences
  import opened Sorting
  import opened Paths

  // ---- globs ----

  /** A pattern, and the library's match of patterns against paths. */
  datatype Glob = Glob(pattern: string, matches: (string, string) -> bool)

  /** Matching by literals, `?` and `*`, which never cross a separator. */
  predicate Match(p: string, s: string)
    decreases |p| + |s|
  {
    if p == [] then s == []
    else if p[0] == '*' then Match(p[1..], s) || (s != [] && s[0] != '/' && Match(p, s[1..]))
    else if s == [] then false
    else if p[0] == '?' then s[0] != '/' && Match(p[1..], s[1..])
    else p[0] == s[0] && Match(p[1..], s[1..])
  }

  /** The pattern without its leading slash. */
  function Trim(glob: Glob): string {
    if glob.pattern != [] && glob.pattern[0] == '/' then glob.pattern[1..] else glob.pattern
  }

  predicate GlobMatches(glob: Glob, path: string) {
    var p := Trim(glob);
    if path == "" then p == "" || p == "**"
    else p == "**" || glob.matches(p, path)
  }

  /** On this pattern the library matches as described above: it has no character class and no escape. */
  ghost predicate Plain(glob: Glob) {
    forall path :: glob.matches(Trim(glob), path) <==> Match(Trim(glob), path)
  }

  function Slashes(s: string): nat {
    if s == [] then 0 else (if s[0] == '/' then 1 else 0) + Slashes(s[1..])
  }

  /** A match fixes the depth of the path. */
  lemma {:induction false} MatchDepth(p: string, s: string)
    requires Match(p, s)
    ensures Slashes(p) == Slashes(s)
    decreases |p| + |s|
  {
    if p != [] {
      if p[0] == '*' {
        if Match(p[1..], s) {
          MatchDepth(p[1..], s);
        } else {
          MatchDepth(p, s[1..]);
        }
      } else {
        MatchDepth(p[1..], s[1..]);
      }
    }
  }

  // ---- paths ----

  /** `c` is `f` or one of the directories above it. */
  predicate AtOrAbove(c: string, f: string) {
    c == f || c == "" || Under(c, f)
  }

  lemma {:induction false} SlashesPrefix(a: string, b: string)
    requires a <= b
    ensures Slashes(a) <= Slashes(b)
  {
    if a != [] {
      assert a[1..] <= b[1..];
      SlashesPrefix(a[1..], b[1..]);
    }
  }

  lemma {:induction false} SlashesEnd(a: string)
    ensures Slashes(a + "/") == Slashes(a) + 1
  {
    if a != [] {
      assert (a + "/")[1..] == a[1..] + "/";
      SlashesEnd(a[1..]);
    }
  }

  lemma UnderDeeper(d: string, f: string)
    requires Under(d, f)
    ensures Slashes(d) < Slashes(f)
  {
    SlashesEnd(d);
    SlashesPrefix(d + "/", f);
  }

  lemma {:induction false} PrefixLess(a: string, b: string)
    requires a < b
    ensures StringLess(a, b)
  {
    if a != [] {
      assert a[1..] < b[1..];
      PrefixLess(a[1..], b[1..]);
    }
  }

  // ---- what the enumeration is ----

  datatype Side = Side(id: string, files: seq<string>)

  /** A file path of the view, one of its directories, or the root. */
  ghost predicate Candidate(view: set<string>, c: string) {
    c == "" || exists f <- view :: AtOrAbove(c, f)
  }

  /** What a selected path stands for. */
  predicate Holds(view: set<string>, c: string, f: string) {
    f in view && if c in view then f == c else (c == "" || Under(c, f))
  }

  /** A matching directory of the view takes the file `c` with its subtree. */
  ghost predicate Shadowed(view: set<string>, glob: Glob, c: string) {
    c in view && exists d :: Candidate(view, d) && d !in view && GlobMatches(glob, d) && Holds(view, d, c)
  }

  ghost predicate Selected(view: set<string>, glob: Glob, c: string) {
    Candidate(view, c) && GlobMatches(glob, c) && !Shadowed(view, glob, c)
  }

  /** Each path once, in path order. */
  ghost predicate Lined(files: seq<string>) {
    Distinct(files) && SortedBy(StringLess, files)
  }

  ghost predicate Enumeration(view: set<string>, glob: Glob, out: seq<Side>) {
    && (forall i, j :: 0 <= i < j < |out| ==> StringLess(out[i].id, out[j].id))
    && (forall c :: Selected(view, glob, c) <==> exists i :: 0 <= i < |out| && out[i].id == c)
    && (forall i :: 0 <= i < |out| ==> Lined(out[i].files) && forall f :: f in out[i].files <==> Holds(view, out[i].id, f))
  }

  /** Relative paths, none of which is a directory of another. */
  ghost predicate Tree(view: set<string>) {
    && (forall f <- view :: f != "" && f[0] != '/')
    && (forall a, b :: a in view && b in view ==> !Under(a, b))
  }

  /** Some path at or above the file matches. */
  ghost predicate Covered(glob: Glob, f: string) {
    exists c :: AtOrAbove(c, f) && GlobMatches(glob, c)
  }

  lemma SameDepthAbove(c: string, d: string, f: string)
    requires Under(c, f) && Under(d, f) && Slashes(c) == Slashes(d)
    ensures c == d
  {
    if |c| < |d| {
      assert d == f[..|d|] && c + "/" == f[..|c| + 1];
      assert c + "/" <= d;
      UnderDeeper(c, d);
    } else if |d| < |c| {
      assert c == f[..|c|] && d + "/" == f[..|d| + 1];
      assert d + "/" <= c;
      UnderDeeper(d, c);
    } else {
      assert c == f[..|c|] && d == f[..|d|];
    }
  }

  /** Matching paths of one file coincide: a glob matches at a single depth. */
  lemma OneDepth(glob: Glob, c: string, d: string, f: string)
    requires Plain(glob) && Trim(glob) != "**"
    requires AtOrAbove(c, f) && AtOrAbove(d, f) && GlobMatches(glob, c) && GlobMatches(glob, d)
    ensures c == d
  {
    var p := Trim(glob);
    if p != "" {
      assert c != "" && d != "";
      MatchDepth(p, c);
      MatchDepth(p, d);
      if c == f {
        if d != f {
          UnderDeeper(d, f);
        }
      } else if d == f {
        UnderDeeper(c, f);
      } else {
        SameDepthAbove(c, d, f);
      }
    }
  }

  /** `d` is the root or a directory above the file. */
  predicate Above(d: string, f: string) {
    d == "" || Under(d, f)
  }

  lemma DirectorySelected(view: set<string>, glob: Glob, d: string, f: string)
    requires Tree(view) && f in view && Above(d, f) && GlobMatches(glob, d)
    ensures d !in view && Selected(view, glob, d) && Holds(view, d, f)
  {
    assert AtOrAbove(d, f);
  }

  /** Whatever the matcher, the files in datums are exactly those at or under a matching path. */
  lemma CoveredExactly(view: set<string>, glob: Glob, out: seq<Side>, f: string)
    requires Tree(view) && Enumeration(view, glob, out)
    ensures (exists i :: 0 <= i < |out| && f in out[i].files) <==> f in view && Covered(glob, f)
  {
    if i :| 0 <= i < |out| && f in out[i].files {
      assert Selected(view, glob, out[i].id) && Holds(view, out[i].id, f);
      assert AtOrAbove(out[i].id, f);
    }
    if f in view && Covered(glob, f) {
      var c :| AtOrAbove(c, f) && GlobMatches(glob, c);
      if Shadowed(view, glob, c) {
        c :| Candidate(view, c) && c !in view && GlobMatches(glob, c) && Holds(view, c, f);
      }
      assert Selected(view, glob, c) && Holds(view, c, f);
      var i :| 0 <= i < |out| && out[i].id == c;
    }
  }

  /** A file in another datum's directory is no datum of its own. */
  lemma TakenNotSelected(view: set<string>, glob: Glob, d: string, f: string)
    requires Selected(view, glob, d) && Holds(view, d, f) && d != f
    ensures Shadowed(view, glob, f)
  {
  }

  lemma TwoDatums(view: set<string>, glob: Glob, out: seq<Side>, f: string, i: nat, j: nat)
    requires Enumeration(view, glob, out) && i < j < |out| && f in out[i].files && f in out[j].files
    ensures out[i].id != out[j].id && Above(out[i].id, f) && Above(out[j].id, f)
    ensures GlobMatches(glob, out[i].id) && GlobMatches(glob, out[j].id)
  {
    var c, d := out[i].id, out[j].id;
    StringTrichotomy(c, d);
    assert Selected(view, glob, c) && Selected(view, glob, d) && Holds(view, c, f) && Holds(view, d, f);
    if c == f {
      TakenNotSelected(view, glob, d, f);
    } else if d == f {
      TakenNotSelected(view, glob, c, f);
    }
  }

  /**
    Whatever the matcher, a file is in at most one datum if and only if at most
    one directory above it matches.
   */
  lemma OnceExactly(view: set<string>, glob: Glob, out: seq<Side>, f: string)
    requires Tree(view) && Enumeration(view, glob, out) && f in view
    ensures (forall i, j :: 0 <= i < j < |out| && f in out[i].files ==> f !in out[j].files) <==>
            (forall c, d :: Above(c, f) && Above(d, f) && GlobMatches(glob, c) && GlobMatches(glob, d) ==> c == d)
  {
    if c, d :| Above(c, f) && Above(d, f) && GlobMatches(glob, c) && GlobMatches(glob, d) && c != d {
      DirectorySelected(view, glob, c, f);
      DirectorySelected(view, glob, d, f);
      var i :| 0 <= i < |out| && out[i].id == c;
      var j :| 0 <= j < |out| && out[j].id == d;
      assert f in out[i].files && f in out[j].files;
    } else {
      forall i, j | 0 <= i < j < |out| && f in out[i].files
        ensures f !in out[j].files
      {
        if f in out[j].files {
          TwoDatums(view, glob, out, f, i, j);
        }
      }
    }
  }

  /**
    A plain glob other than the bare `**` puts each covered file into exactly
    one datum, and no other file into any.
   */
  lemma ExactlyOnce(view: set<string>, glob: Glob, out: seq<Side>)
    requires Tree(view) && Plain(glob) && Trim(glob) != "**" && Enumeration(view, glob, out)
    ensures forall f :: (exists i :: 0 <= i < |out| && f in out[i].files) <==> f in view && Covered(glob, f)
    ensures forall i, j, f :: 0 <= i < j < |out| && f in out[i].files ==> f !in out[j].files
  {
    forall f
      ensures (exists i :: 0 <= i < |out| && f in out[i].files) <==> f in view && Covered(glob, f)
    {
      CoveredExactly(view, glob, out, f);
    }
    forall i, j, f | 0 <= i < j < |out| && f in out[i].files
      ensures f !in out[j].files
    {
      forall c, d | Above(c, f) && Above(d, f) && GlobMatches(glob, c) && GlobMatches(glob, d)
        ensures c == d
      {
        OneDepth(glob, c, d, f);
      }
      OnceExactly(view, glob, out, f);
    }
  }

  /**
    With the bare `**` the root and every directory are datums of their own, so
    a file is in exactly one datum if and only if it lies in no directory.
   */
  lemma DoubleStarRepeats(view: set<string>, glob: Glob, out: seq<Side>, f: string)
    requires Tree(view) && Trim(glob) == "**" && Enumeration(view, glob, out) && f in view
    ensures (forall i, j :: 0 <= i < j < |out| && f in out[i].files ==> f !in out[j].files) <==> '/' !in f
  {
    OnceExactly(view, glob, out, f);
    forall d | Under(d, f)
      ensures '/' in f
    {
      assert f[|d|] == '/';
    }
    assert Above("", f) && GlobMatches(glob, "");
    if '/' in f {
      var k :| 0 <= k < |f| && f[k] == '/';
      assert f[..k] + "/" == f[..k + 1];
      assert k > 0 && f[..k] != "";
      assert Above(f[..k], f) && GlobMatches(glob, f[..k]);
    }
  }

  /** The root is selected by the whole-commit globs, and by no other. */
  lemma RootExactly(glob: Glob)
    ensures GlobMatches(glob, "") <==> glob.pattern in {"", "/", "**", "/**"}
  {
    var p := glob.pattern;
    assert "/"[1..] == "" && "/**"[1..] == "**" && "/" + "" == "/" && "/" + "**" == "/**";
    assert p != [] && p[0] == '/' ==> p == "/" + p[1..];
  }

  /** Patterns are anchored at the root: a leading slash makes no difference. */
  lemma SlashAnchors(glob: Glob, path: string)
    requires glob.pattern == [] || glob.pattern[0] != '/'
    ensures GlobMatches(glob.(pattern := "/" + glob.pattern), path) <==> GlobMatches(glob, path)
  {
    assert ("/" + glob.pattern)[1..] == glob.pattern;
  }

  /** The glob "/" makes one datum of the whole commit. */
  lemma WholeCommit(view: set<string>, glob: Glob, out: seq<Side>)
    requires Tree(view) && Plain(glob) && glob.pattern in {"", "/"} && Enumeration(view, glob, out)
    ensures |out| == 1 && out[0].id == "" && forall f :: f in out[0].files <==> f in view
  {
    forall i, j | 0 <= i < j < |out|
      ensures out[i].id != out[j].id
    {
      StringTrichotomy(out[i].id, out[j].id);
    }
    RootExactly(glob);
    assert Selected(view, glob, "");
    var r :| 0 <= r < |out| && out[r].id == "";
    forall i | 0 <= i < |out|
      ensures out[i].id == ""
    {
      assert Selected(view, glob, out[i].id);
    }
    assert out[0].id == out[r].id && out[|out| - 1].id == out[r].id;
  }

  // ---- the enumeration loop ----

  /** The last separator of a path, or none. */
  method LastSlash(s: string) returns (i: int)
    ensures -1 <= i < |s| && (i >= 0 ==> s[i] == '/') && forall k :: i < k < |s| ==> s[k] != '/'
  {
    i := |s| - 1;
    while i >= 0 && s[i] != '/'
      invariant -1 <= i < |s| && forall k :: i < k < |s| ==> s[k] != '/'
    {
      i := i - 1;
    }
  }

  lemma CutAt(c: string, dir: string, p: string)
    requires Under(c, p) && dir <= p
    ensures |c| < |dir| ==> dir[|c|] == '/'
  {
    assert p[|c|] == '/';
  }

  lemma TopDirectory(dir: string, p: string)
    requires dir <= p && '/' !in dir
    ensures forall c :: Under(c, p) && |c| <= |dir| ==> c == dir
  {
    forall c | Under(c, p) && |c| <= |dir|
      ensures c == dir
    {
      CutAt(c, dir, p);
      assert c == p[..|c|] && dir == p[..|dir|];
    }
  }

  lemma NextDirectory(dir: string, p: string, i: nat)
    requires dir <= p && i < |dir| && dir[i] == '/' && forall k :: i < k < |dir| ==> dir[k] != '/'
    ensures Under(dir[..i], p)
    ensures forall c :: (c == p || Under(c, p)) && i < |c| <= |dir| ==> c == dir
  {
    assert dir[..i] + "/" == dir[..i + 1];
    forall c | (c == p || Under(c, p)) && i < |c| <= |dir|
      ensures c == dir
    {
      if c != p {
        CutAt(c, dir, p);
      }
      assert c == p[..|c|] && dir == p[..|dir|];
    }
  }

  /** Adds a file and every directory above it. */
  method AddPath(cands: set<string>, p: string) returns (more: set<string>)
    ensures forall c :: c in more <==> c in cands || c == p || Under(c, p)
  {
    more := cands;
    var dir := p;
    while true
      invariant dir <= p && (dir == p || Under(dir, p))
      invariant forall c :: c in more <==> c in cands || ((c == p || Under(c, p)) && |c| > |dir|)
      decreases |dir|
    {
      more := more + {dir};
      var i := LastSlash(dir);
      if i < 0 {
        TopDirectory(dir, p);
        break;
      }
      NextDirectory(dir, p, i);
      dir := dir[..i];
    }
  }

  method Candidates(view: set<string>) returns (cands: set<string>)
    ensures forall c :: c in cands <==> Candidate(view, c)
  {
    cands := {""};
    var todo := view;
    while todo != {}
      invariant todo <= view
      invariant forall c :: c in cands <==> c == "" || exists f :: f in view && f !in todo && AtOrAbove(c, f)
    {
      var p :| p in todo;
      ghost var before := cands;
      cands := AddPath(cands, p);
      forall c
        ensures c in cands <==> c == "" || exists f :: f in view && f !in todo - {p} && AtOrAbove(c, f)
      {
        if c in before && c != "" {
          var f :| f in view && f !in todo && AtOrAbove(c, f);
          assert f !in todo - {p};
        } else if c == p || Under(c, p) {
          assert p in view && p !in todo - {p} && AtOrAbove(c, p);
        } else if f :| f in view && f !in todo - {p} && AtOrAbove(c, f) {
          assert f == p || f !in todo;
        }
      }
      todo := todo - {p};
    }
  }

  /** A directory among `done` has taken `f`. */
  ghost predicate TakenBy(view: set<string>, glob: Glob, done: seq<string>, f: string) {
    exists d :: d in done && d !in view && GlobMatches(glob, d) && Holds(view, d, f)
  }

  /** Directories sort before their contents, so the walk has met every directory above its current path. */
  lemma ShadowsKnown(view: set<string>, glob: Glob, cands: seq<string>, i: nat)
    requires SortedBy(StringLess, cands) && (forall c :: c in cands <==> Candidate(view, c))
    requires i < |cands|
    ensures TakenBy(view, glob, cands[..i], cands[i]) <==> Shadowed(view, glob, cands[i])
  {
    var c := cands[i];
    if Shadowed(view, glob, c) {
      var d :| Candidate(view, d) && d !in view && GlobMatches(glob, d) && Holds(view, d, c);
      assert d in cands;
      var k :| 0 <= k < |cands| && cands[k] == d;
      assert d < c;
      PrefixLess(d, c);
      assert k < i;
      assert cands[..i][k] == d;
    }
  }

  /** A matched path's files: itself, or its sorted subtree. */
  method FilesOf(view: set<string>, c: string) returns (files: seq<string>)
    ensures Lined(files) && forall f :: f in files <==> Holds(view, c, f)
  {
    if c in view {
      files := [c];
    } else {
      files := SortedListing(set p | p in view && (c == "" || Under(c, p)));
    }
  }

  /** `out` lists the selected paths among `done`. */
  ghost predicate Listed(view: set<string>, glob: Glob, done: seq<string>, out: seq<Side>) {
    && (forall a, b :: 0 <= a < b < |out| ==> StringLess(out[a].id, out[b].id))
    && (forall c :: c in done && Selected(view, glob, c) <==> exists a :: 0 <= a < |out| && out[a].id == c)
    && (forall a :: 0 <= a < |out| ==> Lined(out[a].files) && forall f :: f in out[a].files <==> Holds(view, out[a].id, f))
  }

  lemma ListNext(view: set<string>, glob: Glob, cands: seq<string>, i: nat, out: seq<Side>, files: seq<string>)
    requires SortedBy(StringLess, cands) && Distinct(cands) && i < |cands|
    requires Listed(view, glob, cands[..i], out)
    requires Lined(files) && forall f :: f in files <==> Holds(view, cands[i], f)
    ensures Selected(view, glob, cands[i]) ==> Listed(view, glob, cands[..i + 1], out + [Side(cands[i], files)])
    ensures !Selected(view, glob, cands[i]) ==> Listed(view, glob, cands[..i + 1], out)
  {
    var c := cands[i];
    assert cands[..i + 1] == cands[..i] + [c];
    if Selected(view, glob, c) {
      var more := out + [Side(c, files)];
      forall a | 0 <= a < |out|
        ensures StringLess(out[a].id, c)
      {
        assert out[a].id in cands[..i];
        var k :| 0 <= k < i && cands[k] == out[a].id;
        StringTrichotomy(out[a].id, c);
      }
      forall x
        ensures x in cands[..i + 1] && Selected(view, glob, x) <==> exists a :: 0 <= a < |more| && more[a].id == x
      {
        if x == c {
          assert more[|out|].id == x;
        } else if a :| 0 <= a < |out| && out[a].id == x {
          assert more[a].id == x;
        }
      }
    }
  }

  lemma TakenNext(view: set<string>, glob: Glob, done: seq<string>, c: string, before: set<string>, after: set<string>)
    requires forall f :: f in before <==> TakenBy(view, glob, done, f)
    requires c !in view && GlobMatches(glob, c) ==> forall f :: f in after <==> f in before || Holds(view, c, f)
    requires c in view || !GlobMatches(glob, c) ==> after == before
    ensures forall f :: f in after <==> TakenBy(view, glob, done + [c], f)
  {
    forall f
      ensures f in after <==> TakenBy(view, glob, done + [c], f)
    {
      if TakenBy(view, glob, done, f) {
        var d :| d in done && d !in view && GlobMatches(glob, d) && Holds(view, d, f);
        assert d in done + [c];
      }
      if c !in view && GlobMatches(glob, c) && Holds(view, c, f) {
        assert c in done + [c];
      }
    }
  }

  /** The datums of a view under a glob, in path order. */
  method EnumerateDatums(view: set<string>, glob: Glob) returns (out: seq<Side>)
    ensures Enumeration(view, glob, out)
  {
    var candSet := Candidates(view);
    var cands := SortedListing(candSet);
    out := [];
    var shadowed: set<string> := {};
    for i := 0 to |cands|
      invariant forall f :: f in shadowed <==> TakenBy(view, glob, cands[..i], f)
      invariant Listed(view, glob, cands[..i], out)
    {
      var c := cands[i];
      assert c in cands;
      ShadowsKnown(view, glob, cands, i);
      var files := FilesOf(view, c);
      ListNext(view, glob, cands, i, out, files);
      assert cands[..i + 1] == cands[..i] + [c];
      ghost var before := shadowed;
      if c !in shadowed && GlobMatches(glob, c) {
        if c !in view {
          shadowed := shadowed + set f <- files;
        }
        out := out + [Side(c, files)];
      }
      TakenNext(view, glob, cands[..i], c, before, shadowed);
    }
    assert cands[..|cands|] == cands;
  }
}
