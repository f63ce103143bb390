/**
  Datum digests: what is fed to the hash, and why equal digests mean equal
  input bytes. The hash is a parameter: an injective function to NUL-free
  strings. Every field is written followed by a NUL byte.
 */
module DatumDigest {
  import opened Sequences

  type Bytes = seq<char>
  type Hash = Bytes -> Bytes

  const NUL: char := '\0'

  /** Collision free, with NUL-free hex digests that are not empty. */
  ghost predicate GoodHash(sha: Hash) {
    && (forall a, b :: sha(a) == sha(b) ==> a == b)
    && (forall a :: NUL !in sha(a) && sha(a) != [])
  }

  /** A stored content part; none if its digest could not be read. */
  type Part = Option<Bytes>

  /** The field of a part: its digest, or nothing for an unreadable one. */
  function Field(sha: Hash, part: Part): Bytes {
    if part.None? then [] else sha(part.value)
  }

  // ---- NUL-terminated fields ----

  function Terminated(fields: seq<Bytes>): Bytes {
    if fields == [] then [] else fields[0] + [NUL] + Terminated(fields[1..])
  }

  ghost predicate NulFree(fields: seq<Bytes>) {
    forall f <- fields :: NUL !in f
  }

  lemma FieldUnique(x: Bytes, r: Bytes, y: Bytes, s: Bytes)
    requires x + [NUL] + r == y + [NUL] + s && NUL !in x && NUL !in y
    ensures x == y && r == s
  {
    var a, b := x + [NUL] + r, y + [NUL] + s;
    assert a[|x|] == NUL && b[|y|] == NUL;
    assert forall i :: 0 <= i < |x| ==> a[i] == x[i] && a[i] != NUL;
    assert forall i :: 0 <= i < |y| ==> b[i] == y[i] && b[i] != NUL;
    assert |x| == |y|;
    assert x == a[..|x|] && y == b[..|y|];
    assert r == a[|x| + 1..] && s == b[|y| + 1..];
  }

  lemma {:induction false} FieldsUnique(a: seq<Bytes>, b: seq<Bytes>)
    requires NulFree(a) && NulFree(b) && Terminated(a) == Terminated(b)
    ensures a == b
    decreases |a|
  {
    if a == [] {
      assert b != [] ==> |Terminated(b)| > 0;
    } else {
      assert |Terminated(a)| > 0;
      FieldUnique(a[0], Terminated(a[1..]), b[0], Terminated(b[1..]));
      assert (forall f <- a[1..] :: f in a) && (forall f <- b[1..] :: f in b);
      FieldsUnique(a[1..], b[1..]);
      assert a == [a[0]] + a[1..] && b == [b[0]] + b[1..];
    }
  }

  // ---- what a datum hands to the transform ----

  /**
    One stored copy of a file: the side's name, the path in that side, and the
    copy's content parts in order. A plain file has one part; a union's file
    has one copy per branch, each with one or more parts.
   */
  datatype Copy = Copy(name: Bytes, path: Bytes, parts: seq<Part>)

  function Concat(parts: seq<Part>): Bytes {
    if parts == [] then [] else (if parts[0].None? then [] else parts[0].value) + Concat(parts[1..])
  }

  /** The bytes the transform reads at a path of a side: the copies' parts, in order. On an unreadable part no run gets that far. */
  function Handed(copies: seq<Copy>, name: Bytes, path: Bytes): Bytes {
    if copies == [] then []
    else
      (if copies[0].name == name && copies[0].path == path then Concat(copies[0].parts) else [])
      + Handed(copies[1..], name, path)
  }

  ghost predicate WellNamed(copies: seq<Copy>) {
    forall c <- copies :: NUL !in c.name && NUL !in c.path && c.parts != []
  }

  function Shas(sha: Hash, parts: seq<Part>): seq<Bytes> {
    if parts == [] then [] else [Field(sha, parts[0])] + Shas(sha, parts[1..])
  }

  /** The fields a side contributes: name, path and part digests of every copy. */
  function Fields(sha: Hash, copies: seq<Copy>): seq<Bytes> {
    if copies == [] then []
    else [copies[0].name, copies[0].path] + (Shas(sha, copies[0].parts) + Fields(sha, copies[1..]))
  }

  function Digest(sha: Hash, copies: seq<Copy>): Bytes {
    sha(Terminated(Fields(sha, copies)))
  }

  lemma {:induction false} ShasLength(sha: Hash, parts: seq<Part>)
    ensures |Shas(sha, parts)| == |parts|
    ensures forall i :: 0 <= i < |parts| ==> Shas(sha, parts)[i] == Field(sha, parts[i])
  {
    if parts != [] {
      ShasLength(sha, parts[1..]);
    }
  }

  lemma FieldInjective(sha: Hash, x: Part, y: Part)
    requires GoodHash(sha) && Field(sha, x) == Field(sha, y)
    ensures x == y
  {
  }

  lemma ShasUnique(sha: Hash, a: seq<Part>, b: seq<Part>)
    requires GoodHash(sha) && Shas(sha, a) == Shas(sha, b)
    ensures a == b
  {
    ShasLength(sha, a);
    ShasLength(sha, b);
    forall i | 0 <= i < |a|
      ensures a[i] == b[i]
    {
      FieldInjective(sha, a[i], b[i]);
    }
  }

  lemma FieldNulFree(sha: Hash, part: Part)
    requires GoodHash(sha)
    ensures NUL !in Field(sha, part)
  {
  }

  lemma ShasNulFree(sha: Hash, parts: seq<Part>)
    requires GoodHash(sha)
    ensures NulFree(Shas(sha, parts))
  {
    ShasLength(sha, parts);
    forall f | f in Shas(sha, parts)
      ensures NUL !in f
    {
      var i :| 0 <= i < |parts| && Shas(sha, parts)[i] == f;
      FieldNulFree(sha, parts[i]);
    }
  }

  lemma {:induction false} FieldsNulFree(sha: Hash, copies: seq<Copy>)
    requires GoodHash(sha) && WellNamed(copies)
    ensures NulFree(Fields(sha, copies))
  {
    if copies != [] {
      assert forall c <- copies[1..] :: c in copies;
      FieldsNulFree(sha, copies[1..]);
      ShasNulFree(sha, copies[0].parts);
      assert copies[0] in copies;
    }
  }

  lemma EqualDigestsEqualFields(sha: Hash, a: seq<Copy>, b: seq<Copy>)
    requires GoodHash(sha) && WellNamed(a) && WellNamed(b) && Digest(sha, a) == Digest(sha, b)
    ensures Fields(sha, a) == Fields(sha, b)
  {
    FieldsNulFree(sha, a);
    FieldsNulFree(sha, b);
    FieldsUnique(Fields(sha, a), Fields(sha, b));
  }

  lemma {:induction false} TerminatedConcat(a: seq<Bytes>, b: seq<Bytes>)
    ensures Terminated(a + b) == Terminated(a) + Terminated(b)
  {
    if a == [] {
      assert a + b == b;
    } else {
      assert (a + b)[1..] == a[1..] + b;
      TerminatedConcat(a[1..], b);
    }
  }

  /** Feeds one copy's part digests to the hash. */
  method WriteParts(sha: Hash, parts: seq<Part>, written: Bytes) returns (r: Bytes)
    ensures r == written + Terminated(Shas(sha, parts))
  {
    r := written;
    for k := 0 to |parts|
      invariant r + Terminated(Shas(sha, parts[k..])) == written + Terminated(Shas(sha, parts))
    {
      assert parts[k..][1..] == parts[k + 1..];
      if parts[k].Some? {
        r := r + sha(parts[k].value);
      }
      r := r + [NUL];
    }
  }

  /** The bytes one copy adds to the hash. */
  function CopyBytes(sha: Hash, c: Copy): Bytes {
    Terminated([c.name, c.path] + Shas(sha, c.parts))
  }

  lemma {:induction false} FieldsSnoc(sha: Hash, copies: seq<Copy>, c: Copy)
    ensures Fields(sha, copies + [c]) == Fields(sha, copies) + ([c.name, c.path] + Shas(sha, c.parts))
  {
    if copies == [] {
      assert copies + [c] == [c] && Fields(sha, [c][1..]) == [];
    } else {
      assert (copies + [c])[1..] == copies[1..] + [c];
      FieldsSnoc(sha, copies[1..], c);
    }
  }

  method WriteCopy(sha: Hash, c: Copy, written: Bytes) returns (r: Bytes)
    ensures r == written + CopyBytes(sha, c)
  {
    r := written + (c.name + [NUL] + (c.path + [NUL]));
    assert Terminated([c.path]) == c.path + [NUL] + [] && [c.name, c.path][1..] == [c.path];
    assert Terminated([c.name, c.path]) == c.name + [NUL] + (c.path + [NUL]);
    TerminatedConcat([c.name, c.path], Shas(sha, c.parts));
    r := WriteParts(sha, c.parts, r);
  }

  /** `datumHash`: name, path and part digests of every copy, each field followed by a NUL. */
  method DatumHash(sha: Hash, copies: seq<Copy>) returns (h: Bytes)
    ensures h == Digest(sha, copies)
  {
    var written: Bytes := [];
    for i := 0 to |copies|
      invariant written == Terminated(Fields(sha, copies[..i]))
    {
      assert copies[..i + 1] == copies[..i] + [copies[i]];
      FieldsSnoc(sha, copies[..i], copies[i]);
      TerminatedConcat(Fields(sha, copies[..i]), [copies[i].name, copies[i].path] + Shas(sha, copies[i].parts));
      written := WriteCopy(sha, copies[i], written);
    }
    assert copies[..|copies|] == copies;
    h := sha(written);
  }

  /** The digest of a datum of one plain file, spelled out. */
  lemma DigestSpelled(sha: Hash, name: Bytes, path: Bytes, content: Bytes)
    ensures Digest(sha, [Copy(name, path, [Some(content)])])
         == sha(name + [NUL] + (path + [NUL] + (sha(content) + [NUL])))
  {
    var c := Copy(name, path, [Some(content)]);
    assert [c][1..] == [] && c.parts[1..] == [];
    assert Shas(sha, c.parts) == [sha(content)];
    assert Fields(sha, [c]) == [name, path, sha(content)];
    assert [name, path, sha(content)][1..] == [path, sha(content)] && [path, sha(content)][1..] == [sha(content)];
    assert Terminated([sha(content)]) == sha(content) + [NUL];
    assert Terminated([path, sha(content)]) == path + [NUL] + (sha(content) + [NUL]);
    assert Terminated([name, path, sha(content)]) == name + [NUL] + (path + [NUL] + (sha(content) + [NUL]));
  }

  // ---- plain datums ----

  ghost predicate Plain(copies: seq<Copy>) {
    forall c <- copies :: |c.parts| == 1
  }

  lemma PlainHead(sha: Hash, copies: seq<Copy>)
    requires copies != [] && Plain(copies)
    ensures copies[0].parts == [copies[0].parts[0]] && Plain(copies[1..])
    ensures Fields(sha, copies) == [copies[0].name, copies[0].path, Field(sha, copies[0].parts[0])] + Fields(sha, copies[1..])
  {
    assert copies[0] in copies && forall c <- copies[1..] :: c in copies;
    ShasLength(sha, copies[0].parts);
    var c, rest := copies[0], Fields(sha, copies[1..]);
    var field := Field(sha, c.parts[0]);
    assert Shas(sha, c.parts) == [field];
    assert [c.name, c.path] + ([field] + rest) == [c.name, c.path, field] + rest;
  }

  lemma {:induction false} PlainFieldsUnique(sha: Hash, a: seq<Copy>, b: seq<Copy>)
    requires GoodHash(sha) && Plain(a) && Plain(b) && Fields(sha, a) == Fields(sha, b)
    ensures a == b
    decreases |a|
  {
    if a == [] || b == [] {
      assert a != [] ==> |Fields(sha, a)| > 0;
      assert b != [] ==> |Fields(sha, b)| > 0;
    } else {
      var x, y := a[0], b[0];
      PlainHead(sha, a);
      PlainHead(sha, b);
      var f, g := [x.name, x.path, Field(sha, x.parts[0])], [y.name, y.path, Field(sha, y.parts[0])];
      CancelPrefix(f, Fields(sha, a[1..]), g, Fields(sha, b[1..]));
      assert f[0] == g[0] && f[1] == g[1] && f[2] == g[2];
      FieldInjective(sha, x.parts[0], y.parts[0]);
      PlainFieldsUnique(sha, a[1..], b[1..]);
      assert a == [x] + a[1..] && b == [y] + b[1..];
    }
  }

  /** No wrong skip, plain sides: equal digests, equal files with equal bytes. */
  lemma PlainNoWrongSkip(sha: Hash, a: seq<Copy>, b: seq<Copy>)
    requires GoodHash(sha) && WellNamed(a) && WellNamed(b) && Plain(a) && Plain(b)
    requires Digest(sha, a) == Digest(sha, b)
    ensures a == b
  {
    EqualDigestsEqualFields(sha, a, b);
    PlainFieldsUnique(sha, a, b);
  }

  // ---- sides that merge copies ----

  /** Spelled like the digest of some content. */
  ghost predicate LikeDigest(sha: Hash, x: Bytes) {
    exists v :: x == sha(v)
  }

  ghost predicate NamesApart(sha: Hash, copies: seq<Copy>) {
    forall c <- copies :: !LikeDigest(sha, c.name)
  }

  ghost predicate PathsApart(sha: Hash, copies: seq<Copy>) {
    forall c <- copies :: !LikeDigest(sha, c.path)
  }

  /** Both lists keep their names, or both keep their paths, apart from digests. */
  ghost predicate Apart(sha: Hash, a: seq<Copy>, b: seq<Copy>) {
    (NamesApart(sha, a) && NamesApart(sha, b)) || (PathsApart(sha, a) && PathsApart(sha, b))
  }

  /** A merged copy's digests are on record; only a plain file's can be unreadable, and it has one part. */
  predicate Readable(parts: seq<Part>) {
    |parts| > 1 ==> forall part <- parts :: part.Some?
  }

  /** The copies a datum can have. */
  ghost predicate Proper(copies: seq<Copy>) {
    WellNamed(copies) && forall c <- copies :: c.path != [] && Readable(c.parts)
  }

  lemma FieldsHead(sha: Hash, copies: seq<Copy>)
    requires copies != [] && WellNamed(copies)
    ensures copies[0] in copies && |Fields(sha, copies)| >= 3
    ensures Fields(sha, copies)[0] == copies[0].name && Fields(sha, copies)[1] == copies[0].path
    ensures Fields(sha, copies)[2] == Field(sha, copies[0].parts[0])
  {
    assert copies[0] in copies;
    ShasLength(sha, copies[0].parts);
  }

  /** `f` is a run of part fields followed by copies. */
  ghost predicate Reads(sha: Hash, f: seq<Bytes>, p: seq<Part>, a: seq<Copy>) {
    && |f| == |p| + |Fields(sha, a)|
    && (forall i :: 0 <= i < |p| ==> f[i] == Field(sha, p[i]))
    && (a != [] ==>
          && |f| >= |p| + 3 && f[|p|] == a[0].name && f[|p| + 1] == a[0].path && a[0].path != []
          && (f[|p| + 2] == [] || LikeDigest(sha, f[|p| + 2])))
  }

  lemma Reading(sha: Hash, p: seq<Part>, a: seq<Copy>)
    requires Proper(a)
    ensures Reads(sha, Shas(sha, p) + Fields(sha, a), p, a)
  {
    ShasLength(sha, p);
    if a != [] {
      FieldsHead(sha, a);
    }
  }

  /** If one reading's run ends earlier, a name and a path are spelled like digests. */
  lemma EndsEarlier(sha: Hash, f: seq<Bytes>, p: seq<Part>, a: seq<Copy>, q: seq<Part>, b: seq<Copy>)
    requires Reads(sha, f, p, a) && Reads(sha, f, q, b) && 0 < |p| < |q| && Readable(q)
    ensures !NamesApart(sha, a) && (!PathsApart(sha, a) || !PathsApart(sha, b))
  {
    var n := |p|;
    assert a != [] && a[0] in a;
    assert q[n] in q && f[n] == sha(q[n].value) && LikeDigest(sha, f[n]);
    if |q| > n + 1 {
      assert q[n + 1] in q && f[n + 1] == sha(q[n + 1].value) && LikeDigest(sha, f[n + 1]);
    } else {
      assert b != [] && b[0] in b;
      assert f[n + 2] == b[0].path;
    }
  }

  lemma CopyEnds(sha: Hash, f: seq<Bytes>, p: seq<Part>, a: seq<Copy>, q: seq<Part>, b: seq<Copy>)
    requires Reads(sha, f, p, a) && Reads(sha, f, q, b) && Apart(sha, a, b)
    requires p != [] && q != [] && Readable(p) && Readable(q)
    ensures |p| == |q|
  {
    if |p| < |q| {
      EndsEarlier(sha, f, p, a, q, b);
    } else if |q| < |p| {
      EndsEarlier(sha, f, q, b, p, a);
    }
  }

  /** The first copy can be read off the fields. */
  lemma FirstCopyUnique(sha: Hash, x: Copy, a: seq<Copy>, y: Copy, b: seq<Copy>)
    requires GoodHash(sha) && Proper(a) && Proper(b) && Apart(sha, a, b)
    requires x.parts != [] && y.parts != [] && Readable(x.parts) && Readable(y.parts)
    requires [x.name, x.path] + (Shas(sha, x.parts) + Fields(sha, a)) == [y.name, y.path] + (Shas(sha, y.parts) + Fields(sha, b))
    ensures x == y && Fields(sha, a) == Fields(sha, b)
  {
    CancelPrefix([x.name, x.path], Shas(sha, x.parts) + Fields(sha, a), [y.name, y.path], Shas(sha, y.parts) + Fields(sha, b));
    assert [x.name, x.path][0] == [y.name, y.path][0] && [x.name, x.path][1] == [y.name, y.path][1];
    Reading(sha, x.parts, a);
    Reading(sha, y.parts, b);
    CopyEnds(sha, Shas(sha, x.parts) + Fields(sha, a), x.parts, a, y.parts, b);
    ShasLength(sha, x.parts);
    ShasLength(sha, y.parts);
    CancelPrefix(Shas(sha, x.parts), Fields(sha, a), Shas(sha, y.parts), Fields(sha, b));
    ShasUnique(sha, x.parts, y.parts);
  }

  lemma {:induction false} MergedFieldsUnique(sha: Hash, a: seq<Copy>, b: seq<Copy>)
    requires GoodHash(sha) && Proper(a) && Proper(b) && Apart(sha, a, b) && Fields(sha, a) == Fields(sha, b)
    ensures a == b
    decreases |a|
  {
    if a == [] {
      assert b != [] ==> |Fields(sha, b)| > 0;
    } else {
      assert |Fields(sha, a)| > 0;
      assert a[0] in a && b[0] in b;
      assert (forall c <- a[1..] :: c in a) && (forall c <- b[1..] :: c in b);
      FirstCopyUnique(sha, a[0], a[1..], b[0], b[1..]);
      MergedFieldsUnique(sha, a[1..], b[1..]);
      assert a == [a[0]] + a[1..] && b == [b[0]] + b[1..];
    }
  }

  /**
    No wrong skip for a cross or join that includes a union side, as long as
    not both some side is named and some path is spelled like a digest.
   */
  lemma MergedNoWrongSkip(sha: Hash, a: seq<Copy>, b: seq<Copy>, name: Bytes, path: Bytes)
    requires GoodHash(sha) && Proper(a) && Proper(b) && Apart(sha, a, b)
    requires Digest(sha, a) == Digest(sha, b)
    ensures a == b && Handed(a, name, path) == Handed(b, name, path)
  {
    EqualDigestsEqualFields(sha, a, b);
    MergedFieldsUnique(sha, a, b);
  }

  /** One copy with four parts, its side named and its path spelled like the digests of the middle two. */
  function OneCopy(sha: Hash, x: Bytes, y: Bytes, z: Bytes, w: Bytes): seq<Copy> {
    [Copy(sha(y), sha(z), [Some(x), Some(y), Some(z), Some(w)])]
  }

  /** Two copies of that path, as two branches of the union give, with the outer parts. */
  function TwoCopies(sha: Hash, x: Bytes, y: Bytes, z: Bytes, w: Bytes): seq<Copy> {
    [Copy(sha(y), sha(z), [Some(x)]), Copy(sha(y), sha(z), [Some(w)])]
  }

  lemma DigestsCollide(sha: Hash, x: Bytes, y: Bytes, z: Bytes, w: Bytes)
    ensures Digest(sha, OneCopy(sha, x, y, z, w)) == Digest(sha, TwoCopies(sha, x, y, z, w))
  {
    var n, p := sha(y), sha(z);
    var one, two := OneCopy(sha, x, y, z, w), TwoCopies(sha, x, y, z, w);
    ShasLength(sha, one[0].parts);
    ShasLength(sha, two[0].parts);
    ShasLength(sha, two[1].parts);
    assert Shas(sha, one[0].parts) == [sha(x), n, p, sha(w)];
    assert Shas(sha, two[0].parts) == [sha(x)] && Shas(sha, two[1].parts) == [sha(w)];
    assert two[1..] == [two[1]] && [two[1]][1..] == [] && one[1..] == [];
    assert Fields(sha, one) == [n, p, sha(x), n, p, sha(w)];
    assert Fields(sha, [two[1]]) == [n, p, sha(w)];
    assert Fields(sha, two) == [n, p, sha(x), n, p, sha(w)];
  }

  lemma CollidingHanded(sha: Hash, x: Bytes, y: Bytes, z: Bytes, w: Bytes)
    ensures Handed(OneCopy(sha, x, y, z, w), sha(y), sha(z)) == x + y + z + w
    ensures Handed(TwoCopies(sha, x, y, z, w), sha(y), sha(z)) == x + w
  {
    var n, p := sha(y), sha(z);
    var one, two := OneCopy(sha, x, y, z, w), TwoCopies(sha, x, y, z, w);
    var four := one[0].parts;
    var three: seq<Part>, last: seq<Part> := [Some(y), Some(z), Some(w)], [Some(w)];
    assert four[1..] == three && three[1..] == [Some(z), Some(w)] && three[1..][1..] == last && last[1..] == [];
    assert Concat(last) == w && Concat(three[1..]) == z + w && Concat(three) == y + (z + w);
    assert Concat(four) == x + y + z + w;
    assert one[1..] == [] && two[1..] == [two[1]] && [two[1]][1..] == [];
    assert Handed(one, n, p) == Concat(four) + [];
    assert two[0].parts[1..] == [] && Concat(two[0].parts) == x;
    assert Handed([two[1]], n, p) == Concat(last) + [];
  }

  /**
    A side and a path both spelled like digests: the two datums have the same
    digest, and the transform would read different bytes.
   */
  lemma WrongSkip(sha: Hash, x: Bytes, y: Bytes, z: Bytes, w: Bytes) returns (a: seq<Copy>, b: seq<Copy>)
    requires GoodHash(sha) && y + z != []
    ensures Proper(a) && Proper(b) && Digest(sha, a) == Digest(sha, b)
    ensures Handed(a, sha(y), sha(z)) == x + y + z + w && Handed(b, sha(y), sha(z)) == x + w
    ensures Handed(a, sha(y), sha(z)) != Handed(b, sha(y), sha(z))
  {
    a, b := OneCopy(sha, x, y, z, w), TwoCopies(sha, x, y, z, w);
    DigestsCollide(sha, x, y, z, w);
    CollidingHanded(sha, x, y, z, w);
    assert |x + y + z + w| == |x + w| + |y + z|;
  }

  /** The copies draw their side names and paths from these. */
  ghost predicate Over(copies: seq<Copy>, names: set<Bytes>, paths: set<Bytes>) {
    forall c <- copies :: c.name in names && c.path in paths
  }

  /** Over these names and paths, equal digests mean equal copies. */
  ghost predicate Identifies(sha: Hash, names: set<Bytes>, paths: set<Bytes>) {
    forall a, b {:trigger Digest(sha, a), Digest(sha, b)} ::
      Proper(a) && Proper(b) && Over(a, names, paths) && Over(b, names, paths) && Digest(sha, a) == Digest(sha, b) ==> a == b
  }

  /** The digest identifies the copies exactly when no side is named like a digest, or no path is spelled like one. */
  lemma IdentifiesExactly(sha: Hash, names: set<Bytes>, paths: set<Bytes>)
    requires GoodHash(sha)
    ensures Identifies(sha, names, paths) <==>
              (forall n <- names :: !LikeDigest(sha, n)) || (forall p <- paths :: !LikeDigest(sha, p))
  {
    if n, p :| n in names && p in paths && LikeDigest(sha, n) && LikeDigest(sha, p) {
      var y :| n == sha(y);
      var z :| p == sha(z);
      var a, b := OneCopy(sha, [], y, z, []), TwoCopies(sha, [], y, z, []);
      DigestsCollide(sha, [], y, z, []);
      assert Over(a, names, paths) && Over(b, names, paths) && Proper(a) && Proper(b);
      assert |a| != |b|;
    } else {
      forall a, b | Proper(a) && Proper(b) && Over(a, names, paths) && Over(b, names, paths) && Digest(sha, a) == Digest(sha, b)
        ensures a == b
      {
        MergedNoWrongSkip(sha, a, b, [], []);
      }
    }
  }

  // ---- union datums ----

  /** All copies' parts of the one merged path, in order. */
  function AllParts(copies: seq<seq<Part>>): seq<Part> {
    if copies == [] then [] else copies[0] + AllParts(copies[1..])
  }

  /** A union datum's digest covers the part digests alone. */
  function UnionDigest(sha: Hash, copies: seq<seq<Part>>): Bytes {
    sha(Terminated(Shas(sha, AllParts(copies))))
  }

  function UnionHanded(copies: seq<seq<Part>>): Bytes {
    if copies == [] then [] else Concat(copies[0]) + UnionHanded(copies[1..])
  }

  lemma {:induction false} ConcatAppend(a: seq<Part>, b: seq<Part>)
    ensures Concat(a + b) == Concat(a) + Concat(b)
  {
    if a == [] {
      assert a + b == b;
    } else {
      assert (a + b)[1..] == a[1..] + b;
      ConcatAppend(a[1..], b);
    }
  }

  lemma {:induction false} HandedIsConcat(copies: seq<seq<Part>>)
    ensures UnionHanded(copies) == Concat(AllParts(copies))
  {
    if copies != [] {
      HandedIsConcat(copies[1..]);
      ConcatAppend(copies[0], AllParts(copies[1..]));
    }
  }

  /** No wrong skip, union datums: the ordered parts fix the bytes, however the branches split them. */
  lemma UnionNoWrongSkip(sha: Hash, a: seq<seq<Part>>, b: seq<seq<Part>>)
    requires GoodHash(sha) && UnionDigest(sha, a) == UnionDigest(sha, b)
    ensures UnionHanded(a) == UnionHanded(b)
  {
    var p, q := AllParts(a), AllParts(b);
    ShasNulFree(sha, p);
    ShasNulFree(sha, q);
    FieldsUnique(Shas(sha, p), Shas(sha, q));
    ShasUnique(sha, p, q);
    HandedIsConcat(a);
    HandedIsConcat(b);
  }
}
