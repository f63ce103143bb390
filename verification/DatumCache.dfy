/**
  The incremental job: which datums are skipped, and how carried and fresh
  files merge into the output commit. The central fact is that a job's merged
  output equals the output of running every one of its datums again.
 */
module DatumCache {
  import opened Datums
  import opened Sequences
  import opened Paths
  import WorkerPool

  // ---- the skip decision ----

  /** Unchanged since a successful run. */
  predicate Skips(table: Table, reprocess: bool, d: Datum) {
    d.id in table && !reprocess && table[d.id].outcome == Success && table[d.id].hash == d.hash
  }

  function ToRun(table: Table, reprocess: bool, datums: seq<Datum>): seq<Datum> {
    if datums == [] then []
    else
      var rest := ToRun(table, reprocess, datums[..|datums| - 1]);
      if Skips(table, reprocess, datums[|datums| - 1]) then rest else rest + [datums[|datums| - 1]]
  }

  /** The table with a placeholder for every datum it did not know. */
  function WithPlaceholders(table: Table, datums: seq<Datum>): Table {
    if datums == [] then table
    else
      var t := WithPlaceholders(table, datums[..|datums| - 1]);
      var d := datums[|datums| - 1];
      if d.id in t then t else t[d.id := Rec(d.hash, InProgress, [], NO_TRANSFORM, 0)]
  }

  lemma {:induction false} PlaceholdersKeep(table: Table, datums: seq<Datum>)
    ensures var t := WithPlaceholders(table, datums);
            && (forall id <- table :: id in t && t[id] == table[id])
            && (forall id <- t :: id in table || t[id].outcome == InProgress)
  {
    if datums != [] {
      PlaceholdersKeep(table, datums[..|datums| - 1]);
    }
  }

  lemma {:induction false} PlaceholdersOnly(table: Table, datums: seq<Datum>, id: string)
    requires forall d <- datums :: d.id != id
    ensures id in WithPlaceholders(table, datums) <==> id in table
  {
    if datums != [] {
      PlaceholdersOnly(table, datums[..|datums| - 1], id);
    }
  }

  lemma {:induction false} ToRunMembers(table: Table, reprocess: bool, datums: seq<Datum>)
    ensures forall d :: d in ToRun(table, reprocess, datums) <==> d in datums && !Skips(table, reprocess, d)
    ensures WorkerPool.DistinctIds(datums) ==> WorkerPool.DistinctIds(ToRun(table, reprocess, datums))
  {
    if datums != [] {
      var init := datums[..|datums| - 1];
      assert datums == init + [datums[|datums| - 1]];
      ToRunMembers(table, reprocess, init);
      assert forall i :: 0 <= i < |init| ==> init[i] == datums[i];
      if WorkerPool.DistinctIds(datums) {
        assert forall d <- ToRun(table, reprocess, init) :: d in init && d.id != datums[|init|].id;
      }
    }
  }

  /**
    Each datum is decided by itself and in its place: it runs when the pipeline
    reprocesses, when it is new, when its last run did not simply succeed, or
    when its content changed.
   */
  lemma {:induction false} ToRunConcat(table: Table, reprocess: bool, before: seq<Datum>, d: Datum, after: seq<Datum>)
    ensures ToRun(table, reprocess, before + [d] + after)
         == ToRun(table, reprocess, before)
            + (if reprocess || d.id !in table || table[d.id].outcome != Success || table[d.id].hash != d.hash then [d] else [])
            + ToRun(table, reprocess, after)
  {
    var all := before + [d] + after;
    if after == [] {
      assert all[..|all| - 1] == before;
    } else {
      assert all[..|all| - 1] == before + [d] + after[..|after| - 1];
      ToRunConcat(table, reprocess, before, d, after[..|after| - 1]);
    }
  }

  lemma {:induction false} PlaceholderFrom(table: Table, datums: seq<Datum>, id: string)
    requires id in WithPlaceholders(table, datums) && id !in table
    ensures exists e :: e in datums && e.id == id
  {
    if datums != [] {
      var k := |datums| - 1;
      assert datums == datums[..k] + [datums[k]];
      if id in WithPlaceholders(table, datums[..k]) {
        PlaceholderFrom(table, datums[..k], id);
        var e :| e in datums[..k] && e.id == id;
        assert e in datums;
      } else {
        assert datums[k] in datums && datums[k].id == id;
      }
    }
  }

  /** Every datum of the job has a record: the one it had, or a placeholder with its content digest. */
  lemma {:induction false} PlaceholdersAll(table: Table, datums: seq<Datum>, d: Datum)
    requires d in datums
    ensures var t := WithPlaceholders(table, datums);
            && d.id in t
            && (d.id !in table && (forall e <- datums :: e.id == d.id ==> e == d) ==>
                  t[d.id].hash == d.hash && t[d.id].outcome == InProgress && t[d.id].files == [])
  {
    var k := |datums| - 1;
    var init := datums[..k];
    assert datums == init + [datums[k]];
    if d in init {
      PlaceholdersAll(table, init, d);
    } else {
      if d.id in WithPlaceholders(table, init) && d.id !in table {
        PlaceholderFrom(table, init, d.id);
      }
    }
  }

  function SkippedIds(table: Table, reprocess: bool, datums: seq<Datum>): set<string> {
    set d | d in datums && Skips(table, reprocess, d) :: d.id
  }

  lemma PlanStep(table: Table, reprocess: bool, init: seq<Datum>, d: Datum)
    requires forall e <- init :: e.id != d.id
    ensures var t := WithPlaceholders(table, init);
            && (d.id in t <==> d.id in table) && (d.id in t ==> t[d.id] == table[d.id])
            && WithPlaceholders(table, init + [d]) == (if d.id in t then t else t[d.id := Rec(d.hash, InProgress, [], NO_TRANSFORM, 0)])
    ensures ToRun(table, reprocess, init + [d])
         == ToRun(table, reprocess, init) + if Skips(table, reprocess, d) then [] else [d]
  {
    PlaceholdersKeep(table, init);
    PlaceholdersOnly(table, init, d.id);
    assert (init + [d])[..|init|] == init;
  }

  lemma SkippedSnoc(table: Table, reprocess: bool, init: seq<Datum>, d: Datum)
    ensures SkippedIds(table, reprocess, init + [d])
         == SkippedIds(table, reprocess, init) + if Skips(table, reprocess, d) then {d.id} else {}
  {
    assert forall e :: e in init + [d] <==> e in init || e == d;
  }

  /** The loop that splits a job's datums into skipped ones and work. */
  method Plan(datums: seq<Datum>, table: Table, reprocess: bool)
    returns (skipped: set<string>, todo: seq<Datum>, planned: Table)
    requires WorkerPool.DistinctIds(datums)
    ensures skipped == SkippedIds(table, reprocess, datums)
    ensures todo == ToRun(table, reprocess, datums)
    ensures planned == WithPlaceholders(table, datums)
  {
    skipped, todo, planned := {}, [], table;
    for i := 0 to |datums|
      invariant skipped == SkippedIds(table, reprocess, datums[..i])
      invariant todo == ToRun(table, reprocess, datums[..i])
      invariant planned == WithPlaceholders(table, datums[..i])
    {
      var d := datums[i];
      PlanStep(table, reprocess, datums[..i], d);
      SkippedSnoc(table, reprocess, datums[..i], d);
      assert datums[..i + 1] == datums[..i] + [d];
      if d.id in planned && !reprocess && planned[d.id].outcome == Success && planned[d.id].hash == d.hash {
        skipped := skipped + {d.id};
      } else {
        if d.id !in planned {
          planned := planned[d.id := Rec(d.hash, InProgress, [], NO_TRANSFORM, 0)];
        }
        todo := todo + [d];
      }
    }
    assert datums[..|datums|] == datums;
  }

  // ---- the output directory ----

  type Output = map<string, Bytes>

  /** One path needs a directory where the other needs a file. */
  predicate Clash(a: string, b: string) {
    Under(a, b) || Under(b, a)
  }

  /** `mergeFile` on readable content: append at the path, or fail on a type conflict. */
  function AppendFile(out: Output, f: File): Option<Output> {
    if exists p <- out :: Clash(p, f.path) then None
    else Some(out[f.path := (if f.path in out then out[f.path] else []) + f.data])
  }

  function MergeRefs(blobs: Blobs, refs: seq<FileRef>): Option<Output> {
    if refs == [] then Some(map[])
    else
      var before := MergeRefs(blobs, refs[..|refs| - 1]);
      var f := refs[|refs| - 1];
      if before.None? || f.hash !in blobs then None
      else AppendFile(before.value, File(f.path, blobs[f.hash]))
  }

  /** Everything written at `p`, in order. */
  function Content(files: seq<File>, p: string): Bytes {
    if files == [] then []
    else Content(files[..|files| - 1], p) + if files[|files| - 1].path == p then files[|files| - 1].data else []
  }

  /** The directory a list of writes describes: each path once, its writes concatenated in order. */
  ghost function Assembled(files: seq<File>): Output {
    map p | p in (set f <- files :: f.path) :: Content(files, p)
  }

  ghost predicate Compatible(files: seq<File>) {
    forall i, k :: 0 <= i < k < |files| ==> !Clash(files[i].path, files[k].path)
  }

  ghost function Expected(files: seq<File>): Option<Output> {
    if Compatible(files) then Some(Assembled(files)) else None
  }

  lemma ContentSnoc(files: seq<File>, f: File, p: string)
    ensures Content(files + [f], p) == Content(files, p) + if f.path == p then f.data else []
  {
    assert (files + [f])[..|files|] == files;
  }

  lemma {:induction false} ContentAbsent(files: seq<File>, p: string)
    requires forall f <- files :: f.path != p
    ensures Content(files, p) == []
  {
    if files != [] {
      ContentAbsent(files[..|files| - 1], p);
    }
  }

  lemma AssembledSnoc(files: seq<File>, f: File)
    ensures var out := Assembled(files);
            Assembled(files + [f]) == out[f.path := (if f.path in out then out[f.path] else []) + f.data]
  {
    var out := Assembled(files);
    var more := out[f.path := (if f.path in out then out[f.path] else []) + f.data];
    assert forall g :: g in files + [f] <==> g in files || g == f;
    assert Assembled(files + [f]).Keys == more.Keys by {
      assert f in files + [f];
    }
    forall p | p in more
      ensures Assembled(files + [f])[p] == more[p]
    {
      ContentSnoc(files, f, p);
      if p !in out {
        ContentAbsent(files, p);
      }
    }
  }

  /** Appending `f` is refused exactly when it clashes with an earlier write. */
  lemma AppendAssembles(files: seq<File>, f: File)
    requires Compatible(files)
    ensures AppendFile(Assembled(files), f) == Expected(files + [f])
  {
    var all := files + [f];
    AssembledSnoc(files, f);
    var out := Assembled(files);
    if p :| p in out && Clash(p, f.path) {
      var g :| g in files && g.path == p;
      var i :| 0 <= i < |files| && files[i] == g;
      assert all[i] == g && all[|files|] == f;
    } else {
      forall i, k | 0 <= i < k < |all|
        ensures !Clash(all[i].path, all[k].path)
      {
        if k == |files| {
          assert files[i] in files && files[i].path in out;
        } else {
          assert all[i] == files[i] && all[k] == files[k];
        }
      }
    }
  }

  lemma StaysClashing(files: seq<File>, f: File)
    requires !Compatible(files)
    ensures !Compatible(files + [f])
  {
    var i, k :| 0 <= i < k < |files| && Clash(files[i].path, files[k].path);
    var all := files + [f];
    assert Clash(all[i].path, all[k].path);
  }

  /** The merge writes exactly the assembled directory, and fails exactly on a path conflict. */
  lemma {:induction false} MergeAssembles(blobs: Blobs, refs: seq<FileRef>, files: seq<File>)
    requires ReadsAs(blobs, refs, files)
    ensures MergeRefs(blobs, refs) == Expected(files)
  {
    if refs == [] {
      assert files == [];
    } else {
      var n := |refs| - 1;
      var init, f := files[..n], files[n];
      MergeAssembles(blobs, refs[..n], init);
      assert files == init + [f];
      assert File(refs[n].path, blobs[refs[n].hash]) == f;
      if Compatible(init) {
        AppendAssembles(init, f);
      } else {
        StaysClashing(init, f);
      }
    }
  }

  // ---- what each datum contributes ----

  /** A skipped datum's carried files, minus stale ones that this job wrote anew. */
  function Carried(files: seq<FileRef>, written: set<string>, stale: bool): seq<FileRef> {
    if files == [] then []
    else
      var rest := Carried(files[..|files| - 1], written, stale);
      var f := files[|files| - 1];
      if f.path in written && stale then rest else rest + [f]
  }

  predicate Stale(r: Rec, transform: Digest) {
    r.transform != NO_TRANSFORM && r.transform != transform
  }

  function Contribution(table: Table, skipped: set<string>, transform: Digest, written: set<string>, d: Datum): seq<FileRef> {
    if d.id !in table then []
    else if d.id in skipped then Carried(table[d.id].files, written, Stale(table[d.id], transform))
    else if Completed(table[d.id].outcome) then table[d.id].files
    else []
  }

  function Contributions(table: Table, skipped: set<string>, transform: Digest, written: set<string>, datums: seq<Datum>): seq<FileRef> {
    if datums == [] then []
    else
      var before := Contributions(table, skipped, transform, written, datums[..|datums| - 1]);
      before + Contribution(table, skipped, transform, written, datums[|datums| - 1])
  }

  /** The paths some datum that ran has written. */
  function FreshPaths(table: Table, skipped: set<string>, datums: seq<Datum>): set<string> {
    set d, f | d in datums && d.id !in skipped && d.id in table && Completed(table[d.id].outcome)
            && f in table[d.id].files :: f.path
  }

  /** The job's output, as the merge builds it. */
  function Merged(table: Table, blobs: Blobs, skipped: set<string>, transform: Digest, datums: seq<Datum>): Option<Output> {
    MergeRefs(blobs, Contributions(table, skipped, transform, FreshPaths(table, skipped, datums), datums))
  }

  /** Running every datum again, in order. */
  ghost function Recomputed(run: Program, transform: Digest, datums: seq<Datum>): seq<File> {
    if datums == [] then []
    else Recomputed(run, transform, datums[..|datums| - 1]) + run(transform, datums[|datums| - 1])
  }

  lemma {:induction false} StaysFailed(blobs: Blobs, refs: seq<FileRef>, more: seq<FileRef>)
    requires MergeRefs(blobs, refs).None?
    ensures MergeRefs(blobs, refs + more).None?
  {
    if more == [] {
      assert refs + more == refs;
    } else {
      assert (refs + more)[..|refs + more| - 1] == refs + more[..|more| - 1];
      StaysFailed(blobs, refs, more[..|more| - 1]);
    }
  }

  lemma {:induction false} ContributionsSplit(table: Table, skipped: set<string>, transform: Digest, written: set<string>,
                                              datums: seq<Datum>, k: nat) returns (tail: seq<FileRef>)
    requires k <= |datums|
    ensures Contributions(table, skipped, transform, written, datums)
         == Contributions(table, skipped, transform, written, datums[..k]) + tail
    decreases |datums|
  {
    if k == |datums| {
      assert datums[..k] == datums;
      tail := [];
    } else {
      var init := datums[..|datums| - 1];
      tail := ContributionsSplit(table, skipped, transform, written, init, k);
      assert init[..k] == datums[..k];
      tail := tail + Contribution(table, skipped, transform, written, datums[|datums| - 1]);
    }
  }

  class JobExec {
    const blobs: Blobs
    const transform: Digest
    var table: Table
    var out: Output

    constructor (table: Table, blobs: Blobs, transform: Digest)
      ensures this.table == table && this.blobs == blobs && this.transform == transform && out == map[]
    {
      this.table, this.blobs, this.transform, out := table, blobs, transform, map[];
    }

    /** Appends one stored file to the output directory. */
    method MergeFile(f: FileRef, ghost merged: seq<FileRef>) returns (ok: bool)
      requires MergeRefs(blobs, merged) == Some(out)
      modifies this`out
      ensures ok <==> MergeRefs(blobs, merged + [f]).Some?
      ensures ok ==> MergeRefs(blobs, merged + [f]) == Some(out)
    {
      assert (merged + [f])[..|merged|] == merged;
      if f.hash !in blobs {
        return false;
      }
      if exists p <- out :: Clash(p, f.path) {
        return false;
      }
      var cur := if f.path in out then out[f.path] else [];
      out := out[f.path := cur + blobs[f.hash]];
      return true;
    }

    method MergeFiles(refs: seq<FileRef>, ghost merged: seq<FileRef>) returns (ok: bool)
      requires MergeRefs(blobs, merged) == Some(out)
      modifies this`out
      ensures ok <==> MergeRefs(blobs, merged + refs).Some?
      ensures ok ==> MergeRefs(blobs, merged + refs) == Some(out)
    {
      ghost var sofar := merged;
      for k := 0 to |refs|
        invariant sofar + refs[k..] == merged + refs
        invariant MergeRefs(blobs, sofar) == Some(out)
      {
        HeadMoves(sofar, refs, k);
        ok := MergeFile(refs[k], sofar);
        sofar := sofar + [refs[k]];
        if !ok {
          StaysFailed(blobs, sofar, refs[k + 1..]);
          return;
        }
      }
      assert sofar + refs[|refs|..] == sofar;
      ok := true;
    }

    /** Two passes: the freshly written paths, then every datum's files in order. */
    method MergeOutputs(datums: seq<Datum>, skipped: set<string>) returns (ok: bool)
      requires out == map[]
      modifies this`out
      ensures ok <==> Merged(table, blobs, skipped, transform, datums).Some?
      ensures ok ==> Merged(table, blobs, skipped, transform, datums) == Some(out)
    {
      var written := FreshPaths(table, skipped, datums);
      ghost var merged := [];
      for i := 0 to |datums|
        invariant merged == Contributions(table, skipped, transform, written, datums[..i])
        invariant MergeRefs(blobs, merged) == Some(out)
      {
        assert datums[..i + 1][..i] == datums[..i];
        var refs := Contribution(table, skipped, transform, written, datums[i]);
        ok := MergeFiles(refs, merged);
        merged := merged + refs;
        if !ok {
          ghost var tail := ContributionsSplit(table, skipped, transform, written, datums, i + 1);
          StaysFailed(blobs, merged, tail);
          return;
        }
      }
      assert datums[..|datums|] == datums;
      ok := true;
    }
  }

  // ---- what the merge writes, in terms of the records ----

  function ReadBack(blobs: Blobs, refs: seq<FileRef>): seq<File> {
    seq(|refs|, i requires 0 <= i < |refs| =>
      File(refs[i].path, if refs[i].hash in blobs then blobs[refs[i].hash] else []))
  }

  /** The bytes a list of references puts at a path. */
  function BytesAt(blobs: Blobs, refs: seq<FileRef>, p: string): Bytes {
    Content(ReadBack(blobs, refs), p)
  }

  /** The datum ran in this job and completed. */
  ghost predicate Ran(table: Table, skipped: set<string>, d: Datum) {
    d.id !in skipped && d.id in table && (table[d.id].outcome == Success || table[d.id].outcome == Recovered)
  }

  /** A datum that ran wrote the path. */
  ghost predicate Wrote(table: Table, skipped: set<string>, datums: seq<Datum>, p: string) {
    exists d, f :: d in datums && Ran(table, skipped, d) && f in table[d.id].files && f.path == p
  }

  /**
    The datum's record counts at a path that was written anew or not: if it ran
    always, if it was skipped unless its files are another transform's and were
    superseded.
   */
  ghost predicate CountsAt(table: Table, skipped: set<string>, transform: Digest, d: Datum, superseded: bool) {
    || Ran(table, skipped, d)
    || (d.id in skipped && d.id in table
        && (superseded ==> table[d.id].transform == NO_TRANSFORM || table[d.id].transform == transform))
  }

  /** In datum order, the bytes at `p` of the records that count there. */
  ghost function Gathered(table: Table, blobs: Blobs, skipped: set<string>, transform: Digest, datums: seq<Datum>, p: string, superseded: bool): Bytes {
    if datums == [] then []
    else
      var d := datums[|datums| - 1];
      Gathered(table, blobs, skipped, transform, datums[..|datums| - 1], p, superseded)
      + if CountsAt(table, skipped, transform, d, superseded) then BytesAt(blobs, table[d.id].files, p) else []
  }

  lemma {:induction false} ContentConcat(a: seq<File>, b: seq<File>, p: string)
    ensures Content(a + b, p) == Content(a, p) + Content(b, p)
  {
    if b == [] {
      assert a + b == a;
    } else {
      assert (a + b)[..|a + b| - 1] == a + b[..|b| - 1];
      ContentConcat(a, b[..|b| - 1], p);
    }
  }

  lemma BytesConcat(blobs: Blobs, a: seq<FileRef>, b: seq<FileRef>, p: string)
    ensures BytesAt(blobs, a + b, p) == BytesAt(blobs, a, p) + BytesAt(blobs, b, p)
  {
    assert ReadBack(blobs, a + b) == ReadBack(blobs, a) + ReadBack(blobs, b);
    ContentConcat(ReadBack(blobs, a), ReadBack(blobs, b), p);
  }

  lemma BytesOne(blobs: Blobs, f: FileRef, p: string)
    ensures f.path != p ==> BytesAt(blobs, [f], p) == []
  {
    if f.path != p {
      ContentAbsent(ReadBack(blobs, [f]), p);
    }
  }

  lemma {:induction false} CarriedBytes(blobs: Blobs, files: seq<FileRef>, written: set<string>, stale: bool, p: string)
    ensures BytesAt(blobs, Carried(files, written, stale), p) == if stale && p in written then [] else BytesAt(blobs, files, p)
  {
    if files != [] {
      var init, f := files[..|files| - 1], files[|files| - 1];
      CarriedBytes(blobs, init, written, stale, p);
      assert files == init + [f];
      BytesConcat(blobs, init, [f], p);
      BytesConcat(blobs, Carried(init, written, stale), [f], p);
      BytesOne(blobs, f, p);
    }
  }

  lemma {:induction false} CarriedHas(files: seq<FileRef>, written: set<string>, stale: bool, f: FileRef)
    ensures f in Carried(files, written, stale) <==> f in files && !(stale && f.path in written)
  {
    if files != [] {
      var init, last := files[..|files| - 1], files[|files| - 1];
      assert files == init + [last];
      CarriedHas(init, written, stale, f);
    }
  }

  lemma FreshIsWrote(table: Table, skipped: set<string>, datums: seq<Datum>, p: string)
    ensures p in FreshPaths(table, skipped, datums) <==> Wrote(table, skipped, datums, p)
  {
  }

  lemma ContributionBytes(table: Table, blobs: Blobs, skipped: set<string>, transform: Digest, written: set<string>, d: Datum, p: string)
    ensures BytesAt(blobs, Contribution(table, skipped, transform, written, d), p)
         == if CountsAt(table, skipped, transform, d, p in written) then BytesAt(blobs, table[d.id].files, p) else []
  {
    if d.id in table {
      CarriedBytes(blobs, table[d.id].files, written, Stale(table[d.id], transform), p);
    }
    assert ReadBack(blobs, []) == [];
  }

  lemma {:induction false} ContributionsBytes(table: Table, blobs: Blobs, skipped: set<string>, transform: Digest, written: set<string>,
                                              datums: seq<Datum>, p: string)
    ensures BytesAt(blobs, Contributions(table, skipped, transform, written, datums), p)
         == Gathered(table, blobs, skipped, transform, datums, p, p in written)
  {
    if datums == [] {
      assert ReadBack(blobs, []) == [];
    } else {
      var init, d := datums[..|datums| - 1], datums[|datums| - 1];
      ContributionsBytes(table, blobs, skipped, transform, written, init, p);
      ContributionBytes(table, blobs, skipped, transform, written, d, p);
      BytesConcat(blobs, Contributions(table, skipped, transform, written, init), Contribution(table, skipped, transform, written, d), p);
    }
  }

  /** Some datum's record that counts at the file's path lists the file. */
  ghost predicate Contributed(table: Table, skipped: set<string>, transform: Digest, datums: seq<Datum>, f: FileRef) {
    exists d :: d in datums && CountsAt(table, skipped, transform, d, Wrote(table, skipped, datums, f.path)) && f in table[d.id].files
  }

  lemma {:induction false} ContributionsHave(table: Table, skipped: set<string>, transform: Digest, written: set<string>, datums: seq<Datum>, f: FileRef)
    ensures f in Contributions(table, skipped, transform, written, datums) <==>
              exists d :: d in datums && CountsAt(table, skipped, transform, d, f.path in written) && f in table[d.id].files
  {
    if datums != [] {
      var init, d := datums[..|datums| - 1], datums[|datums| - 1];
      assert datums == init + [d];
      ContributionsHave(table, skipped, transform, written, init, f);
      if d.id in table {
        CarriedHas(table[d.id].files, written, Stale(table[d.id], transform), f);
      }
      assert f in Contribution(table, skipped, transform, written, d) <==>
             CountsAt(table, skipped, transform, d, f.path in written) && f in table[d.id].files;
    }
  }

  lemma {:induction false} MergeNeedsBlobs(blobs: Blobs, refs: seq<FileRef>)
    requires MergeRefs(blobs, refs).Some?
    ensures forall f <- refs :: f.hash in blobs
  {
    if refs != [] {
      assert refs == refs[..|refs| - 1] + [refs[|refs| - 1]];
      MergeNeedsBlobs(blobs, refs[..|refs| - 1]);
    }
  }

  lemma CompatibleIsPairwise(files: seq<File>)
    ensures Compatible(files) <==> forall f, g :: f in files && g in files ==> !Clash(f.path, g.path)
  {
    if Compatible(files) {
      forall f, g | f in files && g in files
        ensures !Clash(f.path, g.path)
      {
        var i :| 0 <= i < |files| && files[i] == f;
        var k :| 0 <= k < |files| && files[k] == g;
        assert i == k ==> f.path == g.path;
      }
    } else {
      var i, k :| 0 <= i < k < |files| && Clash(files[i].path, files[k].path);
      assert files[i] in files && files[k] in files;
    }
  }

  /** The files read back are compatible exactly when no path lies under another. */
  lemma ReadBackCompatible(blobs: Blobs, refs: seq<FileRef>)
    ensures Compatible(ReadBack(blobs, refs)) <==> forall f, g :: f in refs && g in refs ==> !Under(f.path, g.path)
  {
    var files := ReadBack(blobs, refs);
    if Compatible(files) {
      CompatibleIsPairwise(files);
      forall f, g | f in refs && g in refs
        ensures !Under(f.path, g.path)
      {
        var i :| 0 <= i < |refs| && refs[i] == f;
        var k :| 0 <= k < |refs| && refs[k] == g;
        assert files[i] in files && files[k] in files && !Clash(files[i].path, files[k].path);
      }
    } else {
      var i, k :| 0 <= i < k < |files| && Clash(files[i].path, files[k].path);
      assert refs[i] in refs && refs[k] in refs;
    }
  }

  /** A list of references merges exactly when all are readable and no path lies under another. */
  lemma MergeExactly(blobs: Blobs, refs: seq<FileRef>)
    ensures MergeRefs(blobs, refs).Some? <==>
              (forall f <- refs :: f.hash in blobs) && (forall f, g :: f in refs && g in refs ==> !Under(f.path, g.path))
    ensures MergeRefs(blobs, refs).Some? ==> MergeRefs(blobs, refs).value == Assembled(ReadBack(blobs, refs))
  {
    if MergeRefs(blobs, refs).Some? {
      MergeNeedsBlobs(blobs, refs);
    }
    if forall f <- refs :: f.hash in blobs {
      assert forall i :: 0 <= i < |refs| ==> refs[i] in refs;
      MergeAssembles(blobs, refs, ReadBack(blobs, refs));
      ReadBackCompatible(blobs, refs);
    }
  }

  /** A job's output merges exactly when every contributed file is readable and no contributed path lies under another. */
  lemma MergedExactly(table: Table, blobs: Blobs, skipped: set<string>, transform: Digest, datums: seq<Datum>)
    ensures Merged(table, blobs, skipped, transform, datums).Some? <==>
              && (forall f :: Contributed(table, skipped, transform, datums, f) ==> f.hash in blobs)
              && (forall f, g :: Contributed(table, skipped, transform, datums, f) && Contributed(table, skipped, transform, datums, g) ==>
                    !Under(f.path, g.path))
  {
    var written := FreshPaths(table, skipped, datums);
    var refs := Contributions(table, skipped, transform, written, datums);
    MergeExactly(blobs, refs);
    forall f
      ensures f in refs <==> Contributed(table, skipped, transform, datums, f)
    {
      ContributionsHave(table, skipped, transform, written, datums, f);
      FreshIsWrote(table, skipped, datums, f.path);
    }
  }

  lemma AssembledPaths(blobs: Blobs, refs: seq<FileRef>, p: string)
    ensures p in Assembled(ReadBack(blobs, refs)) <==> exists f :: f in refs && f.path == p
    ensures p in Assembled(ReadBack(blobs, refs)) ==> Assembled(ReadBack(blobs, refs))[p] == BytesAt(blobs, refs, p)
  {
    var files := ReadBack(blobs, refs);
    if p in Assembled(files) {
      var g :| g in files && g.path == p;
      var i :| 0 <= i < |files| && files[i] == g;
      assert refs[i] in refs && refs[i].path == p;
    }
    if f :| f in refs && f.path == p {
      var i :| 0 <= i < |refs| && refs[i] == f;
      assert files[i] in files && files[i].path == p;
    }
  }

  /**
    The output's content, across transform changes too: a path that a datum
    which ran has written holds, in datum order, the files of the datums that
    ran and of those skipped ones whose record is this transform's or no
    transform's; any other path holds those of all records.
   */
  lemma MergedContent(table: Table, blobs: Blobs, skipped: set<string>, transform: Digest, datums: seq<Datum>, p: string)
    requires Merged(table, blobs, skipped, transform, datums).Some?
    ensures var out := Merged(table, blobs, skipped, transform, datums).value;
            && (p in out <==> exists f :: Contributed(table, skipped, transform, datums, f) && f.path == p)
            && (p in out ==> out[p] == Gathered(table, blobs, skipped, transform, datums, p, Wrote(table, skipped, datums, p)))
  {
    var written := FreshPaths(table, skipped, datums);
    var refs := Contributions(table, skipped, transform, written, datums);
    MergeExactly(blobs, refs);
    FreshIsWrote(table, skipped, datums, p);
    ContributionsBytes(table, blobs, skipped, transform, written, datums, p);
    AssembledPaths(blobs, refs, p);
    forall f: FileRef | f.path == p
      ensures f in refs <==> Contributed(table, skipped, transform, datums, f)
    {
      ContributionsHave(table, skipped, transform, written, datums, f);
    }
  }

  // ---- cached equals recomputed ----

  lemma {:induction false} NothingStale(files: seq<FileRef>, written: set<string>)
    ensures Carried(files, written, false) == files
  {
    if files != [] {
      NothingStale(files[..|files| - 1], written);
    }
  }

  /** The record answers for the datum: it completed, on this content, under this transform. */
  ghost predicate Answers(table: Table, transform: Digest, d: Datum) {
    && d.id in table && Completed(table[d.id].outcome)
    && table[d.id].hash == d.hash && table[d.id].transform == transform
  }

  lemma {:induction false} ContributionsReadBack(run: Program, table: Table, blobs: Blobs, skipped: set<string>,
                                                 transform: Digest, written: set<string>, datums: seq<Datum>)
    requires TrueTable(run, blobs, table)
    requires forall d <- datums :: Answers(table, transform, d)
    ensures ReadsAs(blobs, Contributions(table, skipped, transform, written, datums), Recomputed(run, transform, datums))
  {
    if datums != [] {
      var d := datums[|datums| - 1];
      ContributionsReadBack(run, table, blobs, skipped, transform, written, datums[..|datums| - 1]);
      assert Answers(table, transform, d) && TrueRec(run, blobs, d.id, table[d.id]);
      NothingStale(table[d.id].files, written);
    }
  }

  /** When every datum's record answers for it, the merge is the output of running them all again. */
  lemma AnsweredJobRecomputes(run: Program, table: Table, blobs: Blobs, skipped: set<string>, transform: Digest, datums: seq<Datum>)
    requires TrueTable(run, blobs, table)
    requires forall d <- datums :: Answers(table, transform, d)
    ensures Merged(table, blobs, skipped, transform, datums) == Expected(Recomputed(run, transform, datums))
  {
    var written := FreshPaths(table, skipped, datums);
    ContributionsReadBack(run, table, blobs, skipped, transform, written, datums);
    MergeAssembles(blobs, Contributions(table, skipped, transform, written, datums), Recomputed(run, transform, datums));
  }

  // ---- sequences of jobs ----

  /** One job: its datums, its pool, and the pool's states up to where it stopped. */
  datatype JobRun = JobRun(datums: seq<Datum>, reprocess: bool, transform: Digest, workers: nat, bound: nat, tries: nat,
                           budget: nat, states: seq<WorkerPool.State>, steps: seq<WorkerPool.Step>)

  /** What survives between jobs: the dedup table on disk and the blob store. */
  datatype Disk = Disk(table: Table, blobs: Blobs)

  ghost function Pool(j: JobRun, disk: Disk): WorkerPool.Config {
    WorkerPool.Config(ToRun(disk.table, j.reprocess, j.datums), j.workers, j.bound, j.tries, j.transform)
  }

  /** The job loaded the table from disk; with nothing to run it never starts a pool. */
  ghost predicate Launched(run: Program, j: JobRun, disk: Disk) {
    var c := Pool(j, disk);
    && WorkerPool.DistinctIds(j.datums)
    && if c.todo == [] then j.states == [] else
         && WorkerPool.IsRun(run, c, j.states, j.steps)
         && j.states[0] == WorkerPool.Init(c, WithPlaceholders(disk.table, j.datums), disk.blobs, j.budget)
  }

  ghost function LeftBehind(j: JobRun, disk: Disk): Disk {
    if j.states == [] then Disk(WithPlaceholders(disk.table, j.datums), disk.blobs)
    else var last := j.states[|j.states| - 1]; Disk(last.table, last.blobs)
  }

  /** The pool drained and no datum failed. */
  ghost predicate Succeeded(j: JobRun, disk: Disk) {
    j.states != [] ==>
      var last := j.states[|j.states| - 1];
      WorkerPool.Finished(Pool(j, disk), last) && !WorkerPool.AnyFailed(Pool(j, disk), last)
  }

  ghost function Skipped(j: JobRun, disk: Disk): set<string> {
    SkippedIds(disk.table, j.reprocess, j.datums)
  }

  ghost predicate Follows(run: Program, j: JobRun, disk: Disk, disk': Disk) {
    && Launched(run, j, disk)
    && (disk'.table == LeftBehind(j, disk).table || disk'.table == map[])
    && Grown(LeftBehind(j, disk).blobs, disk'.blobs) && HonestBlobs(disk'.blobs)
  }

  /**
    Jobs of one pipeline, one after another. A job may stop anywhere (a crash
    leaves the table as last written), a torn table file reads as empty, and
    other writers may add blobs.
   */
  ghost predicate History(run: Program, jobs: seq<JobRun>, disks: seq<Disk>) {
    && |disks| == |jobs| + 1
    && disks[0].table == map[] && HonestBlobs(disks[0].blobs)
    && (forall k {:trigger jobs[k]} :: 0 <= k < |jobs| ==> Follows(run, jobs[k], disks[k], disks[k + 1]))
  }

  lemma PlannedTrue(run: Program, table: Table, blobs: Blobs, datums: seq<Datum>)
    requires TrueTable(run, blobs, table)
    ensures TrueTable(run, blobs, WithPlaceholders(table, datums))
  {
    PlaceholdersKeep(table, datums);
  }

  /** The pool's invariant, at the point where the job stopped. */
  lemma JobInvariant(run: Program, j: JobRun, disk: Disk)
    requires TrueTable(run, disk.blobs, disk.table) && Launched(run, j, disk) && j.states != []
    ensures WorkerPool.Inv(run, Pool(j, disk), j.states[|j.states| - 1], WithPlaceholders(disk.table, j.datums))
  {
    var c := Pool(j, disk);
    PlannedTrue(run, disk.table, disk.blobs, j.datums);
    ToRunMembers(disk.table, j.reprocess, j.datums);
    WorkerPool.InitHolds(run, c, WithPlaceholders(disk.table, j.datums), disk.blobs, j.budget);
    WorkerPool.RunKeeps(run, c, j.states, j.steps, WithPlaceholders(disk.table, j.datums), |j.states| - 1);
  }

  lemma JobKeepsTable(run: Program, j: JobRun, disk: Disk)
    requires TrueTable(run, disk.blobs, disk.table) && Launched(run, j, disk)
    ensures TrueTable(run, LeftBehind(j, disk).blobs, LeftBehind(j, disk).table)
  {
    PlannedTrue(run, disk.table, disk.blobs, j.datums);
    if j.states != [] {
      JobInvariant(run, j, disk);
    }
  }

  /** Through every history, a completed record pairs its digest with what that run produced. */
  lemma {:induction false} TableStaysTrue(run: Program, jobs: seq<JobRun>, disks: seq<Disk>, k: nat)
    requires History(run, jobs, disks) && k < |disks|
    ensures TrueTable(run, disks[k].blobs, disks[k].table)
  {
    if k > 0 {
      TableStaysTrue(run, jobs, disks, k - 1);
      assert Follows(run, jobs[k - 1], disks[k - 1], disks[k]);
      JobKeepsTable(run, jobs[k - 1], disks[k - 1]);
      var left := LeftBehind(jobs[k - 1], disks[k - 1]);
      GrownKeepsTable(run, left.blobs, disks[k].blobs, left.table);
    }
  }

  ghost predicate OneTransform(table: Table, transform: Digest) {
    forall id <- table :: Completed(table[id].outcome) ==> table[id].transform == transform
  }

  lemma JobKeepsTransform(run: Program, j: JobRun, disk: Disk)
    requires TrueTable(run, disk.blobs, disk.table) && Launched(run, j, disk)
    requires OneTransform(disk.table, j.transform)
    ensures OneTransform(LeftBehind(j, disk).table, j.transform)
  {
    var start := WithPlaceholders(disk.table, j.datums);
    PlaceholdersKeep(disk.table, j.datums);
    if j.states != [] {
      JobInvariant(run, j, disk);
      var c, last := Pool(j, disk), j.states[|j.states| - 1];
      forall id | id in last.table && Completed(last.table[id].outcome)
        ensures last.table[id].transform == j.transform
      {
        if i :| 0 <= i < |c.todo| && c.todo[i].id == id {
          assert WorkerPool.RecordOk(c, last, start, i);
        } else {
          assert forall d <- c.todo :: d.id != id;
        }
      }
    }
  }

  lemma {:induction false} OneTransformStays(run: Program, jobs: seq<JobRun>, disks: seq<Disk>, transform: Digest, k: nat)
    requires History(run, jobs, disks) && k < |disks|
    requires forall j <- jobs :: j.transform == transform
    ensures OneTransform(disks[k].table, transform)
  {
    if k > 0 {
      OneTransformStays(run, jobs, disks, transform, k - 1);
      TableStaysTrue(run, jobs, disks, k - 1);
      var j, disk := jobs[k - 1], disks[k - 1];
      assert j in jobs && Follows(run, j, disk, disks[k]);
      JobKeepsTransform(run, j, disk);
    }
  }

  /** A datum that was skipped is not among the work. */
  lemma SkippedNotRun(table: Table, reprocess: bool, datums: seq<Datum>, d: Datum, e: Datum)
    requires WorkerPool.DistinctIds(datums) && d in datums && Skips(table, reprocess, d)
    requires e in ToRun(table, reprocess, datums)
    ensures e.id != d.id
  {
    ToRunMembers(table, reprocess, datums);
    var a :| 0 <= a < |datums| && datums[a] == d;
    var b :| 0 <= b < |datums| && datums[b] == e;
  }

  lemma RanAnswers(run: Program, j: JobRun, disk: Disk, d: Datum)
    requires TrueTable(run, disk.blobs, disk.table) && Launched(run, j, disk) && Succeeded(j, disk)
    requires d in Pool(j, disk).todo
    ensures Answers(LeftBehind(j, disk).table, j.transform, d)
  {
    var c, last := Pool(j, disk), j.states[|j.states| - 1];
    JobInvariant(run, j, disk);
    WorkerPool.FinishedSettlesAll(run, c, last, WithPlaceholders(disk.table, j.datums));
    var i :| 0 <= i < |c.todo| && c.todo[i] == d;
    assert WorkerPool.SettledAs(c, last, i);
  }

  /** A skipped datum keeps the record it was skipped on. */
  lemma SkippedKeeps(run: Program, j: JobRun, disk: Disk, d: Datum)
    requires TrueTable(run, disk.blobs, disk.table) && Launched(run, j, disk)
    requires d in j.datums && Skips(disk.table, j.reprocess, d)
    ensures d.id in LeftBehind(j, disk).table && LeftBehind(j, disk).table[d.id] == disk.table[d.id]
  {
    PlaceholdersKeep(disk.table, j.datums);
    if j.states != [] {
      JobInvariant(run, j, disk);
      forall e | e in Pool(j, disk).todo
        ensures e.id != d.id
      {
        SkippedNotRun(disk.table, j.reprocess, j.datums, d, e);
      }
    }
  }

  /** After a successful job a datum's record answers for it exactly if it ran, or was skipped on this transform's record. */
  lemma SuccessAnswers(run: Program, j: JobRun, disk: Disk, d: Datum)
    requires TrueTable(run, disk.blobs, disk.table) && Launched(run, j, disk) && Succeeded(j, disk)
    requires d in j.datums
    ensures Answers(LeftBehind(j, disk).table, j.transform, d) <==>
              (Skips(disk.table, j.reprocess, d) ==> disk.table[d.id].transform == j.transform)
  {
    if Skips(disk.table, j.reprocess, d) {
      SkippedKeeps(run, j, disk, d);
    } else {
      ToRunMembers(disk.table, j.reprocess, j.datums);
      RanAnswers(run, j, disk, d);
    }
  }

  /**
    Incremental equals full, one job: whatever happened before, a successful
    job whose carried records come from its own transform merges to exactly
    the output of running all its datums again.
   */
  lemma SuccessfulJobRecomputes(run: Program, jobs: seq<JobRun>, disks: seq<Disk>, k: nat)
    requires History(run, jobs, disks) && k < |jobs|
    requires Succeeded(jobs[k], disks[k])
    requires forall d <- jobs[k].datums :: Skips(disks[k].table, jobs[k].reprocess, d) ==>
               disks[k].table[d.id].transform == jobs[k].transform
    ensures var j, left := jobs[k], LeftBehind(jobs[k], disks[k]);
            Merged(left.table, left.blobs, Skipped(j, disks[k]), j.transform, j.datums)
            == Expected(Recomputed(run, j.transform, j.datums))
  {
    var j, left := jobs[k], LeftBehind(jobs[k], disks[k]);
    TableStaysTrue(run, jobs, disks, k);
    JobKeepsTable(run, j, disks[k]);
    forall d | d in j.datums
      ensures Answers(left.table, j.transform, d)
    {
      SuccessAnswers(run, j, disks[k], d);
    }
    AnsweredJobRecomputes(run, left.table, left.blobs, Skipped(j, disks[k]), j.transform, j.datums);
  }

  /** Incremental equals full, over every sequence of jobs under one transform. */
  lemma CachedEqualsRecomputed(run: Program, jobs: seq<JobRun>, disks: seq<Disk>, transform: Digest, k: nat)
    requires History(run, jobs, disks) && k < |jobs|
    requires forall j <- jobs :: j.transform == transform
    requires Succeeded(jobs[k], disks[k])
    ensures var j, left := jobs[k], LeftBehind(jobs[k], disks[k]);
            Merged(left.table, left.blobs, Skipped(j, disks[k]), transform, j.datums)
            == Expected(Recomputed(run, transform, j.datums))
  {
    OneTransformStays(run, jobs, disks, transform, k);
    SuccessfulJobRecomputes(run, jobs, disks, k);
  }

  lemma {:induction false} NothingSuperseded(files: seq<FileRef>, stale: bool)
    ensures Carried(files, {}, stale) == files
  {
    if files != [] {
      NothingSuperseded(files[..|files| - 1], stale);
    }
  }

  /** A job of one skipped datum merges exactly the carried files. */
  lemma OnlyCarried(table: Table, transform: Digest, d: Datum)
    requires d.id in table
    ensures FreshPaths(table, {d.id}, [d]) == {}
    ensures Contributions(table, {d.id}, transform, {}, [d]) == table[d.id].files
  {
    NothingSuperseded(table[d.id].files, Stale(table[d.id], transform));
    assert [d][..0] == [] && Contributions(table, {d.id}, transform, {}, []) == [];
    assert [] + table[d.id].files == table[d.id].files;
  }

  lemma OneDatumTaken(run: Program, c: WorkerPool.Config, start: Table, d: Datum)
    returns (states: seq<WorkerPool.State>, steps: seq<WorkerPool.Step>)
    requires c == WorkerPool.Config([d], 1, 1, 1, c.transform) && start.Keys == {d.id}
    ensures WorkerPool.IsRun(run, c, states, steps)
    ensures states[0] == WorkerPool.Init(c, start, map[], 0)
    ensures var last := states[|states| - 1];
            && last.fed == 1 && !last.closed && last.chans == [[]] && last.workers == [WorkerPool.AtCheck(0, 1)]
            && last.table.Keys == {d.id} && last.blobs == map[] && !last.cancelled && last.pending == {}
  {
    var s := WorkerPool.Init(c, start, map[], 0);
    states, steps := [s], [];
    WorkerPool.Extend(run, c, states, steps, WorkerPool.Feed);
    states, steps := states + [WorkerPool.Next(run, c, s, WorkerPool.Feed)], steps + [WorkerPool.Feed];
    var fed := states[1];
    assert fed.chans[0] == [0];
    WorkerPool.Extend(run, c, states, steps, WorkerPool.Take(0));
    var taken := WorkerPool.Next(run, c, fed, WorkerPool.Take(0));
    assert taken.chans[0] == [0][1..] == [] && |taken.chans| == 1;
    states, steps := states + [taken], steps + [WorkerPool.Take(0)];
  }

  /** The pool's run on a single datum. */
  lemma OneDatumRun(run: Program, c: WorkerPool.Config, start: Table, d: Datum)
    returns (states: seq<WorkerPool.State>, steps: seq<WorkerPool.Step>)
    requires c == WorkerPool.Config([d], 1, 1, 1, c.transform) && start.Keys == {d.id}
    ensures WorkerPool.IsRun(run, c, states, steps)
    ensures states[0] == WorkerPool.Init(c, start, map[], 0)
    ensures var last := states[|states| - 1];
            && WorkerPool.Finished(c, last) && !WorkerPool.AnyFailed(c, last)
            && last.table == map[d.id := Rec(d.hash, Success, Stored(run(c.transform, d)), c.transform, 0)]
            && last.blobs == WriteBlobs(map[], run(c.transform, d))
  {
    states, steps := OneDatumTaken(run, c, start, d);
    WorkerPool.Extend(run, c, states, steps, WorkerPool.Begin(0));
    states, steps := states + [WorkerPool.Next(run, c, states[|states| - 1], WorkerPool.Begin(0))], steps + [WorkerPool.Begin(0)];
    var done := WorkerPool.AttemptCompletes(0, Success);
    WorkerPool.Extend(run, c, states, steps, done);
    states, steps := states + [WorkerPool.Next(run, c, states[|states| - 1], done)], steps + [done];
    WorkerPool.Extend(run, c, states, steps, WorkerPool.Close);
    states, steps := states + [WorkerPool.Next(run, c, states[|states| - 1], WorkerPool.Close)], steps + [WorkerPool.Close];
    WorkerPool.Extend(run, c, states, steps, WorkerPool.End(0));
    states, steps := states + [WorkerPool.Next(run, c, states[|states| - 1], WorkerPool.End(0))], steps + [WorkerPool.End(0)];
  }

  lemma PlanOne(table: Table, d: Datum)
    requires d.id !in table
    ensures ToRun(table, false, [d]) == [d]
    ensures WithPlaceholders(table, [d]) == table[d.id := Rec(d.hash, InProgress, [], NO_TRANSFORM, 0)]
  {
    PlanStep(table, false, [], d);
    assert [] + [d] == [d];
  }

  /** One datum, one worker, one attempt: the job runs to its end and leaves a success record. */
  lemma RunOneJob(run: Program, transform: Digest, d: Datum, disk: Disk) returns (j: JobRun)
    requires disk.table == map[] && disk.blobs == map[]
    ensures j.datums == [d] && j.transform == transform
    ensures Launched(run, j, disk) && Succeeded(j, disk)
    ensures LeftBehind(j, disk).table == map[d.id := Rec(d.hash, Success, Stored(run(transform, d)), transform, 0)]
    ensures LeftBehind(j, disk).blobs == WriteBlobs(map[], run(transform, d))
  {
    PlanOne(disk.table, d);
    var c := WorkerPool.Config([d], 1, 1, 1, transform);
    var start := WithPlaceholders(disk.table, [d]);
    var states, steps := OneDatumRun(run, c, start, d);
    j := JobRun([d], false, transform, 1, 1, 1, 0, states, steps);
    assert Pool(j, disk) == c;
  }

  /** A second job on the same datum skips it, starts no pool, and merges the carried files. */
  lemma SkipOneJob(run: Program, transform: Digest, d: Datum, disk: Disk) returns (j: JobRun)
    requires d.id in disk.table && disk.table.Keys == {d.id}
    requires disk.table[d.id].outcome == Success && disk.table[d.id].hash == d.hash
    ensures j.datums == [d] && j.transform == transform
    ensures Launched(run, j, disk) && Succeeded(j, disk) && LeftBehind(j, disk) == disk
    ensures Merged(disk.table, disk.blobs, Skipped(j, disk), transform, [d]) == MergeRefs(disk.blobs, disk.table[d.id].files)
    ensures Recomputed(run, transform, [d]) == run(transform, d)
  {
    assert [d][..0] == [];
    assert Skips(disk.table, false, d) && ToRun(disk.table, false, [d]) == [];
    assert WithPlaceholders(disk.table, [d]) == disk.table;
    j := JobRun([d], false, transform, 1, 1, 1, 0, [], []);
    assert Skipped(j, disk) == {d.id};
    OnlyCarried(disk.table, transform, d);
    assert Recomputed(run, transform, [d]) == [] + run(transform, d);
  }

  /**
    Across a transform change the equation can fail: the dedup table survives
    an update that keeps the input. One job under `before` and then one under
    `after`, both successful, on any datum of which the two transforms make
    different output: the second job skips it and carries the old files.
   */
  lemma StaleCarryDiffers(run: Program, before: Digest, after: Digest, d: Datum)
    returns (jobs: seq<JobRun>, disks: seq<Disk>)
    requires Expected(run(before, d)) != Expected(run(after, d))
    ensures History(run, jobs, disks) && |jobs| == 2
    ensures jobs[0].transform == before && jobs[1].transform == after && jobs[0].datums == jobs[1].datums == [d]
    ensures Succeeded(jobs[0], disks[0]) && Succeeded(jobs[1], disks[1])
    ensures var left := LeftBehind(jobs[1], disks[1]);
            Merged(left.table, left.blobs, Skipped(jobs[1], disks[1]), after, [d]) != Expected(Recomputed(run, after, [d]))
  {
    var empty := Disk(map[], map[]);
    var first := RunOneJob(run, before, d, empty);
    var disk := LeftBehind(first, empty);
    var second := SkipOneJob(run, after, d, disk);
    jobs, disks := [first, second], [empty, disk, disk];
    var files := run(before, d);
    WriteBlobsGrows(map[], files);
    assert Follows(run, first, empty, disk) && Follows(run, second, disk, disk);
    StoredReadsBack(map[], files);
    MergeAssembles(disk.blobs, Stored(files), files);
  }

  // ---- exactly when the carried output is right ----

  /** What the records say a transform makes of a datum; nothing where they say nothing. */
  ghost function Known(table: Table, blobs: Blobs): Program {
    (transform, d) => if Answers(table, transform, d) then ReadBack(blobs, table[d.id].files) else []
  }

  /** Whatever program wrote these records, `m` is what running every datum again gives. */
  ghost predicate RightForAll(table: Table, blobs: Blobs, transform: Digest, datums: seq<Datum>, m: Option<Output>) {
    forall p: Program {:trigger TrueTable(p, blobs, table)} ::
      TrueTable(p, blobs, table) ==> m == Expected(Recomputed(p, transform, datums))
  }

  lemma KnownAgrees(p: Program, table: Table, blobs: Blobs, transform: Digest, d: Datum)
    requires TrueTable(p, blobs, table) && Answers(table, transform, d)
    ensures Known(table, blobs)(transform, d) == p(transform, d)
  {
    assert TrueRec(p, blobs, d.id, table[d.id]) && Datum(d.id, table[d.id].hash) == d;
  }

  lemma KnownTrue(p: Program, table: Table, blobs: Blobs)
    requires TrueTable(p, blobs, table)
    ensures TrueTable(Known(table, blobs), blobs, table)
  {
    forall id | id in table && Completed(table[id].outcome)
      ensures TrueRec(Known(table, blobs), blobs, id, table[id])
    {
      KnownAgrees(p, table, blobs, table[id].transform, Datum(id, table[id].hash));
      assert TrueRec(p, blobs, id, table[id]);
    }
  }

  /** A program consistent with the records makes at least the known files. */
  lemma {:induction false} KnownWithin(p: Program, table: Table, blobs: Blobs, transform: Digest, datums: seq<Datum>)
    requires TrueTable(p, blobs, table)
    ensures forall f <- Recomputed(Known(table, blobs), transform, datums) :: f in Recomputed(p, transform, datums)
    ensures (forall d <- datums :: Answers(table, transform, d)) ==>
              Recomputed(Known(table, blobs), transform, datums) == Recomputed(p, transform, datums)
  {
    if datums != [] {
      var d := datums[|datums| - 1];
      KnownWithin(p, table, blobs, transform, datums[..|datums| - 1]);
      if Answers(table, transform, d) {
        KnownAgrees(p, table, blobs, transform, d);
      }
      assert d in datums && forall e <- datums[..|datums| - 1] :: e in datums;
    }
  }

  lemma {:induction false} FreshLength(paths: set<string>) returns (n: nat)
    ensures forall p <- paths :: |p| < n
  {
    if paths == {} {
      n := 0;
    } else {
      var q :| q in paths;
      n := FreshLength(paths - {q});
      n := if n <= |q| then |q| + 1 else n;
    }
  }

  lemma {:induction false} RecomputedHas(p: Program, transform: Digest, datums: seq<Datum>, d: Datum, f: File)
    requires d in datums && f in p(transform, d)
    ensures f in Recomputed(p, transform, datums)
  {
    var last := datums[|datums| - 1];
    if d != last {
      assert d in datums[..|datums| - 1];
      RecomputedHas(p, transform, datums[..|datums| - 1], d, f);
    }
  }

  /** Where the records say nothing about a datum, some program that wrote them makes something else. */
  lemma UnrecordedDiffers(p: Program, table: Table, blobs: Blobs, transform: Digest, datums: seq<Datum>, d: Datum, out: Output)
    returns (other: Program)
    requires TrueTable(p, blobs, table) && d in datums && !Answers(table, transform, d)
    ensures TrueTable(other, blobs, table) && Expected(Recomputed(other, transform, datums)) != Some(out)
  {
    var n := FreshLength(out.Keys);
    var extra := File(seq(n, _ => 'x'), []);
    other := (t, e) => if t == transform && e == d then [extra] else p(t, e);
    forall id | id in table && Completed(table[id].outcome)
      ensures TrueRec(other, blobs, id, table[id])
    {
      assert TrueRec(p, blobs, id, table[id]);
      assert Answers(table, table[id].transform, Datum(id, table[id].hash));
    }
    RecomputedHas(other, transform, datums, d, extra);
    assert extra.path !in out;
  }

  /**
    Exactly when a merged output is right whatever program wrote the records:
    it is the output of the known files, and if it is an output at all, every
    datum's record answers for it under this transform.
   */
  lemma RightExactly(p: Program, table: Table, blobs: Blobs, transform: Digest, datums: seq<Datum>, m: Option<Output>)
    requires TrueTable(p, blobs, table)
    ensures RightForAll(table, blobs, transform, datums, m) <==>
              && m == Expected(Recomputed(Known(table, blobs), transform, datums))
              && (m.Some? ==> forall d <- datums :: Answers(table, transform, d))
  {
    var known := Recomputed(Known(table, blobs), transform, datums);
    if RightForAll(table, blobs, transform, datums, m) {
      KnownTrue(p, table, blobs);
      forall d | d in datums && m.Some?
        ensures Answers(table, transform, d)
      {
        if !Answers(table, transform, d) {
          var other := UnrecordedDiffers(p, table, blobs, transform, datums, d, m.value);
          assert false;
        }
      }
    } else {
      var q :| TrueTable(q, blobs, table) && m != Expected(Recomputed(q, transform, datums));
      KnownWithin(q, table, blobs, transform, datums);
      CompatibleIsPairwise(known);
      CompatibleIsPairwise(Recomputed(q, transform, datums));
    }
  }

  /**
    Exactly when a successful job's output is right whatever program wrote the
    records, in terms of what it skipped: each skipped datum's record comes
    from the job's own transform.
   */
  lemma RightByTransform(run: Program, jobs: seq<JobRun>, disks: seq<Disk>, k: nat)
    requires History(run, jobs, disks) && k < |jobs| && Succeeded(jobs[k], disks[k])
    requires Merged(LeftBehind(jobs[k], disks[k]).table, LeftBehind(jobs[k], disks[k]).blobs,
                    Skipped(jobs[k], disks[k]), jobs[k].transform, jobs[k].datums).Some?
    ensures var j, left := jobs[k], LeftBehind(jobs[k], disks[k]);
            RightForAll(left.table, left.blobs, j.transform, j.datums,
                        Merged(left.table, left.blobs, Skipped(j, disks[k]), j.transform, j.datums))
            <==> forall d <- j.datums :: Skips(disks[k].table, j.reprocess, d) ==> disks[k].table[d.id].transform == j.transform
  {
    var j, disk, left := jobs[k], disks[k], LeftBehind(jobs[k], disks[k]);
    var m := Merged(left.table, left.blobs, Skipped(j, disk), j.transform, j.datums);
    TableStaysTrue(run, jobs, disks, k);
    JobKeepsTable(run, j, disk);
    forall d | d in j.datums
      ensures Answers(left.table, j.transform, d) <==> (Skips(disk.table, j.reprocess, d) ==> disk.table[d.id].transform == j.transform)
    {
      SuccessAnswers(run, j, disk, d);
    }
    if forall d <- j.datums :: Answers(left.table, j.transform, d) {
      forall p: Program | TrueTable(p, left.blobs, left.table)
        ensures m == Expected(Recomputed(p, j.transform, j.datums))
      {
        AnsweredJobRecomputes(p, left.table, left.blobs, Skipped(j, disk), j.transform, j.datums);
      }
    } else {
      RightExactly(run, left.table, left.blobs, j.transform, j.datums, m);
    }
  }
}
