/**
  Datum records: what the per-pipeline dedup table stores about each datum,
  and what makes a stored success trustworthy.
 */
module Datums {
  type Bytes = seq<bv8>

  /** A SHA-256 digest, treated as collision free: it stands for the bytes it was taken of. */
  datatype Digest = Sha(of: Bytes)

  datatype File = File(path: string, data: Bytes)

  /** A record's reference to a stored blob. */
  datatype FileRef = FileRef(path: string, hash: Digest)

  datatype Outcome = InProgress | Success | Recovered | Failed

  /** Records that no completed run wrote carry no transform digest. */
  const NO_TRANSFORM := Sha([])

  datatype Rec = Rec(hash: Digest, outcome: Outcome, files: seq<FileRef>, transform: Digest, worker: nat)

  /** One unit of work: its identity and the digest of the content it reads. */
  datatype Datum = Datum(id: string, hash: Digest)

  type Table = map<string, Rec>
  type Blobs = map<Digest, Bytes>

  /**
    A deterministic transform: the files a completed run leaves, as a function
    of the transform's digest and of the datum: its identity, which fixes the
    paths the run sees, and its content digest. A run may also not complete
    (a failed attempt, a cancel, a restart).
   */
  type Program = (Digest, Datum) -> seq<File>

  function Stored(files: seq<File>): (r: seq<FileRef>) {
    seq(|files|, i requires 0 <= i < |files| => FileRef(files[i].path, Sha(files[i].data)))
  }

  /** `storeOutput`: every produced file's content becomes a blob. */
  function WriteBlobs(blobs: Blobs, files: seq<File>): Blobs {
    if files == [] then blobs
    else WriteBlobs(blobs, files[..|files| - 1])[Sha(files[|files| - 1].data) := files[|files| - 1].data]
  }

  /** The references read back, from the blob store, exactly as `files`. */
  ghost predicate ReadsAs(blobs: Blobs, refs: seq<FileRef>, files: seq<File>) {
    && |refs| == |files|
    && (forall i :: 0 <= i < |refs| ==>
          refs[i].path == files[i].path && refs[i].hash in blobs && blobs[refs[i].hash] == files[i].data)
  }

  ghost predicate HonestBlobs(blobs: Blobs) {
    forall h <- blobs :: h == Sha(blobs[h])
  }

  predicate Completed(o: Outcome) {
    o == Success || o == Recovered
  }

  /** A completed record pairs its datum with the files its transform makes of it. */
  ghost predicate TrueRec(run: Program, blobs: Blobs, id: string, r: Rec) {
    Completed(r.outcome) ==> ReadsAs(blobs, r.files, run(r.transform, Datum(id, r.hash)))
  }

  ghost predicate TrueTable(run: Program, blobs: Blobs, t: Table) {
    HonestBlobs(blobs) && forall id <- t :: TrueRec(run, blobs, id, t[id])
  }

  ghost predicate Grown(a: Blobs, b: Blobs) {
    forall h <- a :: h in b && b[h] == a[h]
  }

  lemma {:induction false} WriteBlobsGrows(blobs: Blobs, files: seq<File>)
    requires HonestBlobs(blobs)
    ensures var after := WriteBlobs(blobs, files);
            && HonestBlobs(after) && Grown(blobs, after)
            && (forall i :: 0 <= i < |files| ==> Sha(files[i].data) in after)
  {
    if files != [] {
      var init := files[..|files| - 1];
      WriteBlobsGrows(blobs, init);
      assert forall i :: 0 <= i < |init| ==> init[i] == files[i];
    }
  }

  lemma StoredReadsBack(blobs: Blobs, files: seq<File>)
    requires HonestBlobs(blobs)
    ensures ReadsAs(WriteBlobs(blobs, files), Stored(files), files)
  {
    WriteBlobsGrows(blobs, files);
  }

  lemma GrownKeepsTable(run: Program, a: Blobs, b: Blobs, t: Table)
    requires TrueTable(run, a, t) && Grown(a, b) && HonestBlobs(b)
    ensures TrueTable(run, b, t)
  {
    forall id | id in t
      ensures TrueRec(run, b, id, t[id])
    {
      assert TrueRec(run, a, id, t[id]);
    }
  }
}
