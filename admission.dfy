/** The admission filter of `validateAndAddFiles`: which files of a
    candidate batch are kept, and in what order. */
module Admission {
  import opened Images
  import opened Sequences

  const PngType: string := "image/png"
  const JpegType: string := "image/jpeg"

  /** The per-file size cap, 500 × 1024 bytes. */
  const MaxFileSize: nat := 500 * 1024

  /** The collection capacity. */
  const MaxFiles: nat := 5

  /** The filter's test: a PNG or JPEG type and at most 500 KiB. */
  predicate IsAcceptable(f: ImageFile) {
    (f.mime == PngType || f.mime == JpegType) && f.Size() <= MaxFileSize
  }

  predicate AllAcceptable(batch: seq<ImageFile>) {
    forall k :: 0 <= k < |batch| ==> IsAcceptable(batch[k])
  }

  /** `selectedFiles.filter(...)`: the acceptable files of the batch, in
      arrival order. The result is never longer than the batch, and it is
      the whole batch exactly when no file in it is rejected — the condition
      under which no format diagnostic is raised. */
  function ValidFiles(batch: seq<ImageFile>): (valid: seq<ImageFile>)
    ensures |valid| <= |batch|
    ensures AllAcceptable(valid)
    ensures |valid| == |batch| <==> AllAcceptable(batch)
    ensures AllAcceptable(batch) <==> valid == batch
  {
    if batch == [] then []
    else if IsAcceptable(batch[0]) then [batch[0]] + ValidFiles(batch[1..])
    else ValidFiles(batch[1..])
  }

  /** The filter keeps arrival order: the valid files are a subsequence of
      the batch. */
  lemma {:induction false} ValidFilesIsSubsequence(batch: seq<ImageFile>)
    ensures IsSubsequence(ValidFiles(batch), batch)
  {
    if batch != [] {
      ValidFilesIsSubsequence(batch[1..]);
      var valid := ValidFiles(batch);
      if IsAcceptable(batch[0]) {
        assert valid[0] == batch[0] && valid[1..] == ValidFiles(batch[1..]);
      } else {
        assert valid == ValidFiles(batch[1..]);
        if valid != [] {
          assert IsSubsequence(valid, batch[1..]);
        }
      }
    }
  }

  /** Each acceptable file keeps all its occurrences, each rejected file
      loses all of them. With the subsequence lemma this pins the filter
      down completely. */
  lemma {:induction false} ValidFilesOccurrences(batch: seq<ImageFile>, f: ImageFile)
    ensures multiset(ValidFiles(batch))[f] == if IsAcceptable(f) then multiset(batch)[f] else 0
  {
    if batch != [] {
      ValidFilesOccurrences(batch[1..], f);
      assert batch == [batch[0]] + batch[1..];
      assert multiset(batch) == multiset([batch[0]]) + multiset(batch[1..]);
    }
  }

  /** A file is kept iff it is in the batch and passes the type and size test. */
  lemma ValidFilesMembership(batch: seq<ImageFile>, f: ImageFile)
    ensures f in ValidFiles(batch) <==> f in batch && IsAcceptable(f)
  {
    ValidFilesOccurrences(batch, f);
    assert f in ValidFiles(batch) <==> multiset(ValidFiles(batch))[f] > 0;
    assert f in batch <==> multiset(batch)[f] > 0;
  }

  /** The rotation commit does not re-check the admission rule: a rotated
      file stays acceptable exactly when the re-encoded bytes still fit
      under the size cap. */
  lemma RotatedAcceptable(f: ImageFile, encoded: seq<bv8>)
    requires IsAcceptable(f)
    ensures IsAcceptable(RotatedFile(f, encoded)) <==> |encoded| <= MaxFileSize
  {
  }
}
