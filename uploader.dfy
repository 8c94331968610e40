/** The `FileUploader` component's state and the handlers that change it.
    Each React state hook is a field; each setter call is an assignment,
    made in the handler's own order, so a later write to a slot overwrites
    an earlier one. */
module Uploader {
  import opened Images
  import opened Admission
  import opened Sequences
  import opened Notifications

  /** The capacity test of `validateAndAddFiles`: the current count plus
      the count of the batch's valid files is at most five. */
  predicate Fits(current: seq<ImageFile>, batch: seq<ImageFile>) {
    |current| + |ValidFiles(batch)| <= MaxFiles
  }

  /** The error slot after an admission: the format text if the batch held
      a rejected file (it is written last), otherwise cleared when the batch
      was admitted and the capacity text when it was not. */
  function AdmissionError(current: seq<ImageFile>, batch: seq<ImageFile>): (message: string)
    ensures message == FormatMessage <==> |ValidFiles(batch)| != |batch|
    ensures message == CapacityMessage <==> |ValidFiles(batch)| == |batch| && !Fits(current, batch)
    ensures message == "" <==> |ValidFiles(batch)| == |batch| && Fits(current, batch)
  {
    if !AllAcceptable(batch) then FormatMessage
    else if Fits(current, batch) then ""
    else CapacityMessage
  }

  class FileUploader {
    var files: seq<ImageFile>
    var error: string
    var snackbarData: Notification

    /** The collection bound. */
    ghost predicate Valid()
      reads this
    {
      |files| <= MaxFiles
    }

    /** The initial hook values: no files, no error, a closed snackbar. */
    constructor ()
      ensures Valid()
      ensures files == [] && error == "" && snackbarData == NoNotification
    {
      files := [];
      error := "";
      snackbarData := NoNotification;
    }

    /** `validateAndAddFiles`: filter the batch, then admit all of its valid
        files or none of them. */
    method ValidateAndAddFiles(selectedFiles: seq<ImageFile>)
      modifies this
      ensures Fits(old(files), selectedFiles) ==>
        files == old(files) + ValidFiles(selectedFiles) &&
        snackbarData == Notification(UploadedMessage(|ValidFiles(selectedFiles)|), SuccessSeverity)
      ensures !Fits(old(files), selectedFiles) ==>
        files == old(files) && snackbarData == old(snackbarData)
      ensures error == AdmissionError(old(files), selectedFiles)
      ensures old(Valid()) ==> Valid()
      ensures old(AllAcceptable(files)) ==> AllAcceptable(files)
    {
      var validFiles := ValidFiles(selectedFiles);
      if |files| + |validFiles| <= MaxFiles {
        files := files + validFiles;
        snackbarData := Notification(UploadedMessage(|validFiles|), SuccessSeverity);
        error := "";
      } else {
        error := CapacityMessage;
      }
      if |validFiles| != |selectedFiles| {
        error := FormatMessage;
      }
    }

    /** `handleDelete`: drop the file at `index` (an index no file has
        removes nothing) and announce the deletion. */
    method HandleDelete(index: int)
      modifies this
      ensures files == RemoveAt(old(files), index)
      ensures 0 <= index < |old(files)| ==> files == old(files)[..index] + old(files)[index + 1..]
      ensures error == old(error)
      ensures snackbarData == Notification(DeletedMessage, ErrorSeverity)
      ensures old(Valid()) ==> Valid()
      ensures old(AllAcceptable(files)) ==> AllAcceptable(files)
    {
      var updatedFiles := RemoveAt(files, index);
      files := updatedFiles;
      snackbarData := Notification(DeletedMessage, ErrorSeverity);
    }

    /** The synchronous tail of `handleRotate`, run once the canvas has been
        re-encoded to `encoded`: copy the list, put the rotated file at
        `index`, store the copy and announce the rotation. */
    method CommitRotation(index: nat, direction: Direction, encoded: seq<bv8>)
      requires index < |files|
      modifies this
      ensures |files| == |old(files)|
      ensures files[index] == RotatedFile(old(files)[index], encoded)
      ensures files[index].name == old(files)[index].name && files[index].mime == old(files)[index].mime
      ensures files[index].width == old(files)[index].height && files[index].height == old(files)[index].width
      ensures forall k :: 0 <= k < |files| && k != index ==> files[k] == old(files)[k]
      ensures error == old(error)
      ensures snackbarData == Notification("Image rotated " + direction.Name() + ".", SuccessSeverity)
      ensures old(Valid()) ==> Valid()
    {
      var source := files[index];
      var updatedFile := RotatedFile(source, encoded);
      var updatedFiles := files;
      updatedFiles := updatedFiles[index := updatedFile];
      files := updatedFiles;
      snackbarData := Notification("Image rotated " + direction.Name() + ".", SuccessSeverity);
    }

    /** The snackbar's and the alert's close handlers. */
    method ClearNotification()
      modifies this
      ensures snackbarData == NoNotification
      ensures files == old(files) && error == old(error)
    {
      snackbarData := NoNotification;
    }
  }

  /** A walk-through of the gallery, first part: three valid files
      `a`, `b`, `c` are admitted; a second batch of three valid files is
      refused as a whole; a mixed batch that fits admits its valid file and
      shows the format text. */
  method AdmissionScenario(a: ImageFile, b: ImageFile, c: ImageFile,
                           d: ImageFile, bad: ImageFile)
    returns (u: FileUploader)
    requires IsAcceptable(a) && IsAcceptable(b) && IsAcceptable(c) && IsAcceptable(d)
    requires !IsAcceptable(bad)
    ensures u.files == [a, b, c, d] && u.error == FormatMessage
  {
    u := new FileUploader();
    var first := [a, b, c];
    assert AllAcceptable(first);
    u.ValidateAndAddFiles(first);
    assert u.files == first && u.error == "";
    assert u.snackbarData == Notification(UploadedMessage(3), SuccessSeverity);

    // Three more would make six: the whole batch is refused.
    var second := [d, d, d];
    assert AllAcceptable(second);
    u.ValidateAndAddFiles(second);
    assert u.files == first && u.error == CapacityMessage;
    assert u.snackbarData == Notification(UploadedMessage(3), SuccessSeverity);

    var mixed := [bad, d];
    assert ValidFiles(mixed) == [d];
    u.ValidateAndAddFiles(mixed);
  }

  /** Second part: rotate the first file left, delete the second, close
      the snackbar. */
  method EditScenario(u: FileUploader, encoded: seq<bv8>)
    requires |u.files| == 4
    modifies u
    ensures u.files == [RotatedFile(old(u.files)[0], encoded), old(u.files)[2], old(u.files)[3]]
    ensures u.snackbarData == NoNotification && u.error == old(u.error)
  {
    var before := u.files;
    u.CommitRotation(0, Left, encoded);
    assert u.files[0].name == before[0].name;
    assert u.files[0].width == before[0].height && u.files[0].height == before[0].width;

    u.HandleDelete(1);
    assert u.files == [RotatedFile(before[0], encoded), before[2], before[3]];

    var error := u.error;
    u.ClearNotification();
    assert u.snackbarData == NoNotification && u.error == error;
  }
}
