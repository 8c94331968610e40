# Image uploader admission, deletion and rotation commit

A model of the state-changing core of the `FileUploader` React component of
an image uploader: a gallery of at most five PNG or JPEG images of at most
500 KiB each, with a single error line and a single snackbar notification.

The component's three state hooks — `files`, `error` and `snackbarData` —
are the fields of the class `Uploader.FileUploader`. Each handler is a method
that assigns those fields in the order the handler calls their setters, so a
later write to the same slot wins, as it does in React's batched update:

- `ValidateAndAddFiles` filters the batch by type and size (the pure filter
  `Admission.ValidFiles`), then admits either all of the valid files or none
  of them; the success notification reports the number admitted; the error
  slot is cleared on admission, set to the capacity text otherwise, and then
  overwritten by the format text if any file of the batch was rejected.
- `HandleDelete` keeps every file whose position differs from the index
  (`Sequences.RemoveAt`, a model of the index filter) and posts the deletion
  notice with severity `error`, as the component does.
- `CommitRotation` is the synchronous tail of the rotate handler: the new
  file has the old file's name and type, the re-encoded bytes, and swapped
  width and height; it replaces the entry at the index in a copy of the list.
- `ClearNotification` is the snackbar's and the alert's close handler.

A file is the record `Images.ImageFile` (name, MIME type, payload bytes,
width, height); its size is the number of payload bytes. The notification
texts and the decimal rendering of the admitted count are in
`Notifications`. `Uploader.AdmissionScenario` and `Uploader.EditScenario`
walk through the gallery scenario: three files admitted, three more refused
as a whole, a mixed batch admitted with the format text shown, a left
rotation, a deletion, a dismissal.

Three behaviours of the code that the model keeps as written:

- A non-empty batch whose files are all rejected, when it fits, shows
  `0 images uploaded successfully.` in the snackbar and then the format text
  in the error line. An empty batch (for example a drop that carries no
  files) shows the same count of 0 and clears the error, because no file
  was rejected.
- Deleting an index that no file has changes nothing but still posts the
  deletion notice.
- The rotation commit does not re-check the 500 KiB cap on the re-encoded
  bytes (`Admission.RotatedAcceptable`), so the invariant that every stored
  file is acceptable is kept by admission and deletion only.

## Model

| member | source | states |
|---|---|---|
| `Admission.ValidFiles` | app/components/FileUploader.tsx:64-68 | the valid list is no longer than the batch, holds only PNG/JPEG files of at most 512000 bytes, and equals the batch exactly when every file of the batch passes (its length equals the batch's iff nothing is rejected) |
| `Admission.ValidFilesIsSubsequence` | app/components/FileUploader.tsx:64-68 | the filter keeps arrival order: the valid list is a subsequence of the batch |
| `Admission.ValidFilesOccurrences` | app/components/FileUploader.tsx:64-68 | an acceptable file keeps every one of its occurrences in the batch, a rejected file keeps none |
| `Admission.ValidFilesMembership` | app/components/FileUploader.tsx:64-68 | a file is kept iff it is in the batch and its type is `image/png` or `image/jpeg` and its size is at most 500 × 1024 |
| `Admission.RotatedAcceptable` | app/components/FileUploader.tsx:116-119 | a rotated acceptable file stays acceptable iff the re-encoded bytes are within the size cap: the commit does not re-validate |
| `Sequences.KeepOtherPositions` | app/components/FileUploader.tsx:87 | filtering out one position removes exactly that element when the position exists, and nothing otherwise |
| `Sequences.RemoveAt` | app/components/FileUploader.tsx:87 | an in-range index shortens the list by one, keeps the elements before it in place and shifts those after it down by one; any other index leaves the list unchanged |
| `Sequences.RemoveAtIsSubsequence` | app/components/FileUploader.tsx:87 | what a deletion leaves is a subsequence of the list before it (relative order kept) |
| `Notifications.Decimal` | app/components/FileUploader.tsx:73 | the rendered count is a non-empty string of decimal digits with no leading zero |
| `Notifications.DecimalRoundTrip` | app/components/FileUploader.tsx:73 | reading the rendered count back as a decimal number yields the count |
| `Notifications.UploadedMessageInjective` | app/components/FileUploader.tsx:72-75 | two success texts are equal only for equal counts, so the text reports the count exactly |
| `Notifications.UploadedMessageNonEmpty` | app/components/FileUploader.tsx:72-75 | the success text starts with a digit and is never empty, so it opens the snackbar even for a count of zero |
| `Images.RotatedFileShape` | app/components/FileUploader.tsx:110-117 | the rotated file has the source's name and type, the re-encoded bytes as its size, width = source height and height = source width |
| `Images.RotateTwiceRestoresDimensions` | app/components/FileUploader.tsx:110-111 | two rotations, in any directions, restore the original file except for its bytes |
| `Images.RotatedTimesDimensions` | app/components/FileUploader.tsx:110-111 | after an even number of rotations the dimensions are the original ones, after an odd number they are swapped; name and type never change |
| `Uploader.AdmissionError` | app/components/FileUploader.tsx:70-83 | the final error is the format text iff some file was rejected, the capacity text iff none was and the valid files do not fit, and empty iff none was and they fit |
| `Uploader.FileUploader.constructor` | app/components/FileUploader.tsx:34-40 | an empty collection, an empty error and a closed snackbar |
| `Uploader.FileUploader.ValidateAndAddFiles` | app/components/FileUploader.tsx:63-84 | if the current count plus the valid count is at most 5, the collection becomes the old one followed by the valid files and the snackbar reports their count with severity `success`; otherwise collection and snackbar are unchanged; the error is `AdmissionError`; the bound of five and the acceptability of every stored file are preserved |
| `Uploader.FileUploader.HandleDelete` | app/components/FileUploader.tsx:86-93 | the collection becomes `RemoveAt` of the old one (exactly element `index` removed when in range); the error is unchanged; the snackbar holds the deletion notice with severity `error`; the bound and acceptability are preserved |
| `Uploader.FileUploader.CommitRotation` | app/components/FileUploader.tsx:116-125 | the length is unchanged; the entry at `index` becomes the rotated file (same name and type, swapped dimensions); every other entry is unchanged; the error is unchanged; the snackbar announces the direction with severity `success` |
| `Uploader.FileUploader.ClearNotification` | app/components/FileUploader.tsx:246-249 | the snackbar is cleared to an empty message and severity; files and error are unchanged |
| `Uploader.AdmissionScenario` | app/components/FileUploader.tsx:63-84 | the ensures give the final state: collection `[a, b, c, d]` and the format text; the body's asserts prove each step on the way — three valid files admitted with a count of 3, three more refused as a whole with the capacity text and the snackbar unchanged, a mixed batch that fits admitting its valid file |
| `Uploader.EditScenario` | app/components/FileUploader.tsx:86-125 | rotating entry 0 and deleting entry 1 of four leaves the rotated entry, then the former entries 2 and 3; closing the snackbar leaves the error alone |

## Left out

- Loading and saving the collection in `localStorage` (lines 42-50): browser storage and JSON serialisation of `File` objects; the constructor starts from the empty collection.
- `handleFileChange` and `handleDrop` (lines 52-61): they only turn the browser's file list into the batch that `ValidateAndAddFiles` takes as its parameter.
- Decoding with `FileReader` and `Image`, drawing on a canvas and `canvas.toBlob` (lines 96-98, 102-109, 112-116, 128): asynchronous browser APIs and floating-point transforms. The re-encoded bytes are a parameter of `CommitRotation`; the pixels are not modelled, and neither is a failed encode (a null blob).
- Anything that happens between a rotate click and its commit: the commit stores a copy of the `files` list of the render in which the button was clicked (line 118), not the current list. The model commits against the current list, so it assumes no other handler runs while the image is decoded and re-encoded; `CommitRotation`'s "every other entry is unchanged" holds only under that assumption. In the source, the commit undoes every change made in that window: a file deleted then comes back, files admitted then disappear, and a rotation committed then (of the same or of another index, when both were started from the same render) is lost.
- Uploader.FileUploader.CommitRotation: requires an index inside the list, because the rotate buttons are rendered per existing entry (lines 179, 207-217); assigning past the end of a JavaScript array is not modelled.
- The preview dialog, the layout, object URLs and the snackbar's three-second auto-hide timer (lines 131-256): presentation and timers; the timer's effect is the same as `ClearNotification`.
