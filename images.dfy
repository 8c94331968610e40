/** The file records the uploader works on, and the one transformation it
    applies to them itself: the rotation commit, which swaps the dimensions. */
module Images {

  /** A browser `File` as the uploader sees it. `bytes` is the opaque
      payload; its length is the file's byte size. `width` and `height` are
      the dimensions of the decoded raster. */
  datatype ImageFile = ImageFile(
    name: string,
    mime: string,
    bytes: seq<bv8>,
    width: nat,
    height: nat)
  {
    /** `File.size`: the number of bytes in the payload. */
    function Size(): nat {
      |bytes|
    }
  }

  /** The two directions a rotate button can ask for. */
  datatype Direction = Left | Right {
    /** The direction as the component spells it in its rotate message. */
    function Name(): string {
      match this
      case Left => "left"
      case Right => "right"
    }
  }

  /** The file the rotation commit builds from the re-encoded blob: the
      source's name and type, the blob's bytes, width and height swapped
      (the canvas is allocated with the source's height as its width). */
  function RotatedFile(source: ImageFile, encoded: seq<bv8>): (r: ImageFile) {
    ImageFile(source.name, source.mime, encoded, source.height, source.width)
  }

  /** The rotation commit keeps the name and the type, takes the new bytes
      and swaps the two dimensions. */
  lemma RotatedFileShape(source: ImageFile, encoded: seq<bv8>)
    ensures RotatedFile(source, encoded).name == source.name
    ensures RotatedFile(source, encoded).mime == source.mime
    ensures RotatedFile(source, encoded).Size() == |encoded|
    ensures RotatedFile(source, encoded).width == source.height
    ensures RotatedFile(source, encoded).height == source.width
  {
  }

  /** Two rotations in a row, whatever their directions and whatever bytes
      each re-encode yields, restore the original dimensions, name and type. */
  lemma RotateTwiceRestoresDimensions(f: ImageFile, first: seq<bv8>, second: seq<bv8>)
    ensures RotatedFile(RotatedFile(f, first), second) == f.(bytes := second)
  {
  }

  /** Rotating `n` times composes `n` commits; bytes of each step are taken
      from `encodings`. */
  function RotatedTimes(f: ImageFile, encodings: seq<seq<bv8>>): (r: ImageFile)
    decreases |encodings|
  {
    if encodings == [] then f
    else RotatedTimes(RotatedFile(f, encodings[0]), encodings[1..])
  }

  /** After an even number of rotations the dimensions are those of the
      original file, after an odd number they are swapped; name and type
      never change. Four rotations in one direction are a special case. */
  lemma {:induction false} RotatedTimesDimensions(f: ImageFile, encodings: seq<seq<bv8>>)
    ensures RotatedTimes(f, encodings).name == f.name
    ensures RotatedTimes(f, encodings).mime == f.mime
    ensures |encodings| % 2 == 0 ==>
      RotatedTimes(f, encodings).width == f.width && RotatedTimes(f, encodings).height == f.height
    ensures |encodings| % 2 == 1 ==>
      RotatedTimes(f, encodings).width == f.height && RotatedTimes(f, encodings).height == f.width
    decreases |encodings|
  {
    if encodings != [] {
      RotatedTimesDimensions(RotatedFile(f, encodings[0]), encodings[1..]);
    }
  }
}
