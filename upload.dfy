/** Intake of the upload card: which file, if any, a drop or a file selection
    hands on to the session, and the dragging highlight. */
module Upload {
  import opened Wrappers

  /** A browser `File`: its name and its MIME type (`file.type`). */
  datatype FileInfo = FileInfo(name: string, mimeType: string)

  const ImagePrefix: string := "image/"

  /** `type.startsWith('image/')`. */
  predicate IsImageType(t: string)
  {
    |ImagePrefix| <= |t| && t[..|ImagePrefix|] == ImagePrefix
  }

  /** The file a drop forwards: the first dropped file, and only when its type is an image type. */
  function DropSelection(files: seq<FileInfo>): (r: Option<FileInfo>)
    ensures r.Some? <==> |files| > 0 && IsImageType(files[0].mimeType)
    ensures r.Some? ==> r.value == files[0]
  {
    if |files| > 0 && IsImageType(files[0].mimeType) then Some(files[0]) else None
  }

  /** The file a selection in the file input forwards: `files?.[0]`, with no type check.
      The list itself may be missing. */
  function InputSelection(files: Option<seq<FileInfo>>): (r: Option<FileInfo>)
    ensures r.Some? <==> files.Some? && |files.value| > 0
    ensures r.Some? ==> r.value == files.value[0]
  {
    if files.Some? && |files.value| > 0 then Some(files.value[0]) else None
  }

  /** Files after the first never influence a drop. */
  lemma DropIgnoresLaterFiles(f: FileInfo, rest: seq<FileInfo>, rest': seq<FileInfo>)
    ensures DropSelection([f] + rest) == DropSelection([f] + rest')
    ensures DropSelection([f] + rest) == DropSelection([f])
  {
  }

  /** Files after the first never influence a selection. */
  lemma InputIgnoresLaterFiles(f: FileInfo, rest: seq<FileInfo>)
    ensures InputSelection(Some([f] + rest)) == Some(f)
  {
  }

  /** Whatever a drop would forward, the file input forwards too; the converse
      fails exactly for a first file whose type is not an image type. */
  lemma InputAcceptsMoreThanDrop(files: seq<FileInfo>)
    ensures DropSelection(files).Some? ==> InputSelection(Some(files)) == DropSelection(files)
    ensures (InputSelection(Some(files)).Some? && DropSelection(files).None?) <==>
            (|files| > 0 && !IsImageType(files[0].mimeType))
  {
  }

  /** The drop target of the upload card, with its `isDragging` flag. */
  class DropZone {
    var isDragging: bool

    constructor ()
      ensures !isDragging
    {
      isDragging := false;
    }

    method DragOver()
      modifies this
      ensures isDragging
    {
      isDragging := true;
    }

    method DragLeave()
      modifies this
      ensures !isDragging
    {
      isDragging := false;
    }

    /** Clears the highlight whether or not anything is forwarded. */
    method Drop(files: seq<FileInfo>) returns (forwarded: Option<FileInfo>)
      modifies this
      ensures !isDragging
      ensures forwarded == DropSelection(files)
    {
      isDragging := false;
      if |files| > 0 {
        var file := files[0];
        if IsImageType(file.mimeType) {
          forwarded := Some(file);
          return;
        }
      }
      forwarded := None;
    }
  }
}
