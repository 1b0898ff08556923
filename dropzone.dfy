/** The upload drop zone: the list of files dropped so far, the rejection
    message, removing a file from the list, and the name/extension split
    it shows for each file. */
module Dropzone {
  import opened Common
  import opened Text

  /** A dropped file: its name and size in bytes. */
  datatype File = File(name: string, size: nat)

  // ---------------------------------------------------------------------
  // Rejection message

  const CouldNotUpload: string := "Could not upload "

  /** The message for rejected files: the first file's name, and how many
      others there were when there was more than one; `''` for none. */
  function RejectionMessage(rejected: seq<File>): (m: string)
    ensures rejected == [] ==> m == ""
    ensures rejected != [] ==> CouldNotUpload + rejected[0].name <= m
    ensures |rejected| == 1 ==> m == CouldNotUpload + rejected[0].name
  {
    if rejected == [] then ""
    else
      var first := CouldNotUpload + rejected[0].name;
      if |rejected| > 1 then first + ", and " + Decimal(|rejected| - 1) + " other files." else first
  }

  /** With several rejections the message ends in a count that reads back
      as the number of rejected files besides the first. */
  lemma RejectionCountReadsBack(rejected: seq<File>)
    requires |rejected| > 1
    ensures var m := RejectionMessage(rejected);
            var head := CouldNotUpload + rejected[0].name + ", and ";
            var tail := " other files.";
            |head| + |tail| <= |m|
            && m[..|head|] == head && m[|m| - |tail|..] == tail
            && StringToNumber(m[|head|..|m| - |tail|]) == Some(|rejected| - 1)
  {
    var head := CouldNotUpload + rejected[0].name + ", and ";
    var count := Decimal(|rejected| - 1);
    var m := RejectionMessage(rejected);
    assert m == head + count + " other files.";
    assert m[|head|..|m| - 13] == count;
    DecimalRoundTrip(|rejected| - 1);
  }

  // ---------------------------------------------------------------------
  // Removing a file

  /** `[...files.slice(0, index), ...files.slice(index + 1)]`. */
  function RemoveAt<T>(files: seq<T>, index: int): (r: seq<T>)
    ensures 0 <= index < |files| ==> r == files[..index] + files[index + 1..] && |r| == |files| - 1
    ensures index >= |files| ==> r == files
  {
    Slice(files, 0, index) + Slice(files, index + 1, |files|)
  }

  /** Removing the file at a listed index takes exactly that file out: the
      others keep their order and nothing else is lost or gained. */
  lemma RemoveAtIsPermutationMinusOne<T>(files: seq<T>, index: nat)
    requires index < |files|
    ensures multiset(RemoveAt(files, index)) + multiset{files[index]} == multiset(files)
    ensures forall j :: 0 <= j < |files| - 1 ==>
              RemoveAt(files, index)[j] == (if j < index then files[j] else files[j + 1])
  {
    assert files == files[..index] + [files[index]] + files[index + 1..];
  }

  /** An index the list does not reach never arises from the list's own
      buttons, but with `slice` a negative one would copy files: `-1` keeps
      all but the last and then appends the whole list again. */
  lemma MinusOneDuplicates<T>(files: seq<T>)
    requires files != []
    ensures RemoveAt(files, -1) == files[..|files| - 1] + files
  {
  }

  // ---------------------------------------------------------------------
  // File name and extension

  /** The name shown for a file: every dot-separated part but the last,
      joined again by dots. With a dot, the base name, a dot and the
      extension make up the name; without one, the base name is empty. */
  function BaseName(name: string): (base: string)
    ensures '.' in name ==> base + "." + Extension(name) == name
    ensures '.' !in name ==> base == []
  {
    var parts := Split(name, '.');
    LastPiece(name, '.');
    Join(parts[..|parts| - 1], '.')
  }

  /** `name.split('.').pop()`: the last part, a dot-free end of the name,
      the whole name when it has no dot. */
  function Extension(name: string): (ext: string)
    ensures '.' !in ext
    ensures |ext| <= |name| && ext == name[|name| - |ext|..]
    ensures '.' !in name ==> ext == name
  {
    var parts := Split(name, '.');
    SplitParts(name, '.');
    LastPiece(name, '.');
    parts[|parts| - 1]
  }

  // ---------------------------------------------------------------------
  // State

  /** The drop zone's `filesUploaded` and `errorMessage` state; the message
      starts out `undefined` (`None`). */
  class DropzoneState {
    var filesUploaded: seq<File>
    var errorMessage: Option<string>

    constructor ()
      ensures filesUploaded == [] && errorMessage == None
    {
      filesUploaded := [];
      errorMessage := None;
    }

    /** The `onDrop` handler. A caller's own `onDrop` takes the drop and the
        drop zone's state is left alone; otherwise the accepted files are
        appended and the message is set from the rejected ones. */
    method OnDrop(accepted: seq<File>, rejected: seq<File>, callerHandlesDrop: bool)
      modifies this
      ensures callerHandlesDrop ==> filesUploaded == old(filesUploaded) && errorMessage == old(errorMessage)
      ensures !callerHandlesDrop ==> filesUploaded == old(filesUploaded) + accepted
                                     && errorMessage == Some(RejectionMessage(rejected))
    {
      if callerHandlesDrop {
        return;
      }
      filesUploaded := filesUploaded + accepted;
      errorMessage := Some(RejectionMessage(rejected));
    }

    /** `deleteUploadedFile(index)`. */
    method DeleteUploadedFile(index: int)
      modifies this
      ensures filesUploaded == RemoveAt(old(filesUploaded), index)
      ensures errorMessage == old(errorMessage)
    {
      filesUploaded := RemoveAt(filesUploaded, index);
    }
  }
}
