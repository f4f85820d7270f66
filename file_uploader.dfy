// The file uploader's list: attachments already stored ("uploaded") shown beside files picked in
// the browser and not yet saved ("pending"), with image previews keyed by file name.
//
// JavaScript object identity is modelled by identity fields: a browser `File` carries a
// `handle`, and every `FileItem` the component creates gets a fresh `serial`.

module FileUploader {
  import opened Wrappers
  import opened Text
  import opened Seqs
  import opened Entities

  /** A browser `File`; `handle` stands for the object's identity. */
  datatype FileRef = FileRef(handle: int, name: string, size: int, mime: string)

  /** `FileItem`. */
  datatype FileItem = FileItem(
    serial: int,
    id: Option<int>,
    name: string,
    size: int,
    mime: Option<string>,
    file: Option<FileRef>,
    attachment: Option<Attachment>,
    isUploaded: bool)

  const IMAGE_EXTENSIONS: seq<string> := [".jpg", ".jpeg", ".png", ".gif", ".bmp", ".webp"]

  /** `isImageFile`: the name from its last `.` on, lower-cased, is an image extension. A name
      without a `.` is read whole. */
  function IsImageFile(fileName: string): bool {
    var i := LastIndexOf(fileName, '.');
    Lower(fileName)[if i < 0 then 0 else i..] in IMAGE_EXTENSIONS
  }

  /** The name shown for a stored attachment. */
  function ItemName(a: Attachment): string {
    if a.fileName != "" then a.fileName else "Unknown file"
  }

  /** An attachment as `loadInitialFiles` first lists it, before its size is known. */
  function InitialItem(a: Attachment, serial: int): FileItem {
    FileItem(serial, Some(a.id), ItemName(a), 0, None, None, Some(a), true)
  }

  /** Whether the content of a listed attachment is read: its id is truthy and the file is
      there. `contents` maps an attachment id to the byte length of its file. */
  predicate HasContent(a: Attachment, contents: map<int, int>) {
    a.id != 0 && a.id in contents
  }

  /** The item once `generateUploadedImagePreview` has read the file's size. */
  function Sized(item: FileItem, a: Attachment, contents: map<int, int>): FileItem {
    if HasContent(a, contents) then item.(size := contents[a.id]) else item
  }

  predicate Previewed(a: Attachment, contents: map<int, int>) {
    HasContent(a, contents) && IsImageFile(ItemName(a))
  }

  /** The names of the first `n` attachments that get a preview. */
  function PreviewsUpTo(atts: seq<Attachment>, contents: map<int, int>, n: int): set<string>
    requires 0 <= n <= |atts|
    decreases n
  {
    if n == 0 then {}
    else PreviewsUpTo(atts, contents, n - 1) + (if Previewed(atts[n - 1], contents) then {ItemName(atts[n - 1])} else {})
  }

  function InitialItems(initial: seq<Attachment>, base: int): (r: seq<FileItem>)
    ensures |r| == |initial|
    ensures forall k :: 0 <= k < |initial| ==> r[k] == InitialItem(initial[k], base + k)
  {
    seq(|initial|, k requires 0 <= k < |initial| => InitialItem(initial[k], base + k))
  }

  /** The list once every listed item's size is read. */
  function SizedItems(initial: seq<Attachment>, contents: map<int, int>, base: int): (r: seq<FileItem>)
    ensures |r| == |initial|
    ensures forall k :: 0 <= k < |initial| ==> r[k] == Sized(InitialItem(initial[k], base + k), initial[k], contents)
  {
    seq(|initial|, k requires 0 <= k < |initial| => Sized(InitialItem(initial[k], base + k), initial[k], contents))
  }

  /** An item `onFileSelect` adds for a picked file. */
  function PendingItem(f: FileRef, serial: int): FileItem {
    FileItem(serial, None, f.name, f.size, Some(f.mime), Some(f), None, false)
  }

  function NewItems(selected: seq<FileRef>, base: int): (r: seq<FileItem>)
    ensures |r| == |selected|
  {
    seq(|selected|, k requires 0 <= k < |selected| => PendingItem(selected[k], base + k))
  }

  /** The names of the first `n` picked files that are images. */
  function ImagesUpTo(selected: seq<FileRef>, n: int): set<string>
    requires 0 <= n <= |selected|
    decreases n
  {
    if n == 0 then {}
    else ImagesUpTo(selected, n - 1) + (if IsImageFile(selected[n - 1].name) then {selected[n - 1].name} else {})
  }

  function IsUploaded(f: FileItem): bool {
    f.isUploaded
  }

  function IsPending(f: FileItem): bool {
    !f.isUploaded
  }

  /** `getPendingFiles`. */
  function PendingFiles(files: seq<FileItem>): (r: seq<FileItem>)
    ensures forall f :: f in r <==> f in files && !f.isUploaded
  {
    FilterMembers(files, IsPending);
    Filter(files, IsPending)
  }

  /** `trackByFileName`: the name followed by the item's id, or by its position when the id is
      absent or 0. */
  function TrackByFileName(index: int, f: FileItem): (r: string)
    ensures |r| > |f.name| && r[..|f.name|] == f.name
    ensures f.id.Some? && f.id.value > 0 ==> r == f.name + NatToString(f.id.value)
    ensures (f.id.None? || f.id == Some(0)) && index >= 0 ==> r == f.name + NatToString(index)
  {
    f.name + IntToString(if f.id.Some? && f.id.value != 0 then f.id.value else index)
  }

  function HoldsFile(removed: FileRef): FileItem -> bool {
    (f: FileItem) => f.file == Some(removed)
  }

  function HasSerial(serial: int): FileItem -> bool {
    (f: FileItem) => f.serial == serial
  }

  // ----- Properties -----

  lemma LowerFrom(s: string, i: nat)
    requires i <= |s|
    ensures Lower(s)[i..] == Lower(s[i..])
  {
  }

  /** A file is an image exactly when it has a `.` and the name from its last `.` on is, in any
      letter case, one of the image extensions. */
  lemma IsImageFileSpec(fileName: string)
    ensures '.' !in fileName ==> !IsImageFile(fileName)
    ensures '.' in fileName ==>
      (IsImageFile(fileName) <==> Lower(fileName[LastIndexOf(fileName, '.')..]) in IMAGE_EXTENSIONS)
  {
    var i := LastIndexOf(fileName, '.');
    if i >= 0 {
      LowerFrom(fileName, i);
    } else {
      var l := Lower(fileName);
      assert l[0..] == l;
      assert '.' !in l by {
        forall k | 0 <= k < |l| ensures l[k] != '.' {
          assert fileName[k] != '.';
        }
      }
    }
  }

  /** A listed attachment becomes an uploaded item that keeps the attachment, shows a name that
      is never empty, and has no size and no local file yet. */
  lemma InitialItemSpec(a: Attachment, serial: int)
    ensures InitialItem(a, serial).serial == serial && InitialItem(a, serial).isUploaded
    ensures InitialItem(a, serial).attachment == Some(a) && InitialItem(a, serial).id == Some(a.id)
    ensures InitialItem(a, serial).name != ""
    ensures a.fileName != "" ==> InitialItem(a, serial).name == a.fileName
    ensures InitialItem(a, serial).size == 0 && InitialItem(a, serial).file == None
  {
  }

  lemma UpperCaseImage()
    ensures IsImageFile("photo.JPG")
  {
    assert LastIndexOf("photo.JPG", '.') == 5;
    assert Lower("photo.JPG")[5..] == ".jpg";
  }

  lemma LastDotDecides()
    ensures !IsImageFile("photo.jpg.pdf")
  {
    assert LastIndexOf("photo.jpg.pdf", '.') == 9;
    assert Lower("photo.jpg.pdf")[9..] == ".pdf";
  }

  /** Clearing keeps no pending file, and every uploaded item survives in order. */
  lemma ClearKeepsUploaded(files: seq<FileItem>)
    ensures PendingFiles(Filter(files, IsUploaded)) == []
    ensures forall f :: f in files && f.isUploaded ==> f in Filter(files, IsUploaded)
  {
    FilterNonePass(Filter(files, IsUploaded), IsPending);
  }

  /** The previews after loading are the names of exactly the image attachments whose file
      content is read. */
  lemma {:induction false} PreviewsUpToSpec(atts: seq<Attachment>, contents: map<int, int>, n: int, x: string)
    requires 0 <= n <= |atts|
    ensures x in PreviewsUpTo(atts, contents, n) <==>
      exists k :: 0 <= k < n && Previewed(atts[k], contents) && ItemName(atts[k]) == x
    decreases n
  {
    if n > 0 {
      PreviewsUpToSpec(atts, contents, n - 1, x);
    }
  }

  /** The previews `onFileSelect` adds are the names of exactly the picked image files. */
  lemma {:induction false} ImagesUpToSpec(selected: seq<FileRef>, n: int, x: string)
    requires 0 <= n <= |selected|
    ensures x in ImagesUpTo(selected, n) <==>
      exists k :: 0 <= k < n && IsImageFile(selected[k].name) && selected[k].name == x
    decreases n
  {
    if n > 0 {
      ImagesUpToSpec(selected, n - 1, x);
    }
  }

  class FileUploaderComponent {
    var files: seq<FileItem>
    /** The names that have an image preview (`imagePreviewUrls`). */
    var previews: set<string>
    /** The next fresh item identity. */
    var nextSerial: int

    /** Every item in the list is a distinct object. */
    ghost predicate Valid()
      reads this
    {
      (forall i, j :: 0 <= i < j < |files| ==> files[i].serial != files[j].serial)
      && (forall i :: 0 <= i < |files| ==> files[i].serial < nextSerial)
    }

    constructor()
      ensures Valid() && files == [] && previews == {}
    {
      files := [];
      previews := {};
      nextSerial := 0;
    }

    /** `loadInitialFiles`: the stored attachments as uploaded items, each then given the size of
        its file and, for an image, a preview. */
    method LoadInitialFiles(initial: seq<Attachment>, contents: map<int, int>)
      requires Valid()
      modifies this
      ensures Valid()
      ensures |files| == |initial|
      ensures forall k :: 0 <= k < |initial| ==>
        files[k] == Sized(InitialItem(initial[k], old(nextSerial) + k), initial[k], contents)
      ensures previews == PreviewsUpTo(initial, contents, |initial|)
    {
      var base := nextSerial;
      files := InitialItems(initial, base);
      nextSerial := base + |initial|;
      previews := {};
      ReadContents(initial, contents, base);
    }

    /** The loop over the listed items that reads each file's size and makes the previews. */
    method ReadContents(initial: seq<Attachment>, contents: map<int, int>, base: int)
      requires files == InitialItems(initial, base) && previews == {} && nextSerial == base + |initial|
      modifies this
      ensures nextSerial == old(nextSerial) && |files| == |initial|
      ensures forall k :: 0 <= k < |initial| ==>
        files[k] == Sized(InitialItem(initial[k], base + k), initial[k], contents)
      ensures previews == PreviewsUpTo(initial, contents, |initial|)
    {
      var i := 0;
      while i < |files|
        invariant 0 <= i <= |files| == |initial|
        invariant nextSerial == base + |initial|
        invariant forall k :: 0 <= k < i ==> files[k] == Sized(InitialItem(initial[k], base + k), initial[k], contents)
        invariant forall k :: i <= k < |files| ==> files[k] == InitialItem(initial[k], base + k)
        invariant previews == PreviewsUpTo(initial, contents, i)
      {
        GenerateUploadedImagePreview(i, contents);
        i := i + 1;
      }
    }

    /** `generateUploadedImagePreview` of the item at `index`: when the item's attachment has a
        truthy id and its file is there, the item takes the file's size and, for an image, a
        preview is made. */
    method GenerateUploadedImagePreview(index: int, contents: map<int, int>)
      requires 0 <= index < |files| && files[index].attachment.Some?
      modifies this
      ensures nextSerial == old(nextSerial)
      ensures files == old(files)[index := Sized(old(files)[index], old(files)[index].attachment.value, contents)]
      ensures previews == old(previews) +
        (if HasContent(old(files)[index].attachment.value, contents) && IsImageFile(old(files)[index].name)
         then {old(files)[index].name} else {})
    {
      var item := files[index];
      var a := item.attachment.value;
      if a.id != 0 && a.id in contents {
        files := files[index := item.(size := contents[a.id])];
        if IsImageFile(item.name) {
          previews := previews + {item.name};
        }
      }
    }

    lemma NewItemsSnoc(selected: seq<FileRef>, i: int, base: int)
      requires 0 <= i < |selected|
      ensures NewItems(selected[..i + 1], base) == NewItems(selected[..i], base) + [PendingItem(selected[i], base + i)]
    {
    }

    lemma SerialsAppend(s: seq<FileItem>, item: FileItem, next: int)
      requires forall i, j :: 0 <= i < j < |s| ==> s[i].serial != s[j].serial
      requires forall i :: 0 <= i < |s| ==> s[i].serial < next
      requires item.serial == next
      ensures forall i, j :: 0 <= i < j < |s + [item]| ==> (s + [item])[i].serial != (s + [item])[j].serial
      ensures forall i :: 0 <= i < |s + [item]| ==> (s + [item])[i].serial < next + 1
    {
    }

    /** `onFileSelect`: one pending item per picked file, appended in order. */
    method OnFileSelect(selected: seq<FileRef>)
      requires Valid()
      modifies this
      ensures Valid()
      ensures files == old(files) + NewItems(selected, old(nextSerial))
      ensures previews == old(previews) + ImagesUpTo(selected, |selected|)
    {
      var base := nextSerial;
      var i := 0;
      while i < |selected|
        invariant 0 <= i <= |selected|
        invariant nextSerial == base + i
        invariant files == old(files) + NewItems(selected[..i], base)
        invariant previews == old(previews) + ImagesUpTo(selected, i)
        invariant Valid()
      {
        var f := selected[i];
        NewItemsSnoc(selected, i, base);
        SerialsAppend(files, PendingItem(f, nextSerial), nextSerial);
        files := files + [PendingItem(f, nextSerial)];
        nextSerial := nextSerial + 1;
        if IsImageFile(f.name) {
          previews := previews + {f.name};
        }
        i := i + 1;
      }
      assert selected[..i] == selected;
    }

    /** `onFileRemove`: the first item holding the removed file leaves the list with its preview;
        nothing changes when no item holds it. */
    method OnFileRemove(removed: FileRef)
      requires Valid()
      modifies this
      ensures Valid() && nextSerial == old(nextSerial)
      ensures FindIndex(old(files), HoldsFile(removed)) < 0 ==> files == old(files) && previews == old(previews)
      ensures FindIndex(old(files), HoldsFile(removed)) >= 0 ==>
        var i := FindIndex(old(files), HoldsFile(removed));
        files == RemoveAt(old(files), i) && previews == old(previews) - {old(files)[i].name}
    {
      var index := FindIndex(files, HoldsFile(removed));
      if index > -1 {
        var item := files[index];
        previews := previews - {item.name};
        files := RemoveAt(files, index);
      }
    }

    /** `onClear`: only the uploaded items stay, and every preview goes. */
    method OnClear()
      requires Valid()
      modifies this
      ensures Valid() && nextSerial == old(nextSerial)
      ensures files == Filter(old(files), IsUploaded) && previews == {}
    {
      previews := {};
      KeptSerials(files);
      FilterMembers(files, IsUploaded);
      files := Filter(files, IsUploaded);
    }

    lemma KeptSerials(s: seq<FileItem>)
      requires forall i, j :: 0 <= i < j < |s| ==> s[i].serial != s[j].serial
      ensures forall i, j :: 0 <= i < j < |Filter(s, IsUploaded)| ==> Filter(s, IsUploaded)[i].serial != Filter(s, IsUploaded)[j].serial
      decreases |s|
    {
      if s != [] {
        KeptSerials(s[1..]);
        var rest := Filter(s[1..], IsUploaded);
        FilterMembers(s[1..], IsUploaded);
        assert forall k :: 0 <= k < |rest| ==> rest[k].serial != s[0].serial by {
          forall k | 0 <= k < |rest| ensures rest[k].serial != s[0].serial {
            assert rest[k] in s[1..];
          }
        }
      }
    }

    /** `removeFileFromUI`: the item itself leaves the list with its preview. */
    method RemoveFileFromUI(item: FileItem)
      requires Valid()
      modifies this
      ensures Valid() && nextSerial == old(nextSerial)
      ensures forall k :: 0 <= k < |files| ==> files[k].serial != item.serial
      ensures forall f :: f in old(files) && f.serial != item.serial ==> f in files
      ensures (exists k :: 0 <= k < |old(files)| && old(files)[k].serial == item.serial) ==> previews == old(previews) - {item.name}
      ensures (forall k :: 0 <= k < |old(files)| ==> old(files)[k].serial != item.serial) ==> files == old(files) && previews == old(previews)
      ensures FindIndex(old(files), HasSerial(item.serial)) >= 0 ==>
        files == RemoveAt(old(files), FindIndex(old(files), HasSerial(item.serial)))
    {
      var index := FindIndex(files, HasSerial(item.serial));
      if index > -1 {
        previews := previews - {item.name};
        ghost var before := files;
        files := RemoveAt(files, index);
        forall f | f in before && f.serial != item.serial ensures f in files {
          var k :| 0 <= k < |before| && before[k] == f;
          if k < index {
            assert files[k] == f;
          } else {
            assert files[k - 1] == f;
          }
        }
      }
    }

    /** `removeFile`: a pending item goes at once; an uploaded one only once the deletion is
        confirmed and the stored attachment is deleted. `outcome` is the deletion's answer, None
        when it fails; the answer is the toast shown, if any. */
    method RemoveFile(item: FileItem, confirmed: bool, outcome: Option<bool>) returns (toast: Option<string>)
      requires Valid()
      modifies this
      ensures Valid() && nextSerial == old(nextSerial)
      ensures !item.isUploaded ==> toast == None
      ensures item.isUploaded && (!confirmed || item.attachment.None? || item.attachment.value.id == 0) ==>
        toast == None && files == old(files) && previews == old(previews)
      ensures item.isUploaded && confirmed && item.attachment.Some? && item.attachment.value.id != 0 ==>
        toast == Some(if outcome == Some(true) then "File deleted successfully"
                      else if outcome == Some(false) then "Failed to delete file"
                      else "Failed to delete file from server")
      ensures item.isUploaded && outcome != Some(true) ==> files == old(files) && previews == old(previews)
      ensures (!item.isUploaded || (confirmed && item.attachment.Some? && item.attachment.value.id != 0 && outcome == Some(true)))
        ==> (forall k :: 0 <= k < |files| ==> files[k].serial != item.serial)
            && (FindIndex(old(files), HasSerial(item.serial)) >= 0 ==>
                  files == RemoveAt(old(files), FindIndex(old(files), HasSerial(item.serial)))
                  && previews == old(previews) - {item.name})
            && (FindIndex(old(files), HasSerial(item.serial)) == -1 ==>
                  files == old(files) && previews == old(previews))
    {
      toast := None;
      if item.isUploaded {
        if confirmed && item.attachment.Some? && item.attachment.value.id != 0 {
          if outcome == Some(true) {
            RemoveFileFromUI(item);
            toast := Some("File deleted successfully");
          } else if outcome == Some(false) {
            toast := Some("Failed to delete file");
          } else {
            toast := Some("Failed to delete file from server");
          }
        }
      } else {
        RemoveFileFromUI(item);
      }
    }

    method GetPendingFiles() returns (r: seq<FileItem>)
      ensures r == PendingFiles(files)
    {
      r := Filter(files, IsPending);
    }
  }
}
