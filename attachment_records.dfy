// The back-end attachment service: the `attachments` table, the files it points to, and the
// rules by which an uploaded file is named and placed under the attachments directory.
// The disk is a map from file path to contents; every file-system call that can fail takes
// its outcome as a parameter.

module AttachmentRecords {
  import opened Wrappers
  import opened Text
  import opened Seqs
  import opened Entities
  import opened Tables

  type Bytes = seq<bv8>

  // ----- POSIX `path` functions -----

  function TrimTrailingSlashes(s: string): (r: string)
    ensures r <= s && (r == [] || r[|r| - 1] != '/')
  {
    if s != [] && s[|s| - 1] == '/' then TrimTrailingSlashes(s[..|s| - 1]) else s
  }

  /** The last segment of a path: what follows its last `/`, trailing slashes ignored. */
  function LastSegment(path: string): (r: string)
    ensures '/' !in r
    ensures '/' !in path && (path == [] || path[|path| - 1] != '/') ==> r == path
  {
    var t := TrimTrailingSlashes(path);
    var i := LastIndexOf(t, '/');
    t[i + 1..]
  }

  /** The extension of one path segment: from its last `.`; empty when it has no dot, has only
      a leading one, or is `..`. */
  function SegmentExt(seg: string): (r: string)
    ensures r == [] || (r[0] == '.' && '.' !in r[1..])
    ensures r != [] ==> 0 < |r| < |seg| && seg[|seg| - |r|..] == r
    ensures r != [] ==> r == seg[LastIndexOf(seg, '.')..]
  {
    var d := LastIndexOf(seg, '.');
    if d <= 0 || seg == ".." then "" else seg[d..]
  }

  /** `path.extname(p)`: the extension of the last segment. */
  function ExtName(path: string): (r: string)
    ensures r == [] || (r[0] == '.' && '.' !in r[1..] && '/' !in r)
  {
    var seg := LastSegment(path);
    var r := SegmentExt(seg);
    if r == [] then r else SliceKeepsOut(seg, LastIndexOf(seg, '.'), '/'); r
  }

  /** One segment without `ext`, when `ext` is a proper suffix of it. */
  function SegmentBase(seg: string, ext: string): (r: string)
    ensures '/' !in seg ==> '/' !in r
  {
    if 0 < |ext| < |seg| && seg[|seg| - |ext|..] == ext then
      SliceKeepsOut(seg, |seg| - |ext|, '/');
      seg[..|seg| - |ext|]
    else seg
  }

  /** `path.basename(p, ext)`: the last segment, without `ext` when it is a proper suffix. */
  function BaseName(path: string, ext: string): (r: string)
    ensures '/' !in r
  {
    SegmentBase(LastSegment(path), ext)
  }

  /** A character missing from a string is missing from its slices. */
  lemma SliceKeepsOut(s: string, d: int, c: char)
    requires 0 <= d <= |s|
    ensures c !in s ==> c !in s[d..] && c !in s[..d]
  {
    if c in s[d..] {
      var k :| 0 <= k < |s| - d && s[d..][k] == c;
      assert s[d + k] == c;
    }
    if c in s[..d] {
      var k :| 0 <= k < d && s[..d][k] == c;
      assert s[k] == c;
    }
  }

  /** `path.join(dir, name)` for a directory and a plain name; normalisation of `.`, `..` and
      repeated slashes is not modelled. */
  function Under(dir: string, name: string): string {
    dir + "/" + name
  }

  // ----- Naming and placement rules of `saveFile` -----

  /** `${baseName}_${timestamp}${fileExtension}`. */
  function UniqueFileName(fileName: string, timestamp: int): (r: string)
    ensures '/' !in r
    ensures |r| > |ExtName(fileName)| && r[|r| - |ExtName(fileName)|..] == ExtName(fileName)
  {
    var ext := ExtName(fileName);
    var stem := BaseName(fileName, ext) + "_" + IntToString(timestamp);
    StemShape(BaseName(fileName, ext), timestamp);
    NoSlashInJoin(stem, ext);
    assert (stem + ext)[|stem|..] == ext;
    stem + ext
  }

  /** JavaScript truthiness of an optional numeric id: present and non-zero. */
  predicate IdTruthy(id: Option<int>) {
    id.Some? && id.value != 0
  }

  /** The id kept in a relation column: only a truthy id is linked. */
  function LinkOf(id: Option<int>): (r: Option<int>)
    ensures r.Some? <==> IdTruthy(id)
    ensures r.Some? ==> r == id
  {
    if IdTruthy(id) then id else None
  }

  /** The directory a file goes to: `jobs/<job>/payments` for a payment file of a job,
      `jobs/<job>` for a job file, `general` otherwise. */
  function DirectoryFor(root: string, jobId: Option<int>, paymentId: Option<int>): (r: string)
    ensures IdTruthy(jobId) ==> Under(Under(root, "jobs"), IntToString(jobId.value)) <= r
    ensures IdTruthy(jobId) && IdTruthy(paymentId) ==> |r| >= 9 && r[|r| - 9..] == "/payments"
    ensures !IdTruthy(jobId) ==> r == Under(root, "general")
  {
    if IdTruthy(paymentId) && IdTruthy(jobId) then
      Under(Under(Under(root, "jobs"), IntToString(jobId.value)), "payments")
    else if IdTruthy(jobId) then
      Under(Under(root, "jobs"), IntToString(jobId.value))
    else
      Under(root, "general")
  }

  /** The row `saveFile` creates for an upload. */
  function NewAttachment(id: int, root: string, fileName: string, jobId: Option<int>,
                         paymentId: Option<int>, timestamp: int): (r: Attachment)
    ensures r.id == id && r.fileName == fileName && r.fileExtension == ExtName(fileName)
    ensures Under(DirectoryFor(root, jobId, paymentId), "") <= r.filePath
    ensures r.jobId.Some? <==> IdTruthy(jobId)
    ensures r.paymentId.Some? <==> IdTruthy(paymentId)
  {
    Attachment(id, fileName, ExtName(fileName),
               Under(DirectoryFor(root, jobId, paymentId), UniqueFileName(fileName, timestamp)),
               LinkOf(jobId), LinkOf(paymentId))
  }

  /** What `getFileContent(id)` yields: nothing for a missing record or a failed read. */
  function FileContent(rows: seq<Attachment>, disk: map<string, Bytes>, id: int, readFails: bool): Option<Bytes> {
    var a := Lookup(rows, AttachmentKey, id);
    if a.None? || readFails || a.value.filePath !in disk then None else Some(disk[a.value.filePath])
  }

  /** The attachments path after `setAttachmentsPath` as written: the guard returns early for a
      missing row and for any non-empty value, so only an empty stored value is ever assigned. */
  function LoadedPathAsWritten(current: string, stored: Option<string>): (r: string)
    ensures r == current || r == ""
    ensures stored != Some("") ==> r == current
  {
    if stored.None? || stored.value != "" then current else stored.value
  }

  /** The intended rule: a non-empty stored path replaces the default. */
  function LoadedPath(current: string, stored: Option<string>): (r: string)
    ensures stored.Some? && stored.value != "" ==> r == stored.value
    ensures stored.None? || stored.value == "" ==> r == current
  {
    if stored.Some? && stored.value != "" then stored.value else current
  }

  function LinkedToPayment(paymentId: int): Attachment -> bool {
    (a: Attachment) => a.paymentId == Some(paymentId)
  }

  function LinkedToJob(jobId: int): Attachment -> bool {
    (a: Attachment) => a.jobId == Some(jobId)
  }

  // ----- Properties -----

  /** The base name and the extension together make up the file's name. */
  lemma BaseNameThenExtName(path: string)
    ensures BaseName(path, ExtName(path)) + ExtName(path) == LastSegment(path)
  {
    SegmentSplits(LastSegment(path));
  }

  lemma SegmentSplits(seg: string)
    ensures SegmentBase(seg, SegmentExt(seg)) + SegmentExt(seg) == seg
  {
    var e := SegmentExt(seg);
    if e != [] {
      var k := |seg| - |e|;
      assert SegmentBase(seg, e) == seg[..k];
      assert seg[..k] + seg[k..] == seg;
    }
  }

  lemma NoDotInInt(i: int)
    ensures '.' !in IntToString(i) && '/' !in IntToString(i) && |IntToString(i)| >= 1
  {
    var ds := NatToString(if i < 0 then -i else i);
    assert AllDigits(ds);
    assert forall k :: 0 <= k < |ds| ==> IsDigit(ds[k]);
  }

  /** In a string, the position `LastIndexOf` reports is the only one that holds the character
      with none after it. */
  lemma LastIndexOfAt(s: string, c: char, i: int)
    requires 0 <= i < |s| && s[i] == c && c !in s[i + 1..]
    ensures LastIndexOf(s, c) == i
  {
  }

  /** A plain name followed by an extension has that extension. */
  lemma ExtNameOfSuffix(b: string, e: string)
    requires |b| >= 1 && '/' !in b && '/' !in e
    requires e != [] && e[0] == '.' && '.' !in e[1..] && e[|e| - 1] != '/' && b + e != ".."
    ensures ExtName(b + e) == e
  {
    var u := b + e;
    assert u[|u| - 1] == e[|e| - 1];
    NoSlashInJoin(b, e);
    assert LastSegment(u) == u;
    SegmentExtOfSuffix(b, e);
  }

  lemma SegmentExtOfSuffix(b: string, e: string)
    requires |b| >= 1 && e != [] && e[0] == '.' && '.' !in e[1..] && b + e != ".."
    ensures SegmentExt(b + e) == e
  {
    var u := b + e;
    assert u[|b|..] == e && u[|b| + 1..] == e[1..];
    LastIndexOfAt(u, '.', |b|);
  }

  lemma NoSlashInJoin(b: string, e: string)
    requires '/' !in b && '/' !in e
    ensures '/' !in b + e
  {
  }

  /** A plain name whose only dot, if any, leads it has no extension. */
  lemma ExtNameOfUndotted(u: string)
    requires u != [] && '/' !in u && u[|u| - 1] != '/' && '.' !in u[1..]
    ensures ExtName(u) == ""
  {
    assert LastSegment(u) == u;
    if u[0] == '.' {
      LastIndexOfAt(u, '.', 0);
    } else {
      assert u == [u[0]] + u[1..];
      assert '.' !in u;
    }
    assert SegmentExt(u) == "";
  }

  /** `base_timestamp` is a plain name that does not end in a dot. */
  lemma StemShape(b: string, timestamp: int)
    requires '/' !in b
    ensures '/' !in b + "_" + IntToString(timestamp)
    ensures |b + "_" + IntToString(timestamp)| >= 2
    ensures (b + "_" + IntToString(timestamp))[|b + "_" + IntToString(timestamp)| - 1] != '.'
    ensures (b + "_" + IntToString(timestamp))[|b + "_" + IntToString(timestamp)| - 1] != '/'
  {
    var n := IntToString(timestamp);
    NoDotInInt(timestamp);
    var stem := b + "_" + n;
    assert stem[|stem| - 1] == n[|n| - 1];
  }

  /** A segment whose last dot is at most its first character has no dot after the first. */
  lemma UndottedTail(seg: string)
    requires LastIndexOf(seg, '.') <= 0
    ensures seg != [] ==> '.' !in seg[1..]
  {
  }

  /** The stored name keeps the uploaded file's extension: the case of a name with one. */
  lemma UniqueNameKeepsDottedExtension(fileName: string, timestamp: int)
    requires ExtName(fileName) != []
    ensures ExtName(UniqueFileName(fileName, timestamp)) == ExtName(fileName)
  {
    var e := ExtName(fileName);
    var stem := BaseName(fileName, e) + "_" + IntToString(timestamp);
    StemShape(BaseName(fileName, e), timestamp);
    assert e[|e| - 1] in e;
    assert |stem + e| >= 3;
    ExtNameOfSuffix(stem, e);
  }

  /** The case of a name without an extension. */
  lemma UniqueNameKeepsNoExtension(fileName: string, timestamp: int)
    requires LastSegment(fileName) != ".." && ExtName(fileName) == []
    ensures ExtName(UniqueFileName(fileName, timestamp)) == []
  {
    var seg := LastSegment(fileName);
    assert SegmentExt(seg) == [];
    UndottedTail(seg);
    var n := IntToString(timestamp);
    NoDotInInt(timestamp);
    assert BaseName(fileName, "") == seg;
    var stem := seg + "_" + n;
    assert UniqueFileName(fileName, timestamp) == stem;
    StemShape(seg, timestamp);
    UndottedStem(seg, n);
    ExtNameOfUndotted(stem);
  }

  lemma UndottedStem(seg: string, n: string)
    requires seg != [] ==> '.' !in seg[1..]
    requires '.' !in n
    ensures '.' !in (seg + "_" + n)[1..]
  {
    var stem := seg + "_" + n;
    if seg == [] {
      assert stem[1..] == n;
    } else {
      assert stem[1..] == seg[1..] + "_" + n;
    }
  }

  /** The stored name keeps the uploaded file's extension. */
  lemma UniqueNameKeepsExtension(fileName: string, timestamp: int)
    requires LastSegment(fileName) != ".."
    ensures ExtName(UniqueFileName(fileName, timestamp)) == ExtName(fileName)
  {
    if ExtName(fileName) != [] {
      UniqueNameKeepsDottedExtension(fileName, timestamp);
    } else {
      UniqueNameKeepsNoExtension(fileName, timestamp);
    }
  }

  /** A payment file of a job is kept in the `payments` folder inside that job's folder. */
  lemma PaymentFilesInsideJobFolder(root: string, jobId: int, paymentId: int)
    requires jobId != 0 && paymentId != 0
    ensures DirectoryFor(root, Some(jobId), Some(paymentId)) == Under(DirectoryFor(root, Some(jobId), None), "payments")
  {
  }

  /** A payment id alone, or no id at all, sends the file to `general`. */
  lemma GeneralWithoutJob(root: string, jobId: Option<int>, paymentId: Option<int>)
    requires !IdTruthy(jobId)
    ensures DirectoryFor(root, jobId, paymentId) == Under(root, "general")
  {
  }

  /** Two jobs never share a folder. */
  lemma DistinctJobsDistinctFolders(root: string, j1: int, j2: int)
    requires j1 != 0 && j2 != 0 && j1 != j2
    ensures DirectoryFor(root, Some(j1), None) != DirectoryFor(root, Some(j2), None)
  {
    ParseIntOfIntToString(j1);
    ParseIntOfIntToString(j2);
    SamePrefixDistinct(Under(root, "jobs") + "/", IntToString(j1), IntToString(j2));
  }

  lemma SamePrefixDistinct(p: string, a: string, b: string)
    requires a != b
    ensures p + a != p + b
  {
    assert (p + a)[|p|..] == a;
    assert (p + b)[|p|..] == b;
  }

  /** A file saved and not lost to a write failure reads back with the contents written. */
  lemma SavedFileReadsBack(rows: seq<Attachment>, next: int, disk: map<string, Bytes>, a: Attachment, content: Bytes)
    requires WellKeyed(rows, AttachmentKey, next) && a.id == next
    ensures FileContent(rows + [a], disk[a.filePath := content], a.id, false) == Some(content)
  {
    LookupUnique(rows + [a], AttachmentKey, a.id, |rows|);
  }

  /** As written, a configured non-empty path is ignored. */
  lemma StoredPathIgnoredAsWritten()
    ensures LoadedPathAsWritten("/home/user/attachments", Some("/data/files")) == "/home/user/attachments"
    ensures LoadedPath("/home/user/attachments", Some("/data/files")) == "/data/files"
  {
  }

  /** The in-memory `attachments` table, the attachments directory and the disk, behind
      `AttachmentService`. */
  /** Where a `deleteAttachment` call throws, if it does: at the record lookup, or at the
      row delete after the unlink. */
  datatype DeleteFailure = NoFailure | LookupFails | RowDeleteFails

  class AttachmentService {
    var rows: seq<Attachment>
    var nextId: int
    var attachmentsPath: string
    var disk: map<string, Bytes>

    ghost predicate Valid()
      reads this
    {
      WellKeyed(rows, AttachmentKey, nextId)
    }

    /** The service starts at `<userData>/attachments` and then runs `setAttachmentsPath` as
        written, which keeps that default unless the stored value is empty. */
    constructor(userData: string, stored: Option<string>, files: map<string, Bytes>)
      ensures Valid() && rows == [] && disk == files
      ensures attachmentsPath == LoadedPathAsWritten(Under(userData, "attachments"), stored)
      ensures stored != Some("") ==> attachmentsPath == Under(userData, "attachments")
    {
      rows := [];
      nextId := 1;
      disk := files;
      attachmentsPath := Under(userData, "attachments");
      new;
      SetAttachmentsPathAsWritten(stored);
    }

    /** `setAttachmentsPath` as written; `stored` is the value of the `attachmentsPath` row. */
    method SetAttachmentsPathAsWritten(stored: Option<string>)
      modifies this
      ensures attachmentsPath == LoadedPathAsWritten(old(attachmentsPath), stored)
      ensures rows == old(rows) && nextId == old(nextId) && disk == old(disk)
    {
      if stored.None? || stored.value != "" {
        return;
      }
      attachmentsPath := stored.value;
    }

    /** `setAttachmentsPath` with the guard the method evidently intends. */
    method SetAttachmentsPath(stored: Option<string>)
      modifies this
      ensures attachmentsPath == LoadedPath(old(attachmentsPath), stored)
      ensures rows == old(rows) && nextId == old(nextId) && disk == old(disk)
    {
      if stored.None? || stored.value == "" {
        return;
      }
      attachmentsPath := stored.value;
    }

    method GetAttachmentsPath() returns (r: string)
      ensures r == attachmentsPath
    {
      r := attachmentsPath;
    }

    /** `getAllAttachments`, newest first. */
    method GetAllAttachments() returns (r: seq<Attachment>)
      ensures r == Reverse(rows)
    {
      r := Reverse(rows);
    }

    method GetAttachmentById(id: int) returns (r: Option<Attachment>)
      ensures r == Lookup(rows, AttachmentKey, id)
    {
      r := Lookup(rows, AttachmentKey, id);
    }

    method GetAttachmentsByJob(jobId: int) returns (r: seq<Attachment>)
      ensures r == Filter(rows, LinkedToJob(jobId))
    {
      r := Filter(rows, LinkedToJob(jobId));
    }

    /** `saveFile`: a failure creating the directory (`mkdirFails`) rejects the call; a failed
        write (`writeFails`) is logged and the record is created all the same. */
    method SaveFile(fileName: string, content: Bytes, jobId: Option<int>, paymentId: Option<int>,
                    timestamp: int, mkdirFails: bool, writeFails: bool) returns (r: Result<Attachment, string>)
      requires Valid()
      modifies this
      ensures Valid() && attachmentsPath == old(attachmentsPath)
      ensures mkdirFails ==> r.Err? && rows == old(rows) && disk == old(disk) && nextId == old(nextId)
      ensures !mkdirFails ==>
        r == Ok(NewAttachment(old(nextId), attachmentsPath, fileName, jobId, paymentId, timestamp))
      ensures !mkdirFails ==> r.Ok? && rows == old(rows) + [r.value] && nextId == old(nextId) + 1
      ensures !mkdirFails && writeFails ==> disk == old(disk)
      ensures !mkdirFails && !writeFails ==> r.Ok? && disk == old(disk)[r.value.filePath := content]
    {
      if mkdirFails {
        return Err("EACCES: permission denied, mkdir");
      }
      var a := NewAttachment(nextId, attachmentsPath, fileName, jobId, paymentId, timestamp);
      var path := a.filePath;
      r := Ok(a);
      assert r.value == a;
      AppendWellKeyed(rows, AttachmentKey, nextId, a);
      rows := rows + [a];
      nextId := nextId + 1;
      if !writeFails {
        disk := disk[path := content];
      }
    }

    /** `deleteAttachment`: looks the record up, removes the file of an existing record unless
        the unlink fails (`unlinkFails`, which is swallowed), then deletes the row; true exactly
        when a row was removed. A throwing lookup (`LookupFails`) changes nothing; a throwing
        row delete (`RowDeleteFails`) comes after the unlink, so the file is gone and the row
        stays. A throw is `None`. */
    method DeleteAttachment(id: int, failure: DeleteFailure, unlinkFails: bool) returns (r: Option<bool>)
      requires Valid()
      modifies this
      ensures Valid() && nextId == old(nextId) && attachmentsPath == old(attachmentsPath)
      ensures r.None? <==> failure != NoFailure
      ensures r.Some? ==> (r.value <==> Lookup(old(rows), AttachmentKey, id).Some?)
      ensures rows == if failure == NoFailure then Without(old(rows), AttachmentKey, id) else old(rows)
      ensures disk == if failure != LookupFails && Lookup(old(rows), AttachmentKey, id).Some? && !unlinkFails
                      then old(disk) - {Lookup(old(rows), AttachmentKey, id).value.filePath}
                      else old(disk)
    {
      if failure == LookupFails {
        return None;
      }
      var a := Lookup(rows, AttachmentKey, id);
      if a.Some? && !unlinkFails {
        disk := disk - {a.value.filePath};
      }
      if failure == RowDeleteFails {
        return None;
      }
      r := Some(a.Some?);
      WithoutWellKeyed(rows, AttachmentKey, nextId, id);
      rows := Without(rows, AttachmentKey, id);
    }

    /** `getFileContent`: the bytes of the record's file; nothing for a missing record or a
        failed read (`readFails`, or no file at the path). */
    method GetFileContent(id: int, readFails: bool) returns (r: Option<Bytes>)
      ensures r == FileContent(rows, disk, id, readFails)
      ensures r.Some? ==> Lookup(rows, AttachmentKey, id).Some?
    {
      r := FileContent(rows, disk, id, readFails);
    }
  }
}
