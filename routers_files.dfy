/**
 * The files router: members upload media files into a circle, list them, and
 * the uploader or the circle's owner deletes them. The object store is outside
 * the model: the URL it answers with and the random `nanoid` are inputs.
 */
module FilesRouter {
  import opened Errors
  import opened Text
  import opened Schema
  import opened Helpers
  import opened Invariants
  import opened Db

  /** What upload returns. */
  datatype Uploaded = Uploaded(fileId: int, fileUrl: string)

  /** The row upload inserts; marketplace columns keep their defaults. */
  function UploadedFile(circleId: nat, uploaderId: nat, filename: string, mimeType: string, fileSize: int,
                        folderId: Option<int>, fileType: FileType, nanoId: string, url: string): (f: File)
    ensures f.circleId == circleId && f.uploaderId == uploaderId && f.fileUrl == url && f.fileType == fileType
    ensures f.folderId == FolderOrNull(folderId)
    ensures FileExtension(f.fileKey) == FileExtension(filename)
    ensures StartsWith(f.fileKey, "circles/" + NatToString(circleId) + "/")
    ensures f.isPaid == 0 && f.price.None?
  {
    KeyKeepsExtension(circleId, uploaderId, nanoId, filename);
    File(circleId, FolderOrNull(folderId), uploaderId, filename,
         FileKey(circleId, uploaderId, nanoId, FileExtension(filename)), url, mimeType, fileSize, fileType, 0, None)
  }

  /**
   * files.upload: a member stores a video, audio or image file. The insert
   * fails when the given folder does not exist; folder 0 means no folder.
   */
  method Upload(db: Store, caller: int, circleId: int, filename: string, mimeType: string, fileSize: int,
                folderId: Option<int>, nanoId: string, url: string) returns (r: Result<Uploaded>)
    requires db.Valid() && caller in db.users
    requires IsNanoId(nanoId)
    modifies db`files, db`nextFileId
    ensures db.Valid()
    ensures !IsMember(db.members, circleId, caller) ==> r == Err(Error(Forbidden, "Not a member of this circle"))
    ensures IsMember(db.members, circleId, caller) && ClassifyMime(mimeType).None? ==>
      r == Err(Error(BadRequest, "Unsupported file type"))
    ensures r.Ok? <==>
      && IsMember(db.members, circleId, caller)
      && ClassifyMime(mimeType).Some?
      && (FolderOrNull(folderId).Some? ==> FolderOrNull(folderId).value in db.folders)
    ensures IsMember(db.members, circleId, caller) && ClassifyMime(mimeType).Some? && r.Err? ==>
      r.error.code == InternalServerError
    ensures r.Ok? ==> circleId > 0 && caller > 0 && r.value == Uploaded(old(db.nextFileId), url)
    ensures r.Ok? ==> (circleId > 0 && caller > 0 &&
      db.files == old(db.files)[r.value.fileId := UploadedFile(circleId, caller, filename, mimeType, fileSize, folderId,
                                                               ClassifyMime(mimeType).value, nanoId, url)])
    ensures r.Ok? ==> FileExtension(db.files[r.value.fileId].fileKey) == FileExtension(filename)
    ensures r.Err? ==> db.files == old(db.files)
  {
    var member := db.GetCircleMember(circleId, caller);
    if member.None? {
      return Err(Error(Forbidden, "Not a member of this circle"));
    }
    var fileType := ClassifyMime(mimeType);
    if fileType.None? {
      return Err(Error(BadRequest, "Unsupported file type"));
    }
    ghost var m :| m in db.members && db.members[m] == member.value;
    assert db.members[m].circleId in db.circles;
    var file := UploadedFile(circleId, caller, filename, mimeType, fileSize, folderId, fileType.value, nanoId, url);
    ghost var t := db.Snapshot();
    var created := db.CreateFile(file);
    if created.Err? {
      return Err(created.error);
    }
    UploadKeepsIntegrity(t, created.value, file);
    assert db.Snapshot() == t.(files := t.files[created.value := file]);
    r := Ok(Uploaded(created.value, url));
  }

  /** files.list: the files of a circle, for its members only. */
  method List(db: Store, caller: int, circleId: int) returns (r: Result<map<int, File>>)
    ensures !IsMember(db.members, circleId, caller) ==> r == Err(Error(Forbidden, "Not a member of this circle"))
    ensures r.Ok? <==> IsMember(db.members, circleId, caller)
    ensures r.Ok? ==> forall x :: x in r.value <==> x in db.files && db.files[x].circleId == circleId
    ensures r.Ok? ==> forall x :: x in r.value ==> r.value[x] == db.files[x]
  {
    var member := db.GetCircleMember(circleId, caller);
    if member.None? {
      return Err(Error(Forbidden, "Not a member of this circle"));
    }
    r := Ok(FilesOf(db.files, circleId));
  }

  /** files.delete: the uploader, while a member, or the circle's owner removes exactly that file. */
  method Delete(db: Store, caller: int, fileId: int) returns (r: Result<Success>)
    requires db.Valid() && caller in db.users
    modifies db`files
    ensures db.Valid()
    ensures fileId !in old(db.files) ==> r == Err(Error(NotFound, "File not found"))
    ensures fileId in old(db.files) && !IsMember(db.members, old(db.files)[fileId].circleId, caller) ==>
      r == Err(Error(Forbidden, "Not a member of this circle"))
    ensures fileId in old(db.files) && IsMember(db.members, old(db.files)[fileId].circleId, caller)
            && old(db.files)[fileId].uploaderId != caller && !IsOwnerOf(db.members, old(db.files)[fileId].circleId, caller) ==>
      r == Err(Error(Forbidden, "Only uploader or circle owner can delete"))
    ensures r.Ok? <==>
      && fileId in old(db.files)
      && IsMember(db.members, old(db.files)[fileId].circleId, caller)
      && (old(db.files)[fileId].uploaderId == caller || IsOwnerOf(db.members, old(db.files)[fileId].circleId, caller))
    ensures r.Ok? ==> db.files == old(db.files) - {fileId}
    ensures r.Err? ==> db.files == old(db.files)
  {
    if fileId !in db.files {
      return Err(Error(NotFound, "File not found"));
    }
    var file := db.files[fileId];
    var member := db.GetCircleMember(file.circleId, caller);
    if member.None? {
      return Err(Error(Forbidden, "Not a member of this circle"));
    }
    FoundRowDecidesOwnership(db.members, file.circleId, caller, member.value);
    if file.uploaderId != caller && member.value.role != Owner {
      return Err(Error(Forbidden, "Only uploader or circle owner can delete"));
    }
    ghost var t := db.Snapshot();
    DeleteFileKeepsIntegrity(t, fileId);
    db.DeleteFile(fileId);
    assert db.Snapshot() == t.(files := t.files - {fileId});
    r := Ok(Success);
  }
}
