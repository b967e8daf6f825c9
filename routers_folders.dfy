/**
 * The folders router: any member of a circle creates, lists, renames and
 * deletes its folders. Deleting a folder keeps its files, outside any folder.
 */
module FoldersRouter {
  import opened Errors
  import opened Schema
  import opened Helpers
  import opened Invariants
  import opened Db

  /** folders.create: a member adds a folder; an empty description becomes null. */
  method Create(db: Store, caller: int, circleId: int, name: string, description: Option<string>) returns (r: Result<int>)
    requires db.Valid() && caller in db.users
    modifies db`folders, db`nextFolderId
    ensures db.Valid()
    ensures !NameInRange(name) ==> r == Err(InvalidInput)
    ensures NameInRange(name) && !IsMember(db.members, circleId, caller) ==>
      r == Err(Error(Forbidden, "Not a member of this circle"))
    ensures r.Ok? <==> NameInRange(name) && IsMember(db.members, circleId, caller)
    ensures r.Ok? ==> r.value == old(db.nextFolderId)
    ensures r.Ok? ==> db.folders == old(db.folders)[r.value := Folder(circleId, name, NullIfEmpty(description), caller)]
    ensures r.Err? ==> db.folders == old(db.folders)
  {
    if !NameInRange(name) {
      return Err(InvalidInput);
    }
    var member := db.GetCircleMember(circleId, caller);
    if member.None? {
      return Err(Error(Forbidden, "Not a member of this circle"));
    }
    ghost var m :| m in db.members && db.members[m] == member.value;
    assert db.members[m].circleId in db.circles;
    var folder := Folder(circleId, name, NullIfEmpty(description), caller);
    ghost var t := db.Snapshot();
    var created := db.CreateFolder(folder);
    assert created.Ok?;
    CreateFolderKeepsIntegrity(t, created.value, folder);
    assert db.Snapshot() == t.(folders := t.folders[created.value := folder]);
    r := Ok(created.value);
  }

  /** folders.list: the folders of a circle, for its members only. */
  method List(db: Store, caller: int, circleId: int) returns (r: Result<map<int, Folder>>)
    ensures !IsMember(db.members, circleId, caller) ==> r == Err(Error(Forbidden, "Not a member of this circle"))
    ensures r.Ok? <==> IsMember(db.members, circleId, caller)
    ensures r.Ok? ==> forall f :: f in r.value <==> f in db.folders && db.folders[f].circleId == circleId
    ensures r.Ok? ==> forall f :: f in r.value ==> r.value[f] == db.folders[f]
  {
    var member := db.GetCircleMember(circleId, caller);
    if member.None? {
      return Err(Error(Forbidden, "Not a member of this circle"));
    }
    r := Ok(FoldersOf(db.folders, circleId));
  }

  /** folders.rename: a member of the folder's circle renames it. */
  method Rename(db: Store, caller: int, folderId: int, name: string) returns (r: Result<Success>)
    requires db.Valid() && caller in db.users
    modifies db`folders
    ensures db.Valid()
    ensures !NameInRange(name) ==> r == Err(InvalidInput)
    ensures NameInRange(name) && folderId !in old(db.folders) ==> r == Err(Error(NotFound, "Folder not found"))
    ensures NameInRange(name) && folderId in old(db.folders) && !IsMember(db.members, old(db.folders)[folderId].circleId, caller) ==>
      r == Err(Error(Forbidden, "Not a member of this circle"))
    ensures r.Ok? <==>
      NameInRange(name) && folderId in old(db.folders) && IsMember(db.members, old(db.folders)[folderId].circleId, caller)
    ensures r.Ok? ==> db.folders == old(db.folders)[folderId := old(db.folders)[folderId].(name := name)]
    ensures r.Err? ==> db.folders == old(db.folders)
  {
    if !NameInRange(name) {
      return Err(InvalidInput);
    }
    if folderId !in db.folders {
      return Err(Error(NotFound, "Folder not found"));
    }
    var member := db.GetCircleMember(db.folders[folderId].circleId, caller);
    if member.None? {
      return Err(Error(Forbidden, "Not a member of this circle"));
    }
    ghost var t := db.Snapshot();
    RenameFolderKeepsIntegrity(t, folderId, name);
    db.UpdateFolderName(folderId, name);
    assert db.Snapshot() == t.(folders := t.folders[folderId := t.folders[folderId].(name := name)]);
    r := Ok(Success);
  }

  /**
   * folders.delete: a member of the folder's circle deletes it; its files stay,
   * with no folder, and no other file changes.
   */
  method Delete(db: Store, caller: int, folderId: int) returns (r: Result<Success>)
    requires db.Valid() && caller in db.users
    modifies db`files, db`folders
    ensures db.Valid()
    ensures folderId !in old(db.folders) ==> r == Err(Error(NotFound, "Folder not found"))
    ensures folderId in old(db.folders) && !IsMember(db.members, old(db.folders)[folderId].circleId, caller) ==>
      r == Err(Error(Forbidden, "Not a member of this circle"))
    ensures r.Ok? <==> folderId in old(db.folders) && IsMember(db.members, old(db.folders)[folderId].circleId, caller)
    ensures r.Ok? ==> db.files == DetachFolders(old(db.files), {folderId}) && db.folders == old(db.folders) - {folderId}
    ensures r.Ok? ==> db.files.Keys == old(db.files).Keys
    ensures r.Err? ==> db.files == old(db.files) && db.folders == old(db.folders)
  {
    if folderId !in db.folders {
      return Err(Error(NotFound, "Folder not found"));
    }
    var member := db.GetCircleMember(db.folders[folderId].circleId, caller);
    if member.None? {
      return Err(Error(Forbidden, "Not a member of this circle"));
    }
    ghost var t := db.Snapshot();
    DeleteFolderKeepsIntegrity(t, folderId);
    db.DeleteFolder(folderId);
    assert db.Snapshot() == t.(files := DetachFolders(t.files, {folderId}), folders := t.folders - {folderId});
    r := Ok(Success);
  }
}
