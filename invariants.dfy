/**
 * The integrity conditions of the five tables, which the handlers keep:
 * foreign keys resolve, the unique columns are unique, a circle has an
 * invitation code exactly when it is private, each (circle, user) pair has at
 * most one membership row, and every circle has exactly one owner row, its
 * creator's. Each lemma below shows one table transition keeps them.
 */
module Invariants {
  import opened Errors
  import opened Schema
  import opened Helpers

  predicate IsMemberRow(members: map<int, CircleMember>, c: int, u: int, id: int) {
    id in members && members[id].circleId == c && members[id].userId == u
  }

  /** `getCircleMember(c, u)` finds a row. */
  predicate IsMember(members: map<int, CircleMember>, c: int, u: int) {
    exists id :: id in members && IsMemberRow(members, c, u, id)
  }

  /** The row of (c, u) has role "owner". */
  predicate IsOwnerOf(members: map<int, CircleMember>, c: int, u: int) {
    exists id :: id in members && IsMemberRow(members, c, u, id) && members[id].role == Owner
  }

  predicate IsOwnerRow(members: map<int, CircleMember>, c: int, id: int) {
    id in members && members[id].circleId == c && members[id].role == Owner
  }

  function OwnerRows(members: map<int, CircleMember>, c: int): set<int> {
    set id | id in members && members[id].circleId == c && members[id].role == Owner
  }

  predicate ReferencesResolve(t: Tables) {
    && (forall c :: c in t.circles ==> t.circles[c].creatorId in t.users)
    && (forall m :: m in t.members ==> t.members[m].circleId in t.circles && t.members[m].userId in t.users)
    && (forall f :: f in t.folders ==> t.folders[f].circleId in t.circles && t.folders[f].createdBy in t.users)
    && (forall x :: x in t.files ==>
          && t.files[x].circleId in t.circles
          && t.files[x].uploaderId in t.users
          && (t.files[x].folderId.Some? ==> t.files[x].folderId.value in t.folders))
  }

  predicate OpenIdsUnique(users: map<int, User>) {
    forall a, b :: a in users && b in users && users[a].openId == users[b].openId ==> a == b
  }

  /** An invitation code already held by some circle. */
  predicate CodeTaken(circles: map<int, Circle>, code: Option<string>) {
    code.Some? && exists c :: c in circles && circles[c].invitationCode == code
  }

  predicate InvitationCodesUnique(circles: map<int, Circle>) {
    forall a, b ::
      (a in circles && b in circles && circles[a].invitationCode.Some?
       && circles[a].invitationCode == circles[b].invitationCode) ==> a == b
  }

  /** isPublic is 0 or 1, and a circle has a well-shaped code exactly when it is private. */
  predicate VisibilityOk(circle: Circle) {
    && (circle.isPublic == 0 || circle.isPublic == 1)
    && (circle.invitationCode.Some? <==> circle.isPublic == 0)
    && (circle.invitationCode.Some? ==> IsInvitationCode(circle.invitationCode.value))
  }

  predicate VisibilityConsistent(circles: map<int, Circle>) {
    forall c :: c in circles ==> VisibilityOk(circles[c])
  }

  predicate MembershipUnique(members: map<int, CircleMember>) {
    forall a, b ::
      (a in members && b in members && members[a].circleId == members[b].circleId
       && members[a].userId == members[b].userId) ==> a == b
  }

  /** At most one owner row per circle. */
  predicate SingleOwner(members: map<int, CircleMember>) {
    forall a, b ::
      (a in members && b in members && members[a].role == Owner && members[b].role == Owner
       && members[a].circleId == members[b].circleId) ==> a == b
  }

  /** Every circle's creator holds an owner row in it. */
  predicate OwnedByCreator(t: Tables) {
    forall c :: c in t.circles ==>
      exists id :: id in t.members && IsOwnerRow(t.members, c, id) && t.members[id].userId == t.circles[c].creatorId
  }

  /** fileType was derived from mimeType at upload. */
  predicate FileTypesDerived(files: map<int, File>) {
    forall x :: x in files ==> ClassifyMime(files[x].mimeType) == Some(files[x].fileType)
  }

  predicate Integrity(t: Tables) {
    && ReferencesResolve(t)
    && OpenIdsUnique(t.users)
    && InvitationCodesUnique(t.circles)
    && VisibilityConsistent(t.circles)
    && MembershipUnique(t.members)
    && SingleOwner(t.members)
    && OwnedByCreator(t)
    && FileTypesDerived(t.files)
  }

  // ------------------------------------------------------------ consequences

  /** Every circle has exactly one owner row, and it is the creator's. */
  lemma ExactlyOneOwner(t: Tables, c: int)
    requires Integrity(t) && c in t.circles
    ensures |OwnerRows(t.members, c)| == 1
    ensures forall id :: id in OwnerRows(t.members, c) ==> t.members[id].userId == t.circles[c].creatorId
  {
    var o :| IsOwnerRow(t.members, c, o) && t.members[o].userId == t.circles[c].creatorId;
    assert IsOwnerRow(t.members, c, o) && t.members[o].userId == t.circles[c].creatorId;
    forall id | id in OwnerRows(t.members, c) ensures id == o {
      assert IsOwnerRow(t.members, c, id);
    }
    assert OwnerRows(t.members, c) == {o};
  }

  /** Under the invariants, the owner of a circle is exactly its creator. */
  lemma OwnerIsCreator(t: Tables, c: int, u: int)
    requires Integrity(t)
    ensures IsOwnerOf(t.members, c, u) <==> c in t.circles && u == t.circles[c].creatorId
  {
    if c in t.circles {
      var o :| IsOwnerRow(t.members, c, o) && t.members[o].userId == t.circles[c].creatorId;
      assert IsOwnerRow(t.members, c, o) && t.members[o].userId == t.circles[c].creatorId;
      assert u == t.circles[c].creatorId ==> IsMemberRow(t.members, c, u, o);
    }
  }

  /** Without the handlers' "already a member" check, a second row for the same pair breaks uniqueness. */
  lemma DuplicateInsertBreaksUniqueness(members: map<int, CircleMember>, id: int, row: CircleMember)
    requires IsMember(members, row.circleId, row.userId) && id !in members
    ensures !MembershipUnique(members[id := row])
  {
    var old_id :| IsMemberRow(members, row.circleId, row.userId, old_id);
    assert IsMemberRow(members, row.circleId, row.userId, old_id);
    var m := members[id := row];
    assert m[old_id].circleId == m[id].circleId && m[old_id].userId == m[id].userId && old_id != id;
  }

  /**
   * create inserts the circle before its owner row: the state between the two
   * inserts breaks the ownership invariant.
   */
  lemma CreateMidpointHasNoOwner(t: Tables, cid: int, circle: Circle)
    requires cid !in t.circles && ReferencesResolve(t)
    ensures !OwnedByCreator(t.(circles := t.circles[cid := circle]))
  {
    var t' := t.(circles := t.circles[cid := circle]);
    forall id | id in t'.members ensures !IsOwnerRow(t'.members, cid, id) {
      assert t.members[id].circleId in t.circles;
    }
    assert cid in t'.circles;
  }

  /**
   * With unique membership, the row `getCircleMember` happens to find decides
   * ownership: its role is "owner" exactly when the pair has an owner row.
   */
  lemma FoundRowDecidesOwnership(members: map<int, CircleMember>, c: int, u: int, row: CircleMember)
    requires MembershipUnique(members)
    requires row.circleId == c && row.userId == u && exists id :: id in members && members[id] == row
    ensures row.role == Owner <==> IsOwnerOf(members, c, u)
  {
    var id :| id in members && members[id] == row;
    if IsOwnerOf(members, c, u) {
      var o :| o in members && IsMemberRow(members, c, u, o) && members[o].role == Owner;
      assert IsMemberRow(members, c, u, o);
      assert o == id;
    } else {
      assert IsMemberRow(members, c, u, id);
    }
  }

  /** Joining with a fresh row and then leaving gives back the table as it was. */
  lemma JoinThenLeaveRestores(members: map<int, CircleMember>, c: int, u: int, mid: int, role: MemberRole)
    requires !IsMember(members, c, u) && mid !in members
    ensures WithoutMembership(members[mid := CircleMember(c, u, role)], c, u) == members
  {
    var joined := members[mid := CircleMember(c, u, role)];
    var left := WithoutMembership(joined, c, u);
    forall id | id in members ensures id in left && left[id] == members[id] {
      assert id != mid;
      assert !IsMemberRow(members, c, u, id);
    }
    assert forall id :: id in left ==> id in members;
  }

  /** A circle found by its invitation code is a private one. */
  lemma CodeHolderIsPrivate(circles: map<int, Circle>, c: int)
    requires VisibilityConsistent(circles) && c in circles && circles[c].invitationCode.Some?
    ensures circles[c].isPublic == 0 && IsInvitationCode(circles[c].invitationCode.value)
  {
    assert VisibilityOk(circles[c]);
  }

  // -------------------------------------------------------------- transitions

  /** circles.create: a new circle and, for its creator, an owner row. */
  lemma CreateKeepsIntegrity(t: Tables, cid: int, circle: Circle, mid: int)
    requires Integrity(t)
    requires cid !in t.circles && mid !in t.members
    requires circle.creatorId in t.users && VisibilityOk(circle) && !CodeTaken(t.circles, circle.invitationCode)
    ensures Integrity(t.(circles := t.circles[cid := circle],
                         members := t.members[mid := CircleMember(cid, circle.creatorId, Owner)]))
  {
    var t' := t.(circles := t.circles[cid := circle],
                 members := t.members[mid := CircleMember(cid, circle.creatorId, Owner)]);
    forall c | c in t'.circles
      ensures exists id :: IsOwnerRow(t'.members, c, id) && t'.members[id].userId == t'.circles[c].creatorId
    {
      if c == cid {
        assert IsOwnerRow(t'.members, c, mid);
      } else {
        var o :| IsOwnerRow(t.members, c, o) && t.members[o].userId == t.circles[c].creatorId;
        assert IsOwnerRow(t.members, c, o) && t.members[o].userId == t.circles[c].creatorId;
        assert IsOwnerRow(t'.members, c, o);
      }
    }
  }

  /** join / joinByInvitationCode: one "member" row for a pair that had none. */
  lemma JoinKeepsIntegrity(t: Tables, c: int, u: int, mid: int)
    requires Integrity(t)
    requires c in t.circles && u in t.users && mid !in t.members && !IsMember(t.members, c, u)
    ensures Integrity(t.(members := t.members[mid := CircleMember(c, u, Member)]))
  {
    var t' := t.(members := t.members[mid := CircleMember(c, u, Member)]);
    forall k | k in t'.circles
      ensures exists id :: IsOwnerRow(t'.members, k, id) && t'.members[id].userId == t'.circles[k].creatorId
    {
      var o :| IsOwnerRow(t.members, k, o) && t.members[o].userId == t.circles[k].creatorId;
      assert IsOwnerRow(t.members, k, o) && t.members[o].userId == t.circles[k].creatorId;
      assert IsOwnerRow(t'.members, k, o);
    }
  }

  /** `removeCircleMember(c, u)`: drops every row of the pair, and only those. */
  function WithoutMembership(members: map<int, CircleMember>, c: int, u: int): (r: map<int, CircleMember>)
    ensures forall id :: id in r <==> id in members && !IsMemberRow(members, c, u, id)
    ensures forall id :: id in r ==> r[id] == members[id]
    ensures !IsMember(r, c, u)
  {
    map id | id in members && !IsMemberRow(members, c, u, id) :: members[id]
  }

  /** leave / removeMember: removing a pair whose row has role "member". */
  lemma RemoveMemberKeepsIntegrity(t: Tables, c: int, u: int)
    requires Integrity(t)
    requires exists id :: IsMemberRow(t.members, c, u, id) && t.members[id].role == Member
    ensures Integrity(t.(members := WithoutMembership(t.members, c, u)))
  {
    var t' := t.(members := WithoutMembership(t.members, c, u));
    var gone :| IsMemberRow(t.members, c, u, gone) && t.members[gone].role == Member;
    assert IsMemberRow(t.members, c, u, gone) && t.members[gone].role == Member;
    forall k | k in t'.circles
      ensures exists id :: IsOwnerRow(t'.members, k, id) && t'.members[id].userId == t'.circles[k].creatorId
    {
      var o :| IsOwnerRow(t.members, k, o) && t.members[o].userId == t.circles[k].creatorId;
      assert IsOwnerRow(t.members, k, o) && t.members[o].userId == t.circles[k].creatorId;
      assert o != gone;
      assert !IsMemberRow(t.members, c, u, o);
      assert IsOwnerRow(t'.members, k, o);
    }
  }

  /** circles.update: only the name and description of an existing circle change. */
  lemma UpdateCircleKeepsIntegrity(t: Tables, c: int, circle: Circle)
    requires Integrity(t) && c in t.circles
    requires circle == t.circles[c].(name := circle.name, description := circle.description)
    ensures Integrity(t.(circles := t.circles[c := circle]))
  {
    var t' := t.(circles := t.circles[c := circle]);
    forall k | k in t'.circles
      ensures exists id :: IsOwnerRow(t'.members, k, id) && t'.members[id].userId == t'.circles[k].creatorId
    {
      var o :| IsOwnerRow(t.members, k, o) && t.members[o].userId == t.circles[k].creatorId;
      assert IsOwnerRow(t.members, k, o) && t.members[o].userId == t.circles[k].creatorId;
      assert IsOwnerRow(t'.members, k, o);
    }
  }

  /** circles.delete: the cascade of the schema leaves no dangling reference and no ownerless circle. */
  lemma DeleteCircleKeepsIntegrity(t: Tables, c: int)
    requires Integrity(t)
    ensures Integrity(DeleteCircle(t, c))
  {
    var t' := DeleteCircle(t, c);
    forall x | x in t'.files && t'.files[x].folderId.Some?
      ensures t'.files[x].folderId.value in t'.folders
    {
      var f := t'.files[x].folderId.value;
      assert t.files[x].folderId == Some(f);
      assert f !in FoldersIn(t.folders, c);
    }
    forall k | k in t'.circles
      ensures exists id :: IsOwnerRow(t'.members, k, id) && t'.members[id].userId == t'.circles[k].creatorId
    {
      var o :| IsOwnerRow(t.members, k, o) && t.members[o].userId == t.circles[k].creatorId;
      assert IsOwnerRow(t.members, k, o) && t.members[o].userId == t.circles[k].creatorId;
      assert IsOwnerRow(t'.members, k, o);
    }
    assert FileTypesDerived(t'.files) by {
      forall x | x in t'.files ensures ClassifyMime(t'.files[x].mimeType) == Some(t'.files[x].fileType) {
        assert t'.files[x].mimeType == t.files[x].mimeType && t'.files[x].fileType == t.files[x].fileType;
      }
    }
  }

  /** After deleting a user, the surviving files still reference existing rows. */
  lemma DeleteUserKeepsFileReferences(t: Tables, u: int)
    requires Integrity(t)
    ensures var t' := DeleteUser(t, u);
      forall x :: x in t'.files ==>
        && t'.files[x].circleId in t'.circles
        && t'.files[x].uploaderId in t'.users
        && (t'.files[x].folderId.Some? ==> t'.files[x].folderId.value in t'.folders)
        && ClassifyMime(t'.files[x].mimeType) == Some(t'.files[x].fileType)
  {
    var t' := DeleteUser(t, u);
    var goneCircles := CirclesCreatedBy(t.circles, u);
    var goneFolders := FoldersGoneWith(t, u);
    forall x | x in t'.files
      ensures t'.files[x].circleId in t'.circles && t'.files[x].uploaderId in t'.users
      ensures t'.files[x].folderId.Some? ==> t'.files[x].folderId.value in t'.folders
      ensures ClassifyMime(t'.files[x].mimeType) == Some(t'.files[x].fileType)
    {
      assert t'.files[x] == t.files[x].(folderId := t'.files[x].folderId);
      assert t.files[x].circleId !in goneCircles;
      if t'.files[x].folderId.Some? {
        assert t'.files[x].folderId == t.files[x].folderId;
        assert t'.files[x].folderId.value !in goneFolders;
      }
    }
  }

  /** After deleting a user, every surviving circle keeps its creator's owner row. */
  lemma DeleteUserKeepsOwners(t: Tables, u: int)
    requires Integrity(t)
    ensures OwnedByCreator(DeleteUser(t, u))
  {
    var t' := DeleteUser(t, u);
    var goneCircles := CirclesCreatedBy(t.circles, u);
    forall k | k in t'.circles
      ensures exists id :: id in t'.members && IsOwnerRow(t'.members, k, id) && t'.members[id].userId == t'.circles[k].creatorId
    {
      var o :| IsOwnerRow(t.members, k, o) && t.members[o].userId == t.circles[k].creatorId;
      assert IsOwnerRow(t.members, k, o) && t.members[o].userId == t.circles[k].creatorId;
      assert k !in goneCircles;
      assert o in t'.members;
      assert IsOwnerRow(t'.members, k, o);
    }
  }

  /** Deleting a user: the schema's cascades keep every invariant, ownership included. */
  lemma DeleteUserKeepsIntegrity(t: Tables, u: int)
    requires Integrity(t)
    ensures Integrity(DeleteUser(t, u))
  {
    var t' := DeleteUser(t, u);
    var goneFolders := FoldersGoneWith(t, u);
    DeleteUserKeepsFileReferences(t, u);
    DeleteUserKeepsOwners(t, u);
    forall f | f in t'.folders
      ensures t'.folders[f].circleId in t'.circles && t'.folders[f].createdBy in t'.users
    {
      assert f !in goneFolders;
    }
  }

  /** files.upload: a file row whose references resolve and whose type comes from its MIME type. */
  lemma UploadKeepsIntegrity(t: Tables, x: int, file: File)
    requires Integrity(t) && x !in t.files
    requires file.circleId in t.circles && file.uploaderId in t.users
    requires file.folderId.Some? ==> file.folderId.value in t.folders
    requires ClassifyMime(file.mimeType) == Some(file.fileType)
    ensures Integrity(t.(files := t.files[x := file]))
  {
  }

  /** files.delete: removing one file row. */
  lemma DeleteFileKeepsIntegrity(t: Tables, x: int)
    requires Integrity(t)
    ensures Integrity(t.(files := t.files - {x}))
  {
  }

  /** folders.create: a folder of an existing circle, by an existing user. */
  lemma CreateFolderKeepsIntegrity(t: Tables, f: int, folder: Folder)
    requires Integrity(t) && f !in t.folders
    requires folder.circleId in t.circles && folder.createdBy in t.users
    ensures Integrity(t.(folders := t.folders[f := folder]))
  {
  }

  /** folders.rename: only the name of an existing folder changes. */
  lemma RenameFolderKeepsIntegrity(t: Tables, f: int, name: string)
    requires Integrity(t) && f in t.folders
    ensures Integrity(t.(folders := t.folders[f := t.folders[f].(name := name)]))
  {
  }

  /** folders.delete: the files of the folder are detached, then the folder goes. */
  lemma DeleteFolderKeepsIntegrity(t: Tables, f: int)
    requires Integrity(t)
    ensures Integrity(t.(files := DetachFolders(t.files, {f}), folders := t.folders - {f}))
  {
    var t' := t.(files := DetachFolders(t.files, {f}), folders := t.folders - {f});
    forall x | x in t'.files
      ensures t'.files[x].folderId.Some? ==> t'.files[x].folderId.value in t'.folders
      ensures ClassifyMime(t'.files[x].mimeType) == Some(t'.files[x].fileType)
    {
      assert t'.files[x] == t.files[x].(folderId := t'.files[x].folderId);
    }
  }

  /** upsertUser: an insert under a fresh openId, or an update that keeps the openId. */
  lemma UpsertKeepsIntegrity(t: Tables, id: int, user: User)
    requires Integrity(t)
    requires id in t.users ==> user.openId == t.users[id].openId
    requires id !in t.users ==> forall k :: k in t.users ==> t.users[k].openId != user.openId
    ensures Integrity(t.(users := t.users[id := user]))
  {
  }
}
