/**
 * The data-access module: a store holding the tables, with one method per
 * query or mutation the handlers call. Inserts fail, as the database would,
 * when a foreign key does not resolve or a unique column would repeat; the
 * (circleId, userId) index is not unique, so inserting a second membership
 * row for a pair succeeds here as it does in the database.
 */
module Db {
  import opened Errors
  import opened Schema
  import opened Invariants

  // ---------------------------------------------------------------- upsertUser

  /** A nullable text column of the input: `undefined`, `null` or a string. */
  datatype Patch<T> = Undefined | Null | Given(value: T)

  /** The InsertUser argument of upsertUser (the clocks createdAt/updatedAt aside). */
  datatype InsertUser = InsertUser(
    openId: string,
    name: Patch<string>,
    email: Patch<string>,
    loginMethod: Patch<string>,
    lastSignedIn: Option<int>,
    role: Option<UserRole>)

  /** The keys of the `values` and `updateSet` dictionaries besides openId. */
  datatype UserColumn = NameColumn | EmailColumn | LoginMethodColumn | LastSignedInColumn | RoleColumn
  datatype ColumnValue = TextValue(text: Option<string>) | TimeValue(time: int) | RoleValue(role: UserRole)

  /** `textFields`, in the order `forEach` visits them. */
  const TextFields: seq<UserColumn> := [NameColumn, EmailColumn, LoginMethodColumn]

  function TextInput(user: InsertUser, f: UserColumn): Patch<string> {
    match f
    case NameColumn => user.name
    case EmailColumn => user.email
    case LoginMethodColumn => user.loginMethod
    case _ => Undefined
  }

  /** `value ?? null` of a value that is not undefined. */
  function Normalize(p: Patch<string>): Option<string> {
    if p.Given? then Some(p.value) else None
  }

  /** The text columns `assignNullable` writes among the first n fields. */
  function TextColumns(user: InsertUser, n: nat): map<UserColumn, ColumnValue>
    requires n <= |TextFields|
  {
    map f | f in TextFields[..n] && TextInput(user, f) != Undefined :: TextValue(Normalize(TextInput(user, f)))
  }

  /** The role written: an explicit role, else "admin" for the owner's openId, else none. */
  function RoleWritten(user: InsertUser, ownerOpenId: string): Option<UserRole> {
    if user.role.Some? then user.role
    else if user.openId == ownerOpenId then Some(Admin)
    else None
  }

  /** What both dictionaries hold before the two defaults are applied. */
  function Written(user: InsertUser, ownerOpenId: string): map<UserColumn, ColumnValue> {
    var m := TextColumns(user, |TextFields|);
    var m := if user.lastSignedIn.Some? then m[LastSignedInColumn := TimeValue(user.lastSignedIn.value)] else m;
    if RoleWritten(user, ownerOpenId).Some? then m[RoleColumn := RoleValue(RoleWritten(user, ownerOpenId).value)] else m
  }

  /** `values`: lastSignedIn defaults to now. */
  function UpsertValues(user: InsertUser, ownerOpenId: string, now: int): map<UserColumn, ColumnValue> {
    var w := Written(user, ownerOpenId);
    if LastSignedInColumn in w then w else w[LastSignedInColumn := TimeValue(now)]
  }

  /** `updateSet`: an empty one becomes `{ lastSignedIn: now }`. */
  function UpsertUpdateSet(user: InsertUser, ownerOpenId: string, now: int): map<UserColumn, ColumnValue> {
    var w := Written(user, ownerOpenId);
    if w == map[] then map[LastSignedInColumn := TimeValue(now)] else w
  }

  function TextColumn(m: map<UserColumn, ColumnValue>, f: UserColumn, otherwise: Option<string>): Option<string> {
    if f in m && m[f].TextValue? then m[f].text else otherwise
  }

  /** The row `INSERT ... VALUES (values)` creates: absent text columns are null, the role defaults to "user". */
  function InsertedRow(openId: string, values: map<UserColumn, ColumnValue>, now: int): (r: User)
    ensures r.openId == openId
    ensures forall f :: f in TextFields ==>
      TextOf(r, f) == if f in values && values[f].TextValue? then values[f].text else None
    ensures values == map[] ==> r == User(openId, None, None, None, RegularUser, now)
  {
    User(
      openId,
      TextColumn(values, NameColumn, None),
      TextColumn(values, EmailColumn, None),
      TextColumn(values, LoginMethodColumn, None),
      if RoleColumn in values && values[RoleColumn].RoleValue? then values[RoleColumn].role else DefaultUserRole,
      if LastSignedInColumn in values && values[LastSignedInColumn].TimeValue? then values[LastSignedInColumn].time else now)
  }

  /** The row `ON DUPLICATE KEY UPDATE SET (updateSet)` leaves: only the listed columns change. */
  function UpdatedRow(row: User, set_: map<UserColumn, ColumnValue>): (r: User)
    ensures r.openId == row.openId
    ensures forall f :: f in TextFields ==>
      TextOf(r, f) == if f in set_ && set_[f].TextValue? then set_[f].text else TextOf(row, f)
    ensures set_ == map[] ==> r == row
  {
    User(
      row.openId,
      TextColumn(set_, NameColumn, row.name),
      TextColumn(set_, EmailColumn, row.email),
      TextColumn(set_, LoginMethodColumn, row.loginMethod),
      if RoleColumn in set_ && set_[RoleColumn].RoleValue? then set_[RoleColumn].role else row.role,
      if LastSignedInColumn in set_ && set_[LastSignedInColumn].TimeValue? then set_[LastSignedInColumn].time else row.lastSignedIn)
  }

  /** The row upsertUser leaves for `user.openId`, given the row already stored under it, if any. */
  function UpsertRow(existing: Option<User>, user: InsertUser, ownerOpenId: string, now: int): (r: User)
    ensures r.openId == if existing.Some? then existing.value.openId else user.openId
    ensures existing.Some? && WritesNothing(user, ownerOpenId) ==> r == existing.value.(lastSignedIn := now)
  {
    WrittenIsEmpty(user, ownerOpenId);
    match existing
    case None => InsertedRow(user.openId, UpsertValues(user, ownerOpenId, now), now)
    case Some(row) => UpdatedRow(row, UpsertUpdateSet(user, ownerOpenId, now))
  }

  /** The text columns of a user row, by dictionary key. */
  function TextOf(row: User, f: UserColumn): Option<string> {
    match f
    case NameColumn => row.name
    case EmailColumn => row.email
    case LoginMethodColumn => row.loginMethod
    case _ => None
  }

  /** Whether the input writes nothing at all, so that the update only refreshes lastSignedIn. */
  predicate WritesNothing(user: InsertUser, ownerOpenId: string) {
    && user.name == Undefined && user.email == Undefined && user.loginMethod == Undefined
    && user.lastSignedIn.None? && RoleWritten(user, ownerOpenId).None?
  }

  lemma WrittenIsEmpty(user: InsertUser, ownerOpenId: string)
    ensures Written(user, ownerOpenId) == map[] <==> WritesNothing(user, ownerOpenId)
  {
    var w := Written(user, ownerOpenId);
    var text := TextColumns(user, |TextFields|);
    assert TextFields[..|TextFields|] == TextFields;
    assert forall f :: f in text ==> f in w;
    if !WritesNothing(user, ownerOpenId) {
      assert TextInput(user, NameColumn) == user.name && TextInput(user, EmailColumn) == user.email;
      assert TextInput(user, LoginMethodColumn) == user.loginMethod;
      if user.name != Undefined { assert NameColumn in w; }
      else if user.email != Undefined { assert EmailColumn in w; }
      else if user.loginMethod != Undefined { assert LoginMethodColumn in w; }
      else if user.lastSignedIn.Some? { assert LastSignedInColumn in w; }
      else { assert RoleColumn in w; }
    } else {
      assert TextColumns(user, |TextFields|) == map[];
    }
  }

  /** The role rule: an explicit role wins; else "admin" for the owner's openId; else nothing is written. */
  lemma UpsertRoleRule(existing: Option<User>, user: InsertUser, ownerOpenId: string, now: int)
    ensures UpsertRow(existing, user, ownerOpenId, now).role ==
      if user.role.Some? then user.role.value
      else if user.openId == ownerOpenId then Admin
      else if existing.None? then DefaultUserRole
      else existing.value.role
  {
    WrittenIsEmpty(user, ownerOpenId);
  }

  /**
   * The merge rule for name, email and loginMethod: a given string is stored,
   * an explicit null is stored as null, an undefined field is left alone (null
   * on insert).
   */
  lemma UpsertTextRule(existing: Option<User>, user: InsertUser, ownerOpenId: string, now: int, f: UserColumn)
    requires f in TextFields
    ensures TextOf(UpsertRow(existing, user, ownerOpenId, now), f) ==
      match TextInput(user, f)
      case Given(v) => Some(v)
      case Null => None
      case Undefined => if existing.None? then None else TextOf(existing.value, f)
  {
    WrittenIsEmpty(user, ownerOpenId);
    var w := Written(user, ownerOpenId);
    assert TextFields[..|TextFields|] == TextFields;
    if TextInput(user, f) != Undefined {
      assert f in TextColumns(user, |TextFields|);
      assert f in w && w[f] == TextValue(Normalize(TextInput(user, f)));
    } else {
      assert f !in TextColumns(user, |TextFields|);
      assert f !in w;
    }
  }

  /**
   * lastSignedIn: a given time is stored; otherwise an insert stamps now, and
   * an update stamps now exactly when it writes nothing else.
   */
  lemma UpsertSignInRule(existing: Option<User>, user: InsertUser, ownerOpenId: string, now: int)
    ensures UpsertRow(existing, user, ownerOpenId, now).lastSignedIn ==
      if user.lastSignedIn.Some? then user.lastSignedIn.value
      else if existing.None? || WritesNothing(user, ownerOpenId) then now
      else existing.value.lastSignedIn
  {
    WrittenIsEmpty(user, ownerOpenId);
    var w := Written(user, ownerOpenId);
    assert LastSignedInColumn !in TextColumns(user, |TextFields|);
    assert user.lastSignedIn.Some? <==> LastSignedInColumn in w;
  }

  /** Builds `values` and `updateSet` as upsertUser does, `forEach` over the text fields first. */
  method PrepareUpsert(user: InsertUser, ownerOpenId: string, now: int)
    returns (values: map<UserColumn, ColumnValue>, updateSet: map<UserColumn, ColumnValue>)
    ensures values == UpsertValues(user, ownerOpenId, now)
    ensures updateSet == UpsertUpdateSet(user, ownerOpenId, now)
  {
    values, updateSet := map[], map[];
    var i := 0;
    while i < |TextFields|
      invariant 0 <= i <= |TextFields|
      invariant values == updateSet == TextColumns(user, i)
    {
      var field := TextFields[i];
      var value := TextInput(user, field);
      if value != Undefined {
        var normalized := TextValue(Normalize(value));
        values := values[field := normalized];
        updateSet := updateSet[field := normalized];
      }
      assert TextFields[..i + 1] == TextFields[..i] + [field];
      i := i + 1;
    }
    if user.lastSignedIn.Some? {
      values := values[LastSignedInColumn := TimeValue(user.lastSignedIn.value)];
      updateSet := updateSet[LastSignedInColumn := TimeValue(user.lastSignedIn.value)];
    }
    if user.role.Some? {
      values := values[RoleColumn := RoleValue(user.role.value)];
      updateSet := updateSet[RoleColumn := RoleValue(user.role.value)];
    } else if user.openId == ownerOpenId {
      values := values[RoleColumn := RoleValue(Admin)];
      updateSet := updateSet[RoleColumn := RoleValue(Admin)];
    }
    if LastSignedInColumn !in values {
      values := values[LastSignedInColumn := TimeValue(now)];
    }
    if |updateSet| == 0 {
      updateSet := updateSet[LastSignedInColumn := TimeValue(now)];
    }
  }

  // ------------------------------------------------------------------ queries

  /** A row of getCirclesByUserId: the circle, the caller's role in it and its member count. */
  datatype CircleListing = CircleListing(id: int, circle: Circle, role: MemberRole, memberCount: nat)
  /** A row of getPublicCircles. */
  datatype PublicListing = PublicListing(id: int, circle: Circle, memberCount: nat)

  /** `(SELECT COUNT(*) FROM circle_members WHERE circleId = c)`. */
  function MemberCount(members: map<int, CircleMember>, c: int): (n: nat)
    ensures n <= |members|
    ensures n == 0 <==> forall m :: m in members ==> members[m].circleId != c
  {
    var rows := set m | m in members && members[m].circleId == c;
    SubsetNoLarger(rows, members.Keys);
    assert (forall m :: m in members ==> members[m].circleId != c) ==> rows == {};
    assert forall m :: m in members && members[m].circleId == c ==> m in rows;
    assert |rows| == 0 ==> rows == {};
    |rows|
  }

  lemma {:induction false} SubsetNoLarger<T>(a: set<T>, b: set<T>)
    requires a <= b
    ensures |a| <= |b|
  {
    if a != {} {
      var x :| x in a;
      SubsetNoLarger(a - {x}, b - {x});
    }
  }

  /** Every circle counts at least one member: its owner. */
  lemma MemberCountPositive(t: Tables, c: int)
    requires Integrity(t) && c in t.circles
    ensures MemberCount(t.members, c) >= 1
  {
    var o :| IsOwnerRow(t.members, c, o) && t.members[o].userId == t.circles[c].creatorId;
    assert IsOwnerRow(t.members, c, o);
    var rows := set m | m in t.members && t.members[m].circleId == c;
    assert {o} <= rows;
  }

  /** The rows of `members` that belong to circle c. */
  function MembersOf(members: map<int, CircleMember>, c: int): (r: map<int, CircleMember>)
    ensures forall m :: m in r <==> m in members && members[m].circleId == c
    ensures forall m :: m in r ==> r[m] == members[m]
  {
    map m | m in members && members[m].circleId == c :: members[m]
  }

  function FilesOf(files: map<int, File>, c: int): (r: map<int, File>)
    ensures forall x :: x in r <==> x in files && files[x].circleId == c
    ensures forall x :: x in r ==> r[x] == files[x]
  {
    map x | x in files && files[x].circleId == c :: files[x]
  }

  function FoldersOf(folders: map<int, Folder>, c: int): (r: map<int, Folder>)
    ensures forall f :: f in r <==> f in folders && folders[f].circleId == c
    ensures forall f :: f in r ==> r[f] == folders[f]
  {
    map f | f in folders && folders[f].circleId == c :: folders[f]
  }

  /** getCirclesByUserId: one listing per membership row of the user, tagged with that row's role. */
  function CirclesByUserId(t: Tables, userId: int): (r: set<CircleListing>)
    ensures forall l :: l in r ==>
      l.id in t.circles && l.circle == t.circles[l.id] && l.memberCount == MemberCount(t.members, l.id)
      && exists m :: m in t.members && IsMemberRow(t.members, l.id, userId, m) && t.members[m].role == l.role
    ensures forall m :: m in t.members && t.members[m].userId == userId && t.members[m].circleId in t.circles ==>
      CircleListing(t.members[m].circleId, t.circles[t.members[m].circleId], t.members[m].role,
                    MemberCount(t.members, t.members[m].circleId)) in r
  {
    set m | m in t.members && t.members[m].userId == userId && t.members[m].circleId in t.circles ::
      CircleListing(t.members[m].circleId, t.circles[t.members[m].circleId], t.members[m].role,
                    MemberCount(t.members, t.members[m].circleId))
  }

  /** A circle appears in a user's list exactly when the user has a membership row in it. */
  lemma ListedIffMember(t: Tables, userId: int, c: int)
    requires Integrity(t)
    ensures (exists l :: l in CirclesByUserId(t, userId) && l.id == c) <==> IsMember(t.members, c, userId)
  {
    var r := CirclesByUserId(t, userId);
    if exists l :: l in r && l.id == c {
      var l :| l in r && l.id == c;
      assert l in r;
      var m :| m in t.members && IsMemberRow(t.members, l.id, userId, m) && t.members[m].role == l.role;
      assert IsMemberRow(t.members, c, userId, m);
    }
    if IsMember(t.members, c, userId) {
      var m :| m in t.members && IsMemberRow(t.members, c, userId, m);
      assert IsMemberRow(t.members, c, userId, m);
      var l := CircleListing(c, t.circles[c], t.members[m].role, MemberCount(t.members, c));
      assert l in r;
    }
  }

  /** getPublicCircles: exactly the circles with isPublic = 1. */
  function PublicCircles(t: Tables): (r: set<PublicListing>)
    ensures forall l :: l in r ==>
      l.id in t.circles && l.circle == t.circles[l.id] && l.circle.isPublic == 1 && l.memberCount == MemberCount(t.members, l.id)
    ensures forall c :: c in t.circles && t.circles[c].isPublic == 1 ==>
      PublicListing(c, t.circles[c], MemberCount(t.members, c)) in r
  {
    set c | c in t.circles && t.circles[c].isPublic == 1 :: PublicListing(c, t.circles[c], MemberCount(t.members, c))
  }

  /** No public listing carries an invitation code. */
  lemma PublicCirclesHaveNoCode(t: Tables)
    requires Integrity(t)
    ensures forall l :: l in PublicCircles(t) ==> l.circle.invitationCode.None?
  {
  }

  // -------------------------------------------------------------------- store

  class Store {
    var users: map<int, User>
    var circles: map<int, Circle>
    var members: map<int, CircleMember>
    var folders: map<int, Folder>
    var files: map<int, File>
    var orders: map<int, PaymentOrder>
    /** platform_earnings.transactionCount, by month. */
    var transactionCounts: map<string, int>
    /** The next value of each table's auto-increment key. */
    var nextUserId: int
    var nextCircleId: int
    var nextMemberId: int
    var nextFolderId: int
    var nextFileId: int
    var nextOrderId: int

    function Snapshot(): Tables
      reads this
    {
      Tables(users, circles, members, folders, files)
    }

    /** Every key was handed out by its table's counter, which starts at 1. */
    ghost predicate IdsAllocated()
      reads this
    {
      && (forall k :: k in users ==> 0 < k < nextUserId)
      && (forall k :: k in circles ==> 0 < k < nextCircleId)
      && (forall k :: k in members ==> 0 < k < nextMemberId)
      && (forall k :: k in folders ==> 0 < k < nextFolderId)
      && (forall k :: k in files ==> 0 < k < nextFileId)
      && (forall k :: k in orders ==> 0 < k < nextOrderId)
      && nextUserId > 0 && nextCircleId > 0 && nextMemberId > 0
      && nextFolderId > 0 && nextFileId > 0 && nextOrderId > 0
    }

    ghost predicate Valid()
      reads this
    {
      IdsAllocated() && Integrity(Snapshot())
    }

    constructor ()
      ensures Valid()
      ensures Snapshot() == Tables(map[], map[], map[], map[], map[])
      ensures orders == map[] && transactionCounts == map[]
    {
      users, circles, members, folders, files := map[], map[], map[], map[], map[];
      orders, transactionCounts := map[], map[];
      nextUserId, nextCircleId, nextMemberId, nextFolderId, nextFileId, nextOrderId := 1, 1, 1, 1, 1, 1;
    }

    // ---------------------------------------------------------------- lookups

    /** getCircleMember(circleId, userId): some row of the pair, or undefined when there is none. */
    method GetCircleMember(circleId: int, userId: int) returns (r: Option<CircleMember>)
      ensures r.None? <==> !IsMember(members, circleId, userId)
      ensures r.Some? ==> r.value.circleId == circleId && r.value.userId == userId
      ensures r.Some? ==> exists m :: m in members && members[m] == r.value
    {
      if m :| m in members && members[m].circleId == circleId && members[m].userId == userId {
        r := Some(members[m]);
      } else {
        r := None;
      }
    }

    /** getCircleByInvitationCode(code): the circle whose code equals `code` exactly. */
    method GetCircleByInvitationCode(code: string) returns (r: Option<int>)
      ensures r.None? <==> !CodeTaken(circles, Some(code))
      ensures r.Some? ==> r.value in circles && circles[r.value].invitationCode == Some(code)
    {
      if c :| c in circles && circles[c].invitationCode == Some(code) {
        r := Some(c);
      } else {
        r := None;
      }
    }

    /** getUserByOpenId(openId). */
    method GetUserByOpenId(openId: string) returns (r: Option<int>)
      ensures r.None? <==> forall k :: k in users ==> users[k].openId != openId
      ensures r.Some? ==> r.value in users && users[r.value].openId == openId
    {
      if k :| k in users && users[k].openId == openId {
        r := Some(k);
      } else {
        r := None;
      }
    }

    // -------------------------------------------------------------- mutations

    /** createCircle: fails on a missing creator or a repeated invitation code. */
    method CreateCircle(data: Circle) returns (r: Result<int>)
      requires IdsAllocated()
      modifies this`circles, this`nextCircleId
      ensures IdsAllocated()
      ensures r.Ok? <==> data.creatorId in users && !CodeTaken(old(circles), data.invitationCode)
      ensures r.Ok? ==> r.value == old(nextCircleId) && circles == old(circles)[r.value := data]
                        && nextCircleId == old(nextCircleId) + 1
      ensures r.Err? ==> r.error.code == InternalServerError && circles == old(circles) && nextCircleId == old(nextCircleId)
    {
      if data.creatorId !in users {
        return Err(Error(InternalServerError, "foreign key constraint fails"));
      }
      if data.invitationCode.Some? {
        var holder := GetCircleByInvitationCode(data.invitationCode.value);
        if holder.Some? {
          return Err(Error(InternalServerError, "duplicate entry for invitationCode"));
        }
      }
      var id := nextCircleId;
      circles := circles[id := data];
      nextCircleId := nextCircleId + 1;
      r := Ok(id);
    }

    /** addCircleMember: fails only on a missing circle or user; duplicates are accepted. */
    method AddCircleMember(data: CircleMember) returns (r: Result<int>)
      requires IdsAllocated()
      modifies this`members, this`nextMemberId
      ensures IdsAllocated()
      ensures r.Ok? <==> data.circleId in circles && data.userId in users
      ensures r.Ok? ==> r.value == old(nextMemberId) && members == old(members)[r.value := data]
                        && nextMemberId == old(nextMemberId) + 1
      ensures r.Err? ==> r.error.code == InternalServerError && members == old(members) && nextMemberId == old(nextMemberId)
    {
      if data.circleId !in circles || data.userId !in users {
        return Err(Error(InternalServerError, "foreign key constraint fails"));
      }
      var id := nextMemberId;
      members := members[id := data];
      nextMemberId := nextMemberId + 1;
      r := Ok(id);
    }

    /** removeCircleMember: deletes the rows matching both circleId and userId. */
    method RemoveCircleMember(circleId: int, userId: int)
      requires IdsAllocated()
      modifies this`members
      ensures IdsAllocated()
      ensures members == WithoutMembership(old(members), circleId, userId)
    {
      members := WithoutMembership(members, circleId, userId);
    }

    /** updateCircle: sets the given columns of the circle; a missing circle matches no row. */
    method UpdateCircle(circleId: int, name: Option<string>, description: Option<Option<string>>)
      requires IdsAllocated()
      modifies this`circles
      ensures IdsAllocated()
      ensures circleId !in old(circles) ==> circles == old(circles)
      ensures circleId in old(circles) ==>
        var c := old(circles)[circleId];
        circles == old(circles)[circleId := c.(
          name := if name.Some? then name.value else c.name,
          description := if description.Some? then description.value else c.description)]
    {
      if circleId in circles {
        var c := circles[circleId];
        if name.Some? { c := c.(name := name.value); }
        if description.Some? { c := c.(description := description.value); }
        circles := circles[circleId := c];
      }
    }

    /** deleteCircle: the database applies the schema's cascades. */
    method DeleteCircle(circleId: int)
      requires IdsAllocated()
      modifies this`circles, this`members, this`folders, this`files
      ensures IdsAllocated()
      ensures Snapshot() == Schema.DeleteCircle(old(Snapshot()), circleId)
    {
      var t := Schema.DeleteCircle(Snapshot(), circleId);
      circles, members, folders, files := t.circles, t.members, t.folders, t.files;
    }

    /** createFile: fails when the circle, the uploader or the folder is missing. */
    method CreateFile(data: File) returns (r: Result<int>)
      requires IdsAllocated()
      modifies this`files, this`nextFileId
      ensures IdsAllocated()
      ensures r.Ok? <==> data.circleId in circles && data.uploaderId in users
                         && (data.folderId.Some? ==> data.folderId.value in folders)
      ensures r.Ok? ==> r.value == old(nextFileId) && files == old(files)[r.value := data]
                        && nextFileId == old(nextFileId) + 1
      ensures r.Err? ==> r.error.code == InternalServerError && files == old(files) && nextFileId == old(nextFileId)
    {
      if data.circleId !in circles || data.uploaderId !in users
         || (data.folderId.Some? && data.folderId.value !in folders) {
        return Err(Error(InternalServerError, "foreign key constraint fails"));
      }
      var id := nextFileId;
      files := files[id := data];
      nextFileId := nextFileId + 1;
      r := Ok(id);
    }

    /** deleteFile: removes that file row. */
    method DeleteFile(fileId: int)
      requires IdsAllocated()
      modifies this`files
      ensures IdsAllocated()
      ensures files == old(files) - {fileId}
    {
      files := files - {fileId};
    }

    /** createFolder: fails when the circle or the creator is missing. */
    method CreateFolder(data: Folder) returns (r: Result<int>)
      requires IdsAllocated()
      modifies this`folders, this`nextFolderId
      ensures IdsAllocated()
      ensures r.Ok? <==> data.circleId in circles && data.createdBy in users
      ensures r.Ok? ==> r.value == old(nextFolderId) && folders == old(folders)[r.value := data]
                        && nextFolderId == old(nextFolderId) + 1
      ensures r.Err? ==> r.error.code == InternalServerError && folders == old(folders) && nextFolderId == old(nextFolderId)
    {
      if data.circleId !in circles || data.createdBy !in users {
        return Err(Error(InternalServerError, "foreign key constraint fails"));
      }
      var id := nextFolderId;
      folders := folders[id := data];
      nextFolderId := nextFolderId + 1;
      r := Ok(id);
    }

    /** updateFolder(folderId, { name }). */
    method UpdateFolderName(folderId: int, name: string)
      requires IdsAllocated()
      modifies this`folders
      ensures IdsAllocated()
      ensures folderId !in old(folders) ==> folders == old(folders)
      ensures folderId in old(folders) ==> folders == old(folders)[folderId := old(folders)[folderId].(name := name)]
    {
      if folderId in folders {
        folders := folders[folderId := folders[folderId].(name := name)];
      }
    }

    /** deleteFolder: first sets folderId to null on the folder's files, then deletes the folder. */
    method DeleteFolder(folderId: int)
      requires IdsAllocated()
      modifies this`files, this`folders
      ensures IdsAllocated()
      ensures files == DetachFolders(old(files), {folderId})
      ensures folders == old(folders) - {folderId}
    {
      files := map x | x in files :: if files[x].folderId == Some(folderId) then files[x].(folderId := None) else files[x];
      folders := folders - {folderId};
    }

    /** getPaymentOrder(id): the order whose key is `id`. */
    method GetPaymentOrder(id: int) returns (r: Option<PaymentOrder>)
      ensures r == if id in orders then Some(orders[id]) else None
    {
      r := if id in orders then Some(orders[id]) else None;
    }

    /** createPaymentOrder. */
    method CreatePaymentOrder(data: PaymentOrder) returns (id: int)
      requires IdsAllocated()
      modifies this`orders, this`nextOrderId
      ensures IdsAllocated()
      ensures id == old(nextOrderId) && orders == old(orders)[id := data] && nextOrderId == old(nextOrderId) + 1
    {
      id := nextOrderId;
      orders := orders[id := data];
      nextOrderId := nextOrderId + 1;
    }

    /** updatePaymentOrder(id, { status, transactionId }); a missing order matches no row. */
    method UpdatePaymentOrder(id: int, status: OrderStatus, transactionId: string)
      requires IdsAllocated()
      modifies this`orders
      ensures IdsAllocated()
      ensures id !in old(orders) ==> orders == old(orders)
      ensures id in old(orders) ==>
        orders == old(orders)[id := old(orders)[id].(status := status, transactionId := Some(transactionId))]
    {
      if id in orders {
        orders := orders[id := orders[id].(status := status, transactionId := Some(transactionId))];
      }
    }

    /** createOrUpdatePlatformEarnings(month, { transactionCount }). */
    method SetTransactionCount(month: string, count: int)
      modifies this`transactionCounts
      ensures transactionCounts == old(transactionCounts)[month := count]
    {
      transactionCounts := transactionCounts[month := count];
    }

    /**
     * upsertUser: throws without an openId; otherwise inserts the row or, when
     * the openId is taken, updates it with `updateSet`, and returns the row.
     */
    method UpsertUser(user: InsertUser, ownerOpenId: string, now: int) returns (r: Result<User>)
      requires Valid()
      modifies this`users, this`nextUserId
      ensures Valid()
      ensures user.openId == "" ==> r.Err? && users == old(users) && nextUserId == old(nextUserId)
      ensures user.openId != "" && (forall k :: k in old(users) ==> old(users)[k].openId != user.openId) ==>
        var row := UpsertRow(None, user, ownerOpenId, now);
        r == Ok(row) && users == old(users)[old(nextUserId) := row] && nextUserId == old(nextUserId) + 1
      ensures forall k :: k in old(users) && old(users)[k].openId == user.openId && user.openId != "" ==>
        var row := UpsertRow(Some(old(users)[k]), user, ownerOpenId, now);
        r == Ok(row) && users == old(users)[k := row] && nextUserId == old(nextUserId)
    {
      if user.openId == "" {
        return Err(Error(InternalServerError, "User openId is required for upsert"));
      }
      var values, updateSet := PrepareUpsert(user, ownerOpenId, now);
      var existing := GetUserByOpenId(user.openId);
      ghost var t := Snapshot();
      assert Integrity(t);
      if existing.None? {
        var id := nextUserId;
        var row := InsertedRow(user.openId, values, now);
        assert id !in users;
        UpsertKeepsIntegrity(t, id, row);
        users := users[id := row];
        nextUserId := nextUserId + 1;
        assert Snapshot() == t.(users := t.users[id := row]);
        assert IdsAllocated();
        r := Ok(row);
      } else {
        var id := existing.value;
        var row := UpdatedRow(users[id], updateSet);
        assert OpenIdsUnique(t.users);
        assert forall k :: k in users && users[k].openId == user.openId ==> k == id;
        UpsertKeepsIntegrity(t, id, row);
        users := users[id := row];
        assert Snapshot() == t.(users := t.users[id := row]);
        assert IdsAllocated();
        r := Ok(row);
      }
    }
  }
}
