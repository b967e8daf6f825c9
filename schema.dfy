/**
 * The relational schema: one row datatype per table, the enums and their
 * defaults, and the ON DELETE rules of the foreign keys. Every table is a map
 * from the row's auto-increment primary key to the rest of the row.
 */
module Schema {
  import opened Errors

  /** users.role: "user" | "admin". */
  datatype UserRole = RegularUser | Admin
  /** circle_members.role: "owner" | "member". */
  datatype MemberRole = Owner | Member
  /** files.fileType: "video" | "audio" | "image". */
  datatype FileType = Video | Audio | Image

  /** users.role defaults to "user" when upsertUser writes no role. */
  const DefaultUserRole: UserRole := RegularUser

  /** users; openId is unique. The createdAt/updatedAt clocks are not kept. */
  datatype User = User(
    openId: string,
    name: Option<string>,
    email: Option<string>,
    loginMethod: Option<string>,
    role: UserRole,
    lastSignedIn: int)

  /** circles; invitationCode is unique but nullable, isPublic is a tinyint. */
  datatype Circle = Circle(
    name: string,
    description: Option<string>,
    creatorId: int,
    isPublic: int,
    invitationCode: Option<string>)

  /** circle_members; (circleId, userId) carries a plain, non-unique index. */
  datatype CircleMember = CircleMember(circleId: int, userId: int, role: MemberRole)

  datatype Folder = Folder(circleId: int, name: string, description: Option<string>, createdBy: int)

  /**
   * files; folderId is nullable, circleId is required. isPaid and price are
   * columns that payment.createOrder reads (server/routers.ts:630) and
   * drizzle/schema.ts does not declare.
   */
  datatype File = File(
    circleId: int,
    folderId: Option<int>,
    uploaderId: int,
    filename: string,
    fileKey: string,
    fileUrl: string,
    mimeType: string,
    fileSize: int,
    fileType: FileType,
    isPaid: int,
    price: Option<string>)

  datatype OrderStatus = Pending | Completed
  datatype PaymentMethod = WeChat | Alipay

  /** payment_orders, restricted to the columns the status transition reads and writes. */
  datatype PaymentOrder = PaymentOrder(
    fileId: int,
    buyerId: int,
    sellerId: int,
    paymentMethod: PaymentMethod,
    status: OrderStatus,
    transactionId: Option<string>)

  /** The five tables of the membership model. */
  datatype Tables = Tables(
    users: map<int, User>,
    circles: map<int, Circle>,
    members: map<int, CircleMember>,
    folders: map<int, Folder>,
    files: map<int, File>)

  /** A file whose folderId points into the set of folders `gone`. */
  predicate InFolders(f: File, gone: set<int>) {
    f.folderId.Some? && f.folderId.value in gone
  }

  /**
   * ON DELETE SET NULL on files.folderId: every file that referenced one of the
   * deleted folders keeps its row and loses only its folder.
   */
  function DetachFolders(files: map<int, File>, gone: set<int>): (r: map<int, File>)
    ensures r.Keys == files.Keys
    ensures forall x :: x in r ==> !InFolders(r[x], gone)
    ensures forall x :: x in r ==> r[x] == files[x].(folderId := r[x].folderId)
    ensures forall x :: x in files && InFolders(files[x], gone) ==> r[x] == files[x].(folderId := None)
    ensures forall x :: x in files && !InFolders(files[x], gone) ==> r[x] == files[x]
  {
    map x | x in files :: if InFolders(files[x], gone) then files[x].(folderId := None) else files[x]
  }

  /** The folders of circle `c`. */
  function FoldersIn(folders: map<int, Folder>, c: int): set<int> {
    set f | f in folders && folders[f].circleId == c
  }

  /**
   * Deleting circle `c`: ON DELETE CASCADE removes its members, folders and
   * files; files of other circles that were filed in one of its folders are
   * detached by the SET NULL rule. Users are untouched.
   */
  function DeleteCircle(t: Tables, c: int): (r: Tables)
    ensures r.users == t.users
    ensures r.circles.Keys == t.circles.Keys - {c}
    ensures forall k :: k in r.circles ==> r.circles[k] == t.circles[k]
    ensures forall m :: m in r.members <==> m in t.members && t.members[m].circleId != c
    ensures forall m :: m in r.members ==> r.members[m] == t.members[m]
    ensures forall f :: f in r.folders <==> f in t.folders && t.folders[f].circleId != c
    ensures forall f :: f in r.folders ==> r.folders[f] == t.folders[f]
    ensures forall x :: x in r.files <==> x in t.files && t.files[x].circleId != c
    ensures forall x :: x in r.files ==>
      r.files[x] == if InFolders(t.files[x], FoldersIn(t.folders, c)) then t.files[x].(folderId := None) else t.files[x]
  {
    Tables(
      t.users,
      t.circles - {c},
      map m | m in t.members && t.members[m].circleId != c :: t.members[m],
      map f | f in t.folders && t.folders[f].circleId != c :: t.folders[f],
      DetachFolders(map x | x in t.files && t.files[x].circleId != c :: t.files[x], FoldersIn(t.folders, c)))
  }

  /** The circles user `u` created. */
  function CirclesCreatedBy(circles: map<int, Circle>, u: int): set<int> {
    set c | c in circles && circles[c].creatorId == u
  }

  /** The folders deleted with user `u`: those they created and those of the circles they created. */
  function FoldersGoneWith(t: Tables, u: int): set<int> {
    set f | f in t.folders && (t.folders[f].createdBy == u || t.folders[f].circleId in CirclesCreatedBy(t.circles, u))
  }

  /**
   * Deleting user `u`: ON DELETE CASCADE removes the circles they created (and,
   * through those, the circles' members, folders and files), their memberships,
   * the folders they created and the files they uploaded; surviving files that
   * were filed in a deleted folder are detached.
   */
  function DeleteUser(t: Tables, u: int): (r: Tables)
    ensures r.users.Keys == t.users.Keys - {u}
    ensures forall k :: k in r.users ==> r.users[k] == t.users[k]
    ensures forall c :: c in r.circles <==> c in t.circles && t.circles[c].creatorId != u
    ensures forall c :: c in r.circles ==> r.circles[c] == t.circles[c]
    ensures forall m :: m in r.members <==>
      m in t.members && t.members[m].userId != u && t.members[m].circleId !in CirclesCreatedBy(t.circles, u)
    ensures forall m :: m in r.members ==> r.members[m] == t.members[m]
    ensures forall f :: f in r.folders <==> f in t.folders && f !in FoldersGoneWith(t, u)
    ensures forall f :: f in r.folders ==> r.folders[f] == t.folders[f]
    ensures forall x :: x in r.files <==>
      x in t.files && t.files[x].uploaderId != u && t.files[x].circleId !in CirclesCreatedBy(t.circles, u)
    ensures forall x :: x in r.files ==>
      r.files[x] == if InFolders(t.files[x], FoldersGoneWith(t, u)) then t.files[x].(folderId := None) else t.files[x]
  {
    var goneCircles := CirclesCreatedBy(t.circles, u);
    Tables(
      t.users - {u},
      map c | c in t.circles && c !in goneCircles :: t.circles[c],
      map m | m in t.members && t.members[m].userId != u && t.members[m].circleId !in goneCircles :: t.members[m],
      map f | f in t.folders && f !in FoldersGoneWith(t, u) :: t.folders[f],
      DetachFolders(
        map x | x in t.files && t.files[x].uploaderId != u && t.files[x].circleId !in goneCircles :: t.files[x],
        FoldersGoneWith(t, u)))
  }
}
