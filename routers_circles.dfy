/**
 * The circles router. Every handler takes the store and the id of the signed-in
 * caller (a protected procedure only runs for a user in the users table),
 * answers with a value or a tRPC error, and keeps the store's integrity: in
 * particular no handler adds a second owner row or removes an owner row.
 */
module CirclesRouter {
  import opened Errors
  import opened Schema
  import opened Helpers
  import opened Invariants
  import opened Db

  /** The circle `create` inserts: a private circle carries a code built from `draws`. */
  function NewCircle(name: string, description: Option<string>, creatorId: int, isPublic: bool, draws: seq<real>): (c: Circle)
    requires !isPublic ==> |draws| == CodeLength && forall i :: 0 <= i < |draws| ==> IsRandomDraw(draws[i])
    ensures VisibilityOk(c)
    ensures c.isPublic == (if isPublic then 1 else 0)
    ensures isPublic <==> c.invitationCode.None?
    ensures c.invitationCode.Some? ==> IsInvitationCode(c.invitationCode.value)
    ensures c.name == name && c.creatorId == creatorId && c.description == NullIfEmpty(description)
  {
    Circle(name, NullIfEmpty(description), creatorId, if isPublic then 1 else 0,
           if isPublic then None else Some(GenerateInvitationCode(draws)))
  }

  /**
   * circles.create: inserts the circle, then the creator's "owner" row. An
   * omitted isPublic makes a public circle. The insert fails only when the
   * drawn code is already held by another circle.
   */
  method Create(db: Store, caller: int, name: string, description: Option<string>, isPublic: Option<bool>, draws: seq<real>)
    returns (r: Result<int>)
    requires db.Valid() && caller in db.users
    requires !PublicOrDefault(isPublic) ==> |draws| == CodeLength && forall i :: 0 <= i < |draws| ==> IsRandomDraw(draws[i])
    modifies db`circles, db`nextCircleId, db`members, db`nextMemberId
    ensures db.Valid()
    ensures !NameInRange(name) ==> r == Err(InvalidInput)
    ensures r.Ok? <==> NameInRange(name) && !CodeTaken(old(db.circles), NewCircle(name, description, caller, PublicOrDefault(isPublic), draws).invitationCode)
    ensures NameInRange(name) && r.Err? ==> r.error.code == InternalServerError
    ensures r.Ok? ==>
      && r.value == old(db.nextCircleId)
      && db.circles == old(db.circles)[r.value := NewCircle(name, description, caller, PublicOrDefault(isPublic), draws)]
      && db.members == old(db.members)[old(db.nextMemberId) := CircleMember(r.value, caller, Owner)]
      && IsOwnerOf(db.members, r.value, caller)
    ensures r.Err? ==> db.circles == old(db.circles) && db.members == old(db.members)
  {
    if !NameInRange(name) {
      return Err(InvalidInput);
    }
    ghost var t := db.Snapshot();
    var circle := NewCircle(name, description, caller, PublicOrDefault(isPublic), draws);
    var created := db.CreateCircle(circle);
    if created.Err? {
      return Err(created.error);
    }
    var circleId := created.value;
    ghost var mid := db.nextMemberId;
    var added := db.AddCircleMember(CircleMember(circleId, caller, Owner));
    assert added.Ok?;
    CreateKeepsIntegrity(t, circleId, circle, mid);
    assert db.Snapshot() == t.(circles := t.circles[circleId := circle],
                               members := t.members[mid := CircleMember(circleId, caller, Owner)]);
    assert IsMemberRow(db.members, circleId, caller, mid);
    r := Ok(circleId);
  }

  /** circles.list: the caller's circles, each with the caller's role in it. */
  method List(db: Store, caller: int) returns (r: set<CircleListing>)
    requires db.Valid()
    ensures forall c :: (exists l :: l in r && l.id == c) <==> IsMember(db.members, c, caller)
    ensures forall l :: l in r ==>
      && l.id in db.circles && l.circle == db.circles[l.id]
      && l.memberCount == MemberCount(db.members, l.id) && l.memberCount >= 1
      && (l.role == Owner <==> caller == l.circle.creatorId)
  {
    r := CirclesByUserId(db.Snapshot(), caller);
    forall c ensures (exists l :: l in r && l.id == c) <==> IsMember(db.members, c, caller) {
      ListedIffMember(db.Snapshot(), caller, c);
    }
    forall l | l in r ensures l.memberCount >= 1 && (l.role == Owner <==> caller == l.circle.creatorId) {
      MemberCountPositive(db.Snapshot(), l.id);
      var m :| m in db.members && IsMemberRow(db.members, l.id, caller, m) && db.members[m].role == l.role;
      FoundRowDecidesOwnership(db.members, l.id, caller, db.members[m]);
      OwnerIsCreator(db.Snapshot(), l.id, caller);
    }
  }

  /** circles.listPublic: the public circles, none of which carries a code. */
  method ListPublic(db: Store) returns (r: set<PublicListing>)
    requires db.Valid()
    ensures forall c :: c in db.circles && db.circles[c].isPublic == 1 ==> exists l :: l in r && l.id == c
    ensures forall l :: l in r ==>
      && l.id in db.circles && l.circle == db.circles[l.id] && l.circle.isPublic == 1 && l.circle.invitationCode.None?
      && l.memberCount == MemberCount(db.members, l.id) && l.memberCount >= 1
  {
    r := PublicCircles(db.Snapshot());
    PublicCirclesHaveNoCode(db.Snapshot());
    forall l | l in r ensures l.memberCount >= 1 {
      MemberCountPositive(db.Snapshot(), l.id);
    }
    forall c | c in db.circles && db.circles[c].isPublic == 1 ensures exists l :: l in r && l.id == c {
      assert PublicListing(c, db.circles[c], MemberCount(db.members, c)) in r;
    }
  }

  /** circles.searchByInvitationCode: the private circle holding exactly `code`. */
  method SearchByInvitationCode(db: Store, code: string) returns (r: Result<(int, Circle)>)
    requires db.Valid()
    ensures !CodeInRange(code) ==> r == Err(InvalidInput)
    ensures CodeInRange(code) && !CodeTaken(db.circles, Some(code)) ==> r == Err(Error(NotFound, "Invalid invitation code"))
    ensures r.Ok? <==> CodeInRange(code) && CodeTaken(db.circles, Some(code))
    ensures r.Ok? ==>
      && r.value.0 in db.circles && r.value.1 == db.circles[r.value.0]
      && r.value.1.invitationCode == Some(code) && r.value.1.isPublic == 0
  {
    if !CodeInRange(code) {
      return Err(InvalidInput);
    }
    var found := db.GetCircleByInvitationCode(code);
    if found.None? {
      return Err(Error(NotFound, "Invalid invitation code"));
    }
    CodeHolderIsPrivate(db.circles, found.value);
    r := Ok((found.value, db.circles[found.value]));
  }

  /** circles.joinByInvitationCode: the caller joins the circle the code names, as a "member". */
  method JoinByInvitationCode(db: Store, caller: int, code: string) returns (r: Result<int>)
    requires db.Valid() && caller in db.users
    modifies db`members, db`nextMemberId
    ensures db.Valid()
    ensures !CodeInRange(code) ==> r == Err(InvalidInput)
    ensures CodeInRange(code) && !CodeTaken(db.circles, Some(code)) ==> r == Err(Error(NotFound, "Invalid invitation code"))
    ensures forall c :: CodeInRange(code) && c in db.circles && db.circles[c].invitationCode == Some(code) ==>
      if IsMember(old(db.members), c, caller) then r == Err(Error(BadRequest, "Already a member of this circle"))
      else r == Ok(c) && db.members == old(db.members)[old(db.nextMemberId) := CircleMember(c, caller, Member)]
    ensures r.Err? ==> db.members == old(db.members)
  {
    if !CodeInRange(code) {
      return Err(InvalidInput);
    }
    var found := db.GetCircleByInvitationCode(code);
    if found.None? {
      return Err(Error(NotFound, "Invalid invitation code"));
    }
    var circleId := found.value;
    assert forall c :: c in db.circles && db.circles[c].invitationCode == Some(code) ==> c == circleId;
    var existing := db.GetCircleMember(circleId, caller);
    if existing.Some? {
      return Err(Error(BadRequest, "Already a member of this circle"));
    }
    ghost var t := db.Snapshot();
    ghost var mid := db.nextMemberId;
    var added := db.AddCircleMember(CircleMember(circleId, caller, Member));
    assert added.Ok?;
    JoinKeepsIntegrity(t, circleId, caller, mid);
    assert db.Snapshot() == t.(members := t.members[mid := CircleMember(circleId, caller, Member)]);
    r := Ok(circleId);
  }

  /** What circles.get returns: the circle, its members and files, and the caller's role. */
  datatype CircleView = CircleView(circle: Circle, members: map<int, CircleMember>, files: map<int, File>, userRole: MemberRole)

  /** circles.get: only members see a circle; the caller's role is "owner" exactly for its creator. */
  method Get(db: Store, caller: int, circleId: int) returns (r: Result<CircleView>)
    requires db.Valid() && caller in db.users
    ensures circleId !in db.circles ==> r == Err(Error(NotFound, "Circle not found"))
    ensures circleId in db.circles && !IsMember(db.members, circleId, caller) ==>
      r == Err(Error(Forbidden, "You are not a member of this circle"))
    ensures r.Ok? <==> circleId in db.circles && IsMember(db.members, circleId, caller)
    ensures r.Ok? ==>
      && r.value.circle == db.circles[circleId]
      && r.value.members == MembersOf(db.members, circleId)
      && r.value.files == FilesOf(db.files, circleId)
      && (r.value.userRole == Owner <==> caller == db.circles[circleId].creatorId)
  {
    if circleId !in db.circles {
      return Err(Error(NotFound, "Circle not found"));
    }
    var member := db.GetCircleMember(circleId, caller);
    if member.None? {
      return Err(Error(Forbidden, "You are not a member of this circle"));
    }
    FoundRowDecidesOwnership(db.members, circleId, caller, member.value);
    OwnerIsCreator(db.Snapshot(), circleId, caller);
    r := Ok(CircleView(db.circles[circleId], MembersOf(db.members, circleId), FilesOf(db.files, circleId), member.value.role));
  }

  /**
   * The owner gate of update, delete, addMember and removeMember: the row
   * found for the caller exists and has role "owner".
   */
  method CheckOwner(db: Store, caller: int, circleId: int) returns (isOwner: bool)
    requires db.Valid()
    ensures isOwner <==> IsOwnerOf(db.members, circleId, caller)
    ensures isOwner ==> circleId in db.circles && caller == db.circles[circleId].creatorId
  {
    var member := db.GetCircleMember(circleId, caller);
    if member.None? {
      return false;
    }
    FoundRowDecidesOwnership(db.members, circleId, caller, member.value);
    OwnerIsCreator(db.Snapshot(), circleId, caller);
    isOwner := member.value.role == Owner;
  }

  /** circles.update: the owner sets the given name and description; an empty description becomes null. */
  method Update(db: Store, caller: int, circleId: int, name: Option<string>, description: Option<string>)
    returns (r: Result<Success>)
    requires db.Valid() && caller in db.users
    modifies db`circles
    ensures db.Valid()
    ensures name.Some? && !NameInRange(name.value) ==> r == Err(InvalidInput)
    ensures (name.Some? ==> NameInRange(name.value)) && !IsOwnerOf(db.members, circleId, caller) ==>
      r == Err(Error(Forbidden, "Only circle owner can update"))
    ensures r.Ok? <==> (name.Some? ==> NameInRange(name.value)) && IsOwnerOf(db.members, circleId, caller)
    ensures r.Err? ==> db.circles == old(db.circles)
    ensures r.Ok? ==> circleId in old(db.circles)
    ensures r.Ok? ==> (
      var c := old(db.circles)[circleId];
      db.circles == old(db.circles)[circleId := c.(
        name := if name.Some? then name.value else c.name,
        description := if description.Some? then NullIfEmpty(description) else c.description)])
  {
    if name.Some? && !NameInRange(name.value) {
      return Err(InvalidInput);
    }
    var isOwner := CheckOwner(db, caller, circleId);
    if !isOwner {
      return Err(Error(Forbidden, "Only circle owner can update"));
    }
    ghost var t := db.Snapshot();
    db.UpdateCircle(circleId, name, if description.Some? then Some(NullIfEmpty(description)) else None);
    UpdateCircleKeepsIntegrity(t, circleId, db.circles[circleId]);
    assert db.Snapshot() == t.(circles := t.circles[circleId := db.circles[circleId]]);
    r := Ok(Success);
  }

  /** circles.delete: the owner deletes the circle, and the schema's cascades follow. */
  method Delete(db: Store, caller: int, circleId: int) returns (r: Result<Success>)
    requires db.Valid() && caller in db.users
    modifies db`circles, db`members, db`folders, db`files
    ensures db.Valid()
    ensures !IsOwnerOf(old(db.members), circleId, caller) ==>
      r == Err(Error(Forbidden, "Only circle owner can delete")) && db.Snapshot() == old(db.Snapshot())
    ensures r.Ok? <==> IsOwnerOf(old(db.members), circleId, caller)
    ensures r.Ok? ==> db.Snapshot() == Schema.DeleteCircle(old(db.Snapshot()), circleId)
  {
    var isOwner := CheckOwner(db, caller, circleId);
    if !isOwner {
      return Err(Error(Forbidden, "Only circle owner can delete"));
    }
    DeleteCircleKeepsIntegrity(db.Snapshot(), circleId);
    db.DeleteCircle(circleId);
    r := Ok(Success);
  }

  /** circles.addMember: never succeeds; the owner is told to use the join link. */
  method AddMember(db: Store, caller: int, circleId: int, userEmail: string) returns (r: Result<Success>)
    requires db.Valid()
    ensures r.Err?
    ensures r.error == if IsOwnerOf(db.members, circleId, caller)
      then Error(NotImplemented, "User lookup by email not yet implemented. Use join link instead.")
      else Error(Forbidden, "Only circle owner can add members")
  {
    var isOwner := CheckOwner(db, caller, circleId);
    if !isOwner {
      return Err(Error(Forbidden, "Only circle owner can add members"));
    }
    r := Err(Error(NotImplemented, "User lookup by email not yet implemented. Use join link instead."));
  }

  /** circles.join: the caller joins a circle by id, as a "member". */
  method Join(db: Store, caller: int, circleId: int) returns (r: Result<Success>)
    requires db.Valid() && caller in db.users
    modifies db`members, db`nextMemberId
    ensures db.Valid()
    ensures circleId !in db.circles ==> r == Err(Error(NotFound, "Circle not found"))
    ensures circleId in db.circles && IsMember(old(db.members), circleId, caller) ==>
      r == Err(Error(BadRequest, "Already a member"))
    ensures r.Ok? <==> circleId in db.circles && !IsMember(old(db.members), circleId, caller)
    ensures r.Ok? ==> db.members == old(db.members)[old(db.nextMemberId) := CircleMember(circleId, caller, Member)]
    ensures r.Err? ==> db.members == old(db.members)
  {
    if circleId !in db.circles {
      return Err(Error(NotFound, "Circle not found"));
    }
    var existing := db.GetCircleMember(circleId, caller);
    if existing.Some? {
      return Err(Error(BadRequest, "Already a member"));
    }
    ghost var t := db.Snapshot();
    ghost var mid := db.nextMemberId;
    var added := db.AddCircleMember(CircleMember(circleId, caller, Member));
    assert added.Ok?;
    JoinKeepsIntegrity(t, circleId, caller, mid);
    assert db.Snapshot() == t.(members := t.members[mid := CircleMember(circleId, caller, Member)]);
    r := Ok(Success);
  }

  /** Removes the membership of `userId`, whose row has role "member", keeping integrity. */
  method RemoveMembership(db: Store, circleId: int, userId: int, ghost row: CircleMember)
    requires db.Valid()
    requires row.circleId == circleId && row.userId == userId && row.role == Member
    requires exists m :: m in db.members && db.members[m] == row
    modifies db`members
    ensures db.Valid()
    ensures db.members == WithoutMembership(old(db.members), circleId, userId)
  {
    ghost var t := db.Snapshot();
    ghost var m :| m in db.members && db.members[m] == row;
    assert IsMemberRow(t.members, circleId, userId, m) && t.members[m].role == Member;
    RemoveMemberKeepsIntegrity(t, circleId, userId);
    db.RemoveCircleMember(circleId, userId);
    assert db.Snapshot() == t.(members := WithoutMembership(t.members, circleId, userId));
  }

  /** circles.leave: a member other than the owner leaves; only the caller's row goes. */
  method Leave(db: Store, caller: int, circleId: int) returns (r: Result<Success>)
    requires db.Valid() && caller in db.users
    modifies db`members
    ensures db.Valid()
    ensures !IsMember(old(db.members), circleId, caller) ==> r == Err(Error(NotFound, "Not a member"))
    ensures IsOwnerOf(old(db.members), circleId, caller) ==>
      r == Err(Error(BadRequest, "Owner cannot leave. Delete the circle instead."))
    ensures r.Ok? <==> IsMember(old(db.members), circleId, caller) && !IsOwnerOf(old(db.members), circleId, caller)
    ensures r.Ok? ==> db.members == WithoutMembership(old(db.members), circleId, caller)
    ensures r.Err? ==> db.members == old(db.members)
  {
    var member := db.GetCircleMember(circleId, caller);
    if member.None? {
      return Err(Error(NotFound, "Not a member"));
    }
    FoundRowDecidesOwnership(db.members, circleId, caller, member.value);
    if member.value.role == Owner {
      return Err(Error(BadRequest, "Owner cannot leave. Delete the circle instead."));
    }
    RemoveMembership(db, circleId, caller, member.value);
    r := Ok(Success);
  }

  /** circles.removeMember: the owner removes a member; the owner's own row cannot go. */
  method RemoveMember(db: Store, caller: int, circleId: int, userId: int) returns (r: Result<Success>)
    requires db.Valid() && caller in db.users
    modifies db`members
    ensures db.Valid()
    ensures !IsOwnerOf(old(db.members), circleId, caller) ==>
      r == Err(Error(Forbidden, "Only circle owner can remove members"))
    ensures IsOwnerOf(old(db.members), circleId, caller) && !IsMember(old(db.members), circleId, userId) ==>
      r == Err(Error(NotFound, "Member not found"))
    ensures IsOwnerOf(old(db.members), circleId, caller) && IsOwnerOf(old(db.members), circleId, userId) ==>
      r == Err(Error(BadRequest, "Cannot remove owner"))
    ensures r.Ok? <==>
      && IsOwnerOf(old(db.members), circleId, caller)
      && IsMember(old(db.members), circleId, userId)
      && !IsOwnerOf(old(db.members), circleId, userId)
    ensures r.Ok? ==> db.members == WithoutMembership(old(db.members), circleId, userId)
    ensures r.Err? ==> db.members == old(db.members)
  {
    var isOwner := CheckOwner(db, caller, circleId);
    if !isOwner {
      return Err(Error(Forbidden, "Only circle owner can remove members"));
    }
    var target := db.GetCircleMember(circleId, userId);
    if target.None? {
      return Err(Error(NotFound, "Member not found"));
    }
    FoundRowDecidesOwnership(db.members, circleId, userId, target.value);
    if target.value.role == Owner {
      return Err(Error(BadRequest, "Cannot remove owner"));
    }
    RemoveMembership(db, circleId, userId, target.value);
    r := Ok(Success);
  }
}
