/**
 * The admin controller: the pending-registration list, approving a
 * registration (three fields set, then `save()`), rejecting one (the record
 * deleted) and the full user list.
 */
module Admin {
  import opened Options
  import opened Json
  import opened Http
  import ObjectIds
  import opened UserModel

  /** A registration waiting for an admin: `{ isApproved: false, isAdmin: false }`. */
  predicate IsPending(u: User) {
    !u.isApproved && !u.isAdmin
  }

  /** The documents matching `{ isApproved: false, isAdmin: false }`, in store order. */
  function PendingOf(docs: seq<User>): (r: seq<User>)
    ensures forall u :: u in r <==> u in docs && IsPending(u)
  {
    if |docs| == 0 then []
    else
      var rest := PendingOf(docs[1..]);
      assert forall u :: u in docs <==> u == docs[0] || u in docs[1..];
      if IsPending(docs[0]) then [docs[0]] + rest else rest
  }

  /** `sort({ createdAt: -1 })`: newest first. */
  predicate NewestFirst(us: seq<User>) {
    forall i, j :: 0 <= i < j < |us| ==> us[i].createdAt >= us[j].createdAt
  }

  /** Putting a user no newer than the head of a newest-first list in front keeps it newest first. */
  lemma ConsNewestFirst(x: User, rest: seq<User>)
    requires NewestFirst(rest)
    requires forall y :: y in rest ==> y.createdAt <= x.createdAt
    ensures NewestFirst([x] + rest)
  {
    var r := [x] + rest;
    forall i, j | 0 <= i < j < |r| ensures r[i].createdAt >= r[j].createdAt {
      if i == 0 {
        assert r[j] in rest;
      } else {
        assert r[i] == rest[i - 1] && r[j] == rest[j - 1];
      }
    }
  }

  function InsertByDate(u: User, us: seq<User>): (r: seq<User>)
    requires NewestFirst(us)
    ensures forall x :: x in r <==> x == u || x in us
    ensures NewestFirst(r)
    ensures multiset(r) == multiset(us) + multiset{u}
  {
    if |us| == 0 then [u]
    else if u.createdAt >= us[0].createdAt then
      ConsNewestFirst(u, us);
      [u] + us
    else
      TailOfNewestFirst(us);
      var rest := InsertByDate(u, us[1..]);
      ConsNewestFirst(us[0], rest);
      [us[0]] + rest
  }

  /** The tail of a newest-first list is newest first, and no member of it is newer than the head. */
  lemma TailOfNewestFirst(us: seq<User>)
    requires NewestFirst(us) && |us| > 0
    ensures NewestFirst(us[1..])
    ensures forall y :: y in us[1..] ==> y.createdAt <= us[0].createdAt
    ensures us == [us[0]] + us[1..]
  {
    forall y | y in us[1..] ensures y.createdAt <= us[0].createdAt {
      var j :| 0 <= j < |us[1..]| && us[1..][j] == y;
      assert us[j + 1] == y;
    }
  }

  /** The documents sorted newest first; documents created at the same time may come in any order. */
  function SortNewestFirst(us: seq<User>): (r: seq<User>)
    ensures NewestFirst(r)
    ensures multiset(r) == multiset(us)
  {
    if |us| == 0 then []
    else
      assert us == [us[0]] + us[1..];
      InsertByDate(us[0], SortNewestFirst(us[1..]))
  }

  /** A pending user as `select('-password -__v')` shows it. */
  function PendingView(u: User): (j: Json)
    ensures j.JObj? && "password" !in j.fields && "__v" !in j.fields
    ensures j.fields == ToObject(u) - {"password", "__v"}
  {
    JObj(ToObject(u) - {"password", "__v"})
  }

  /** Any user as `select('-password')` shows it. */
  function AdminView(u: User): (j: Json)
    ensures j.JObj? && "password" !in j.fields && "__v" in j.fields
    ensures j.fields == ToObject(u) - {"password"}
  {
    JObj(ToObject(u) - {"password"})
  }

  /** The users `getPendingUsers` lists, in the order it lists them. */
  function PendingUsers(docs: seq<User>): (r: seq<User>)
    ensures NewestFirst(r)
    ensures forall u :: u in r <==> u in docs && IsPending(u)
    ensures multiset(r) == multiset(PendingOf(docs))
  {
    var r := SortNewestFirst(PendingOf(docs));
    assert forall u :: u in r <==> u in multiset(PendingOf(docs));
    r
  }

  /** The reply of `getPendingUsers`. */
  function GetPendingUsers(docs: seq<User>): (r: Response)
    ensures r.status == 200 && r.body.JArr? && |r.body.items| == |PendingUsers(docs)|
    ensures forall i :: 0 <= i < |r.body.items| ==> r.body.items[i] == PendingView(PendingUsers(docs)[i])
  {
    var us := PendingUsers(docs);
    Response(200, JArr(seq(|us|, i requires 0 <= i < |us| => PendingView(us[i]))))
  }

  /**
   * Every pending user is listed, and every listed entry is a pending user
   * without password or version key.
   */
  lemma PendingListing(docs: seq<User>, u: User)
    ensures u in docs && IsPending(u) ==> PendingView(u) in GetPendingUsers(docs).body.items
    ensures forall j :: j in GetPendingUsers(docs).body.items ==>
      exists v :: v in docs && IsPending(v) && j == PendingView(v)
  {
    if u in docs && IsPending(u) {
      PendingListed(docs, u);
    }
    forall j | j in GetPendingUsers(docs).body.items ensures exists v :: v in docs && IsPending(v) && j == PendingView(v) {
      PendingEntry(docs, j);
    }
  }

  lemma PendingListed(docs: seq<User>, u: User)
    requires u in docs && IsPending(u)
    ensures PendingView(u) in GetPendingUsers(docs).body.items
  {
    var us := PendingUsers(docs);
    var i :| 0 <= i < |us| && us[i] == u;
    assert GetPendingUsers(docs).body.items[i] == PendingView(u);
  }

  lemma PendingEntry(docs: seq<User>, j: Json)
    requires j in GetPendingUsers(docs).body.items
    ensures exists v :: v in docs && IsPending(v) && j == PendingView(v)
  {
    var us := PendingUsers(docs);
    var items := GetPendingUsers(docs).body.items;
    var i :| 0 <= i < |items| && items[i] == j;
    var v := us[i];
    assert v in us;
    assert v in docs && IsPending(v) && j == PendingView(v);
  }

  /** The users `getAllUsers` lists, in the order it lists them: every stored user, newest first. */
  function AllUsers(docs: seq<User>): (r: seq<User>)
    ensures NewestFirst(r)
    ensures multiset(r) == multiset(docs)
    ensures |r| == |docs|
    ensures forall u :: u in r <==> u in docs
  {
    var r := SortNewestFirst(docs);
    assert |r| == |multiset(r)| == |docs|;
    assert forall u :: u in r <==> u in multiset(docs);
    r
  }

  /** The reply of `getAllUsers`. */
  function GetAllUsers(docs: seq<User>): (r: Response)
    ensures r.status == 200 && r.body.JArr? && |r.body.items| == |docs|
    ensures forall i :: 0 <= i < |r.body.items| ==> r.body.items[i] == AdminView(AllUsers(docs)[i])
  {
    var us := AllUsers(docs);
    Response(200, JArr(seq(|us|, i requires 0 <= i < |us| => AdminView(us[i]))))
  }

  /**
   * Every stored user is listed, and every listed entry is a stored user
   * without the password.
   */
  lemma AllUsersListed(docs: seq<User>, u: User)
    ensures u in docs ==> AdminView(u) in GetAllUsers(docs).body.items
    ensures forall j :: j in GetAllUsers(docs).body.items ==>
      "password" !in j.fields && exists v :: v in docs && j == AdminView(v)
  {
    if u in docs {
      UserListed(docs, u);
    }
    forall j | j in GetAllUsers(docs).body.items ensures "password" !in j.fields && exists v :: v in docs && j == AdminView(v) {
      UserEntry(docs, j);
    }
  }

  lemma UserListed(docs: seq<User>, u: User)
    requires u in docs
    ensures AdminView(u) in GetAllUsers(docs).body.items
  {
    var us := AllUsers(docs);
    var i :| 0 <= i < |us| && us[i] == u;
    assert GetAllUsers(docs).body.items[i] == AdminView(u);
  }

  lemma UserEntry(docs: seq<User>, j: Json)
    requires j in GetAllUsers(docs).body.items
    ensures "password" !in j.fields && exists v :: v in docs && j == AdminView(v)
  {
    var us := AllUsers(docs);
    var items := GetAllUsers(docs).body.items;
    var i :| 0 <= i < |items| && items[i] == j;
    var v := us[i];
    assert v in us;
    assert v in docs && j == AdminView(v);
  }

  // ---------------------------------------------------------------- approve

  /** The three fields an approval sets. */
  function Approved(u: User, adminId: string, now: int): (a: User)
    ensures a.isApproved && a.approvedAt == Some(now) && a.approvedBy == Some(adminId)
    ensures a.(isApproved := u.isApproved, approvedAt := u.approvedAt, approvedBy := u.approvedBy) == u
  {
    u.(isApproved := true, approvedAt := Some(now), approvedBy := Some(adminId))
  }

  /** The reply once `user.save()` has decided. */
  function ApproveReply(s: UserSaveOutcome): (r: Response)
    ensures r.status == 200 <==> s.Stored?
  {
    match s
    case Stored(u) => Message(200, "User " + u.fullName + " (" + u.rollNumber + ") approved successfully.")
    case _ => Message(500, "Server error while approving user.")
  }

  /**
   * The reply and the new collection of `approveUser`. A `userId` that is
   * not an ObjectId makes `findById` throw, which the handler turns into 500.
   */
  function ApproveOutcome(docs: seq<User>, userId: string, adminId: string, now: int): (r: (Response, seq<User>))
    ensures r.0.status != 200 ==> r.1 == docs
  {
    if !ObjectIds.IsValid(userId) then (Message(500, "Server error while approving user."), docs)
    else match IndexOfId(docs, ObjectIds.Cast(userId))
      case None => (Message(404, "User not found."), docs)
      case Some(k) =>
        if docs[k].isApproved then (Message(400, "User is already approved."), docs)
        else
          var s := SaveOutcomeOf(docs, Approved(docs[k], adminId, now), false, false, Unhashed);
          (ApproveReply(s), if s.Stored? then Written(docs, s.user) else docs)
  }

  /** `approveUser`. */
  method ApproveUser(store: UserStore, userId: string, adminId: string, now: int) returns (r: Response)
    requires store.Valid()
    modifies store
    ensures store.Valid()
    ensures (r, store.docs) == ApproveOutcome(old(store.docs), userId, adminId, now)
  {
    if !ObjectIds.IsValid(userId) {
      return Message(500, "Server error while approving user.");
    }
    var found := IndexOfId(store.docs, ObjectIds.Cast(userId));
    if found.None? {
      return Message(404, "User not found.");
    }
    var user := store.docs[found.value];
    if user.isApproved {
      return Message(400, "User is already approved.");
    }
    user := user.(isApproved := true);
    user := user.(approvedAt := Some(now));
    user := user.(approvedBy := Some(adminId));
    var saved := store.Save(user, false, false, Unhashed);
    r := ApproveReply(saved);
  }

  /** An unknown id gives 404 and changes nothing. */
  lemma ApproveUnknown(docs: seq<User>, userId: string, adminId: string, now: int)
    requires ObjectIds.IsValid(userId)
    requires forall i :: 0 <= i < |docs| ==> docs[i].id != ObjectIds.Cast(userId)
    ensures ApproveOutcome(docs, userId, adminId, now) == (Message(404, "User not found."), docs)
  {
  }

  /**
   * A successful approval sets exactly the three approval fields of the one
   * user found, keeps its password, and leaves every other user as it was.
   */
  lemma ApproveEffect(docs: seq<User>, userId: string, adminId: string, now: int)
    requires ApproveOutcome(docs, userId, adminId, now).0.status == 200
    ensures ObjectIds.IsValid(userId) && IndexOfId(docs, ObjectIds.Cast(userId)).Some?
    ensures var k := IndexOfId(docs, ObjectIds.Cast(userId)).value;
      var after := ApproveOutcome(docs, userId, adminId, now).1;
      && !docs[k].isApproved
      && after == docs[k := Approved(docs[k], adminId, now)]
      && after[k].password == docs[k].password
  {
    var k := IndexOfId(docs, ObjectIds.Cast(userId)).value;
    var a := Approved(docs[k], adminId, now);
    assert IndexOfId(docs, a.id) == Some(k);
  }

  /**
   * A well-formed id of a stored, unapproved user that meets the schema is
   * approved: the reply is 200 and the approved document replaces it.
   */
  lemma ApproveSucceeds(docs: seq<User>, userId: string, adminId: string, now: int, k: nat)
    requires UniqueKeys(docs)
    requires ObjectIds.IsValid(userId)
    requires k < |docs| && docs[k].id == ObjectIds.Cast(userId)
    requires !docs[k].isApproved && MeetsSchema(docs[k])
    ensures var a := Approved(docs[k], adminId, now);
      ApproveOutcome(docs, userId, adminId, now) == (ApproveReply(Stored(a)), docs[k := a])
    ensures ApproveOutcome(docs, userId, adminId, now).0.status == 200
  {
    IndexOfIdUnique(docs, k);
    var a := Approved(docs[k], adminId, now);
    assert MeetsSchema(a);
    assert !ClashesWithOthers(docs, a) by {
      forall i | 0 <= i < |docs| && docs[i].id != a.id
        ensures docs[i].email != a.email && docs[i].rollNumber != a.rollNumber
      {
        assert i != k;
      }
    }
    assert Written(docs, a) == docs[k := a];
  }

  /** Approving twice: the second call gets 400 and leaves the approval time and approver as the first set them. */
  lemma ApproveTwice(docs: seq<User>, userId: string, adminId: string, now: int, adminId': string, now': int)
    requires ApproveOutcome(docs, userId, adminId, now).0.status == 200
    ensures var after := ApproveOutcome(docs, userId, adminId, now).1;
      ApproveOutcome(after, userId, adminId', now') == (Message(400, "User is already approved."), after)
    ensures var after := ApproveOutcome(docs, userId, adminId, now).1;
      var k := IndexOfId(docs, ObjectIds.Cast(userId)).value;
      after[k].approvedAt == Some(now) && after[k].approvedBy == Some(adminId)
  {
    ApproveEffect(docs, userId, adminId, now);
    var id := ObjectIds.Cast(userId);
    var k := IndexOfId(docs, id).value;
    IndexOfIdReplace(docs, id, k, Approved(docs[k], adminId, now));
  }

  // ---------------------------------------------------------------- reject

  /** The reply and the new collection of `rejectUser`. */
  function RejectOutcome(docs: seq<User>, userId: string): (r: (Response, seq<User>))
    ensures r.0.status != 200 ==> r.1 == docs
  {
    if !ObjectIds.IsValid(userId) then (Message(500, "Server error while rejecting user."), docs)
    else match IndexOfId(docs, ObjectIds.Cast(userId))
      case None => (Message(404, "User not found."), docs)
      case Some(k) =>
        if docs[k].isApproved then
          (Message(400, "Cannot reject an already approved user. Consider suspending or deleting."), docs)
        else
          (Message(200, "User registration for " + docs[k].fullName + " (" + docs[k].rollNumber
                        + ") rejected and record deleted."), RemoveAt(docs, k))
  }

  /**
   * `rejectUser`. Deleting the ID card image afterwards is a file-system
   * effect whose failure is only logged; it does not reach the reply.
   */
  method RejectUser(store: UserStore, userId: string) returns (r: Response)
    requires store.Valid()
    modifies store
    ensures store.Valid()
    ensures (r, store.docs) == RejectOutcome(old(store.docs), userId)
  {
    if !ObjectIds.IsValid(userId) {
      return Message(500, "Server error while rejecting user.");
    }
    var found := IndexOfId(store.docs, ObjectIds.Cast(userId));
    if found.None? {
      return Message(404, "User not found.");
    }
    var user := store.docs[found.value];
    if user.isApproved {
      return Message(400, "Cannot reject an already approved user. Consider suspending or deleting.");
    }
    store.DeleteAt(found.value);
    r := Message(200, "User registration for " + user.fullName + " (" + user.rollNumber + ") rejected and record deleted.");
  }

  /** A well-formed id of a stored, unapproved user is rejected: 200, and that document is deleted. */
  lemma RejectSucceeds(docs: seq<User>, userId: string, k: nat)
    requires UniqueKeys(docs)
    requires ObjectIds.IsValid(userId)
    requires k < |docs| && docs[k].id == ObjectIds.Cast(userId)
    requires !docs[k].isApproved
    ensures RejectOutcome(docs, userId)
      == (Message(200, "User registration for " + docs[k].fullName + " (" + docs[k].rollNumber
                       + ") rejected and record deleted."), RemoveAt(docs, k))
  {
    IndexOfIdUnique(docs, k);
  }

  /**
   * A successful reject removes exactly the pending user with that id: it
   * is gone, and every other user is still stored.
   */
  lemma RejectEffect(docs: seq<User>, userId: string)
    requires UniqueKeys(docs)
    requires RejectOutcome(docs, userId).0.status == 200
    ensures ObjectIds.IsValid(userId)
    ensures var after := RejectOutcome(docs, userId).1;
      && |after| == |docs| - 1
      && (forall u :: u in after ==> u.id != ObjectIds.Cast(userId))
      && (forall u :: u in docs && u.id != ObjectIds.Cast(userId) ==> u in after)
  {
    var id := ObjectIds.Cast(userId);
    var k := IndexOfId(docs, id).value;
    var after := RemoveAt(docs, k);
    forall u | u in after ensures u.id != id {
      var i :| 0 <= i < |after| && after[i] == u;
      var i' := if i < k then i else i + 1;
      assert after[i] == docs[i'] && i' != k;
    }
    forall u | u in docs && u.id != id ensures u in after {
      var i :| 0 <= i < |docs| && docs[i] == u;
      assert i != k;
      if i < k {
        assert after[i] == u;
      } else {
        assert after[i - 1] == u;
      }
    }
  }
}
