/**
 * The auth controller: registration (field checks, the duplicate check on
 * e-mail or roll number, the new user saved unapproved) and sign-in (the
 * decision chain ending in a signed token). bcrypt and JWT are parameters:
 * `hash` is the hook's hashing, `matches(plain, stored)` is
 * `bcrypt.compare`, and `sign(payload, expiresIn)` is `jwt.sign`.
 */
module Auth {
  import opened Options
  import opened Text
  import opened Json
  import opened Http
  import opened UserModel
  import ObjectIds
  import Admin

  /** The text fields of a registration; an absent field is the empty string. */
  datatype SignupBody = SignupBody(
    fullName: string, email: string, phoneNumber: string, rollNumber: string,
    password: string, branch: string, academicYear: string)

  predicate HasAllFields(b: SignupBody) {
    b.fullName != "" && b.email != "" && b.phoneNumber != "" && b.rollNumber != ""
    && b.password != "" && b.branch != "" && b.academicYear != ""
  }

  /** The stored path of an uploaded ID card. */
  function IdCardPath(filename: string): string {
    "/uploads/id_cards/" + filename
  }

  /** The new document `new User({...})` builds from the registration. */
  function Registrant(b: SignupBody, filename: string, newId: string, now: int): (u: User)
    ensures u.id == newId && u.email == NormalizeEmail(b.email) && u.password == b.password
    ensures u.collegeIdCardImage == IdCardPath(filename)
    ensures !u.isApproved && !u.isAdmin && u.connections == [] && u.displayEmail && u.displayContactNumber
    ensures u.profilePictureUrl == "" && u.linkedinProfileUrl == "" && u.createdAt == now
    ensures u.approvedAt.None? && u.approvedBy.None?
  {
    NewUser(newId, b.fullName, b.email, b.phoneNumber, b.rollNumber, b.branch, b.academicYear,
            b.password, IdCardPath(filename), now)
  }

  /** The 201 body: the new user's id, name, e-mail and roll number, and no token. */
  function Registered(u: User): (j: Json)
    ensures j.JObj? && "token" !in j.fields && "user" in j.fields
    ensures j.fields["user"].JObj? && j.fields["user"].fields.Keys == {"id", "fullName", "email", "rollNumber"}
  {
    JObj(map[
      "message" := JStr("Registration successful. Please wait for admin approval."),
      "user" := JObj(map["id" := JStr(u.id), "fullName" := JStr(u.fullName),
                         "email" := JStr(u.email), "rollNumber" := JStr(u.rollNumber)])])
  }

  /**
   * The reply, the new collection, and whether the uploaded file is deleted,
   * of `signup`. `file` is the uploaded ID card's file name. The lookup runs
   * the e-mail's trim and lowercase setters and the roll number's trim on
   * the filter values.
   */
  function SignupOutcome(docs: seq<User>, b: SignupBody, file: Option<string>, newId: string, now: int,
                         hash: string -> string): (r: (Response, seq<User>, bool))
    ensures !HasAllFields(b) ==> r == (Message(400, "Please provide all required fields."), docs, false)
    ensures HasAllFields(b) && file.None? ==> r == (Message(400, "College ID card image is required."), docs, false)
    ensures r.0.status != 201 ==> r.1 == docs
    ensures r.0.status == 201 ==> !r.2
  {
    if !HasAllFields(b) then (Message(400, "Please provide all required fields."), docs, false)
    else if file.None? then (Message(400, "College ID card image is required."), docs, false)
    else if EmailOrRollTaken(docs, NormalizeEmail(b.email), Trim(b.rollNumber)) then
      (Message(400, "User with this email or roll number already exists."), docs, true)
    else
      var u := Registrant(b, file.value, newId, now);
      match SaveOutcomeOf(docs, u, true, true, hash)
      case Stored(s) => (Response(201, Registered(s)), Written(docs, s), false)
      case _ => (Message(500, "Server error during registration. Please try again later."), docs, true)
  }

  /** `signup`; `newId` is the fresh ObjectId the new document receives. */
  method Signup(store: UserStore, b: SignupBody, file: Option<string>, newId: string, now: int,
                hash: string -> string) returns (r: Response, deleteUpload: bool)
    requires store.Valid()
    modifies store
    ensures store.Valid()
    ensures (r, store.docs, deleteUpload) == SignupOutcome(old(store.docs), b, file, newId, now, hash)
  {
    if !HasAllFields(b) {
      return Message(400, "Please provide all required fields."), false;
    }
    if file.None? {
      return Message(400, "College ID card image is required."), false;
    }
    if EmailOrRollTaken(store.docs, NormalizeEmail(b.email), Trim(b.rollNumber)) {
      return Message(400, "User with this email or roll number already exists."), true;
    }
    var user := Registrant(b, file.value, newId, now);
    var saved := store.Save(user, true, true, hash);
    if !saved.Stored? {
      return Message(500, "Server error during registration. Please try again later."), true;
    }
    r := Response(201, Registered(saved.user));
    deleteUpload := false;
  }

  /**
   * A complete registration with an ID card, whose e-mail and roll number no
   * user holds, whose document meets the schema and whose `newId` is unused,
   * gets 201 and appends the registrant with its password hashed.
   */
  lemma SignupSucceeds(docs: seq<User>, b: SignupBody, filename: string, newId: string, now: int,
                       hash: string -> string)
    requires HasAllFields(b)
    requires !EmailOrRollTaken(docs, NormalizeEmail(b.email), Trim(b.rollNumber))
    requires MeetsSchema(Registrant(b, filename, newId, now))
    requires IndexOfId(docs, newId).None?
    ensures var h := PasswordHook(Registrant(b, filename, newId, now), true, hash);
      SignupOutcome(docs, b, Some(filename), newId, now, hash) == (Response(201, Registered(h)), docs + [h], false)
  {
    RegistrantStored(docs, b, filename, newId, now, hash);
  }

  /** The save of such a registrant stores the hooked document. */
  lemma RegistrantStored(docs: seq<User>, b: SignupBody, filename: string, newId: string, now: int,
                         hash: string -> string)
    requires !EmailOrRollTaken(docs, NormalizeEmail(b.email), Trim(b.rollNumber))
    requires MeetsSchema(Registrant(b, filename, newId, now))
    requires IndexOfId(docs, newId).None?
    ensures var u := Registrant(b, filename, newId, now);
      SaveOutcomeOf(docs, u, true, true, hash) == Stored(PasswordHook(u, true, hash))
  {
    var u := Registrant(b, filename, newId, now);
    assert u.email == NormalizeEmail(b.email) && u.rollNumber == Trim(b.rollNumber);
    forall i | 0 <= i < |docs|
      ensures docs[i].email != u.email && docs[i].rollNumber != u.rollNumber
    {
      assert !(docs[i].email == NormalizeEmail(b.email) || docs[i].rollNumber == Trim(b.rollNumber));
    }
    InsertStored(docs, u, hash);
  }

  /** A 201 means a file was given and the registrant was stored by a write of the hooked document. */
  lemma SignupStored(docs: seq<User>, b: SignupBody, file: Option<string>, newId: string, now: int,
                     hash: string -> string)
    requires SignupOutcome(docs, b, file, newId, now, hash).0.status == 201
    ensures file.Some?
    ensures var s := SaveOutcomeOf(docs, Registrant(b, file.value, newId, now), true, true, hash);
      s.Stored? && SignupOutcome(docs, b, file, newId, now, hash).1 == Written(docs, s.user)
  {
  }

  /**
   * A successful registration appends one unapproved user holding the
   * normalised e-mail, the ID card path and the hashed password (an insert
   * whose `_id` is already stored is a duplicate key, never a 201).
   */
  lemma SignupEffect(docs: seq<User>, b: SignupBody, file: Option<string>, newId: string, now: int,
                     hash: string -> string)
    requires SignupOutcome(docs, b, file, newId, now, hash).0.status == 201
    ensures file.Some?
    ensures var after := SignupOutcome(docs, b, file, newId, now, hash).1;
      && |after| == |docs| + 1
      && after == docs + [after[|docs|]]
      && after[|docs|].id == newId
      && after[|docs|].email == NormalizeEmail(b.email)
      && after[|docs|].collegeIdCardImage == IdCardPath(file.value)
      && after[|docs|].password == hash(b.password)
      && !after[|docs|].isApproved && !after[|docs|].isAdmin
  {
    SignupStored(docs, b, file, newId, now, hash);
    var u := Registrant(b, file.value, newId, now);
    var h := SaveOutcomeOf(docs, u, true, true, hash).user;
    assert h == PasswordHook(u, true, hash);
    assert Written(docs, h) == docs + [h];
    assert (docs + [h])[|docs|] == h;
  }

  /** An e-mail or roll number already stored gives 400, deletes the upload and stores nothing. */
  lemma SignupDuplicate(docs: seq<User>, b: SignupBody, file: Option<string>, newId: string, now: int,
                        hash: string -> string, i: nat)
    requires HasAllFields(b) && file.Some?
    requires i < |docs| && (docs[i].email == NormalizeEmail(b.email) || docs[i].rollNumber == Trim(b.rollNumber))
    ensures SignupOutcome(docs, b, file, newId, now, hash)
      == (Message(400, "User with this email or roll number already exists."), docs, true)
  {
  }

  // ---------------------------------------------------------------- sign-in

  /** The claims of the token: exactly id, name, e-mail, roll number and the admin flag. */
  function TokenClaims(u: User): (j: Json)
    ensures j.JObj? && j.fields.Keys == {"id", "fullName", "email", "rollNumber", "isAdmin"}
    ensures j.fields["id"] == JStr(u.id) && j.fields["isAdmin"] == JBool(u.isAdmin)
    ensures j.fields["fullName"] == JStr(u.fullName) && j.fields["email"] == JStr(u.email)
    ensures j.fields["rollNumber"] == JStr(u.rollNumber)
  {
    JObj(map["id" := JStr(u.id), "fullName" := JStr(u.fullName), "email" := JStr(u.email),
             "rollNumber" := JStr(u.rollNumber), "isAdmin" := JBool(u.isAdmin)])
  }

  const TokenLifetime: string := "7d"

  /** The reply of `signin`. */
  function Signin(docs: seq<User>, email: string, password: string,
                  matches: (string, string) -> bool, sign: (Json, string) -> string): (r: Response)
    ensures email == "" || password == "" ==> r == Message(400, "Please provide email and password.")
    ensures r.status == 200 ==>
      exists k :: 0 <= k < |docs| && docs[k].email == NormalizeEmail(email)
        && matches(password, docs[k].password) && docs[k].isApproved
        && var claims := JObj(map["user" := TokenClaims(docs[k])]);
           r.body == JObj(map["token" := JStr(sign(claims, TokenLifetime)), "user" := TokenClaims(docs[k])])
  {
    if email == "" || password == "" then Message(400, "Please provide email and password.")
    else match IndexOfEmail(docs, NormalizeEmail(email))
      case None => Message(400, "Invalid credentials. User not found.")
      case Some(k) =>
        var u := docs[k];
        if !matches(password, u.password) then Message(400, "Invalid credentials. Password incorrect.")
        else if !u.isApproved then Message(403, "Account not yet approved by admin. Please wait.")
        else
          var claims := JObj(map["user" := TokenClaims(u)]);
          Response(200, JObj(map["token" := JStr(sign(claims, TokenLifetime)), "user" := TokenClaims(u)]))
  }

  /**
   * The password is checked before the approval: an unapproved user with a
   * wrong password gets 400, and with the right one 403.
   */
  lemma SigninChecksPasswordFirst(docs: seq<User>, email: string, password: string,
                                  matches: (string, string) -> bool, sign: (Json, string) -> string, k: nat)
    requires email != "" && password != ""
    requires UniqueKeys(docs) && k < |docs| && docs[k].email == NormalizeEmail(email) && !docs[k].isApproved
    ensures !matches(password, docs[k].password) ==>
      Signin(docs, email, password, matches, sign) == Message(400, "Invalid credentials. Password incorrect.")
    ensures matches(password, docs[k].password) ==>
      Signin(docs, email, password, matches, sign) == Message(403, "Account not yet approved by admin. Please wait.")
  {
    IndexOfEmailUnique(docs, k);
  }

  /**
   * An approved user who gives a stored e-mail (in any case, with any
   * surrounding blanks) and a password bcrypt accepts gets 200, a token
   * signed over that user's claims for seven days, and those claims.
   */
  lemma SigninApproved(docs: seq<User>, email: string, password: string,
                       matches: (string, string) -> bool, sign: (Json, string) -> string, k: nat)
    requires email != "" && password != ""
    requires UniqueKeys(docs) && k < |docs| && docs[k].email == NormalizeEmail(email)
    requires matches(password, docs[k].password) && docs[k].isApproved
    ensures var claims := JObj(map["user" := TokenClaims(docs[k])]);
      Signin(docs, email, password, matches, sign)
        == Response(200, JObj(map["token" := JStr(sign(claims, TokenLifetime)), "user" := TokenClaims(docs[k])]))
  {
    IndexOfEmailUnique(docs, k);
  }

  /** An e-mail no stored user has gives 400 whatever the password. */
  lemma SigninUnknownUser(docs: seq<User>, email: string, password: string,
                          matches: (string, string) -> bool, sign: (Json, string) -> string)
    requires email != "" && password != ""
    requires forall i :: 0 <= i < |docs| ==> docs[i].email != NormalizeEmail(email)
    ensures Signin(docs, email, password, matches, sign) == Message(400, "Invalid credentials. User not found.")
  {
  }

  lemma {:induction false} IndexOfEmailAppend(docs: seq<User>, u: User, email: string)
    requires forall i :: 0 <= i < |docs| ==> docs[i].email != email
    requires u.email == email
    ensures IndexOfEmail(docs + [u], email) == Some(|docs|)
  {
    if |docs| > 0 {
      assert (docs + [u])[1..] == docs[1..] + [u];
      IndexOfEmailAppend(docs[1..], u, email);
    }
  }

  /**
   * Right after a registration, signing in with the same e-mail and the
   * same password (which bcrypt accepts against its hash) gets 403: the
   * account waits for an admin.
   */
  lemma SignupThenSignin(docs: seq<User>, b: SignupBody, file: Option<string>, newId: string, now: int,
                         hash: string -> string, matches: (string, string) -> bool, sign: (Json, string) -> string)
    requires SignupOutcome(docs, b, file, newId, now, hash).0.status == 201
    requires matches(b.password, hash(b.password))
    ensures var after := SignupOutcome(docs, b, file, newId, now, hash).1;
      Signin(after, b.email, b.password, matches, sign) == Message(403, "Account not yet approved by admin. Please wait.")
  {
    var after := SignupOutcome(docs, b, file, newId, now, hash).1;
    SignupEffect(docs, b, file, newId, now, hash);
    assert !EmailOrRollTaken(docs, NormalizeEmail(b.email), Trim(b.rollNumber));
    IndexOfEmailAppend(docs, after[|docs|], NormalizeEmail(b.email));
  }

  /** Once an admin rejects a registration, signing in with its e-mail reports an unknown user. */
  lemma RejectedUserCannotSignIn(docs: seq<User>, userId: string, email: string, password: string,
                                 matches: (string, string) -> bool, sign: (Json, string) -> string)
    requires UniqueKeys(docs)
    requires Admin.RejectOutcome(docs, userId).0.status == 200
    requires email != "" && password != ""
    requires var k := IndexOfId(docs, ObjectIds.Cast(userId));
      k.Some? && docs[k.value].email == NormalizeEmail(email)
    ensures var after := Admin.RejectOutcome(docs, userId).1;
      Signin(after, email, password, matches, sign) == Message(400, "Invalid credentials. User not found.")
  {
    var k := IndexOfId(docs, ObjectIds.Cast(userId)).value;
    assert ObjectIds.IsValid(userId) && !docs[k].isApproved;
    Admin.RejectSucceeds(docs, userId, k);
    RemoveAtDropsEmail(docs, k);
  }
}
