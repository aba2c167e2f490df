/**
 * The user controller: the profile-picture upload filter, the profile
 * update, the directory search and the random suggestions. `me` is the
 * signed-in user's id as the authentication layer supplies it.
 */
module Profiles {
  import opened Options
  import opened Text
  import opened Json
  import opened Http
  import opened UserModel

  // ---------------------------------------------------------------- upload filter

  const AllowedImageTypes: seq<string> := ["image/jpeg", "image/png", "image/gif", "image/jpg"]
  const ImageTypeMessage: string := "Only JPG, JPEG, PNG, GIF image files are allowed!"
  const ImageExtensionMessage: string := "Only image files (jpg, jpeg, png, gif) are allowed based on extension!"

  datatype FilterResult = Accept | Reject(message: string)

  /** `/\.(jpg|jpeg|png|gif)$/i` matches the file name. */
  predicate HasImageExtension(name: string) {
    var n := Lower(name);
    EndsWith(n, ".jpg") || EndsWith(n, ".jpeg") || EndsWith(n, ".png") || EndsWith(n, ".gif")
  }

  /**
   * `imageFileFilter`: an `image/` MIME type is judged by the list of four
   * types alone; any other MIME type by the file name's extension.
   */
  function ImageFileFilter(mimetype: string, originalname: string): (r: FilterResult)
    ensures StartsWith(mimetype, "image/") ==> (r.Accept? <==> mimetype in AllowedImageTypes)
    ensures !StartsWith(mimetype, "image/") ==> (r.Accept? <==> HasImageExtension(originalname))
    ensures r.Reject? ==> r.message == if StartsWith(mimetype, "image/") then ImageTypeMessage else ImageExtensionMessage
  {
    if StartsWith(mimetype, "image/") then
      if mimetype in AllowedImageTypes then Accept else Reject(ImageTypeMessage)
    else if HasImageExtension(originalname) then Accept
    else Reject(ImageExtensionMessage)
  }

  /** With an `image/` MIME type the file name plays no part. */
  lemma ImageFilterIgnoresNameForImageTypes(mimetype: string, name1: string, name2: string)
    requires StartsWith(mimetype, "image/")
    ensures ImageFileFilter(mimetype, name1) == ImageFileFilter(mimetype, name2)
  {
  }

  /** The MIME list is case-sensitive while the extension test is not. */
  lemma ImageFilterCaseExamples()
    ensures ImageFileFilter("image/JPEG", "a.jpg") == Reject(ImageTypeMessage)
    ensures ImageFileFilter("application/octet-stream", "A.JPG") == Accept
  {
    assert StartsWith("image/JPEG", "image/");
    assert "application/octet-stream"[..6][0] != "image/"[0];
    assert Lower("A.JPG") == "a.jpg";
    assert EndsWith(Lower("A.JPG"), ".jpg");
  }

  // ---------------------------------------------------------------- profile update

  /** The text fields of the update request; None is a field the body does not have. */
  datatype ProfileBody = ProfileBody(
    linkedinProfileUrl: Option<Json>,
    displayEmail: Option<Json>,
    displayContactNumber: Option<Json>)

  /** `String(v).toLowerCase() === 'true'`. */
  predicate ParseFlag(v: Json) {
    Lower(ToJsString(v)) == "true"
  }

  lemma ParseFlagExamples()
    ensures ParseFlag(JStr("TRUE")) && ParseFlag(JBool(true)) && ParseFlag(JArr([JStr("True")]))
    ensures !ParseFlag(JStr("false")) && !ParseFlag(JStr("yes")) && !ParseFlag(JNum(1)) && !ParseFlag(JStr(" true"))
  {
    assert Lower("TRUE") == "true";
    assert Lower("True") == "true";
    assert ToJsString(JArr([JStr("True")])) == "True";
    assert ToJsString(JNum(1)) == "1";
    assert Lower("false") != "true" && Lower("yes") != "true" && Lower("1") != "true";
    assert |Lower(" true")| == 5;
  }

  /** The stored path of an uploaded profile picture. */
  function PicturePath(filename: string): (p: string)
    ensures StartsWith(p, "/uploads/profile-pics/")
  {
    "/uploads/profile-pics/" + filename
  }

  /** The two records agree on every field but the four a profile update sets. */
  predicate SameOutsideProfile(a: User, b: User) {
    && a.id == b.id && a.fullName == b.fullName && a.email == b.email && a.phoneNumber == b.phoneNumber
    && a.rollNumber == b.rollNumber && a.branch == b.branch && a.academicYear == b.academicYear
    && a.password == b.password && a.collegeIdCardImage == b.collegeIdCardImage
    && a.isApproved == b.isApproved && a.isAdmin == b.isAdmin && a.connections == b.connections
    && a.createdAt == b.createdAt && a.approvedAt == b.approvedAt && a.approvedBy == b.approvedBy
  }

  /** The edited user, and the old picture the controller tries to delete. */
  datatype Edit = Edit(user: User, unlink: Option<string>)

  /**
   * The field assignments of `updateUserProfile`. None when
   * `linkedinProfileUrl` is present but not a string, where `.trim()` throws.
   * `underUploads(p)` is the path test `path.join(root, p).startsWith(path.join(root, 'uploads'))`.
   */
  function EditProfile(u: User, body: ProfileBody, file: Option<string>, underUploads: string -> bool): (r: Option<Edit>)
    ensures r.None? <==> body.linkedinProfileUrl.Some? && !body.linkedinProfileUrl.value.JStr?
    ensures r.Some? ==>
      var v := r.value.user;
      && v.linkedinProfileUrl == (if body.linkedinProfileUrl.Some? then Trim(body.linkedinProfileUrl.value.s) else u.linkedinProfileUrl)
      && v.displayEmail == (if body.displayEmail.Some? then ParseFlag(body.displayEmail.value) else u.displayEmail)
      && v.displayContactNumber == (if body.displayContactNumber.Some? then ParseFlag(body.displayContactNumber.value) else u.displayContactNumber)
      && v.profilePictureUrl == (if file.Some? then PicturePath(file.value) else u.profilePictureUrl)
      && SameOutsideProfile(v, u)
      && (r.value.unlink.Some? <==>
            file.Some? && u.profilePictureUrl != "" && u.profilePictureUrl != PicturePath(file.value)
            && underUploads(u.profilePictureUrl))
      && (r.value.unlink.Some? ==> r.value.unlink.value == u.profilePictureUrl)
  {
    if body.linkedinProfileUrl.Some? && !body.linkedinProfileUrl.value.JStr? then None
    else
      var v := SetDisplayContact(SetDisplayEmail(SetLinkedin(u, body), body), body);
      Some(SetPicture(v, file, underUploads))
  }

  /** The LinkedIn URL, trimmed, when the body has one. */
  function SetLinkedin(u: User, body: ProfileBody): (v: User)
    requires body.linkedinProfileUrl.Some? ==> body.linkedinProfileUrl.value.JStr?
    ensures v.linkedinProfileUrl == (if body.linkedinProfileUrl.Some? then Trim(body.linkedinProfileUrl.value.s) else u.linkedinProfileUrl)
    ensures v.displayEmail == u.displayEmail && v.displayContactNumber == u.displayContactNumber
    ensures v.profilePictureUrl == u.profilePictureUrl && SameOutsideProfile(v, u)
  {
    if body.linkedinProfileUrl.Some? then u.(linkedinProfileUrl := Trim(body.linkedinProfileUrl.value.s)) else u
  }

  /** The e-mail visibility flag, parsed, when the body has one. */
  function SetDisplayEmail(u: User, body: ProfileBody): (v: User)
    ensures v.displayEmail == (if body.displayEmail.Some? then ParseFlag(body.displayEmail.value) else u.displayEmail)
    ensures v.linkedinProfileUrl == u.linkedinProfileUrl && v.displayContactNumber == u.displayContactNumber
    ensures v.profilePictureUrl == u.profilePictureUrl && SameOutsideProfile(v, u)
  {
    if body.displayEmail.Some? then u.(displayEmail := ParseFlag(body.displayEmail.value)) else u
  }

  /** The phone visibility flag, parsed, when the body has one. */
  function SetDisplayContact(u: User, body: ProfileBody): (v: User)
    ensures v.displayContactNumber == (if body.displayContactNumber.Some? then ParseFlag(body.displayContactNumber.value) else u.displayContactNumber)
    ensures v.linkedinProfileUrl == u.linkedinProfileUrl && v.displayEmail == u.displayEmail
    ensures v.profilePictureUrl == u.profilePictureUrl && SameOutsideProfile(v, u)
  {
    if body.displayContactNumber.Some? then u.(displayContactNumber := ParseFlag(body.displayContactNumber.value)) else u
  }

  /** The uploaded picture's path, and the old picture to delete when it is set, differs and lies under the uploads. */
  function SetPicture(u: User, file: Option<string>, underUploads: string -> bool): (e: Edit)
    ensures e.user.profilePictureUrl == (if file.Some? then PicturePath(file.value) else u.profilePictureUrl)
    ensures e.user.linkedinProfileUrl == u.linkedinProfileUrl && e.user.displayEmail == u.displayEmail
    ensures e.user.displayContactNumber == u.displayContactNumber && SameOutsideProfile(e.user, u)
    ensures e.unlink.Some? <==>
      file.Some? && u.profilePictureUrl != "" && u.profilePictureUrl != PicturePath(file.value) && underUploads(u.profilePictureUrl)
    ensures e.unlink.Some? ==> e.unlink.value == u.profilePictureUrl
  {
    if file.Some? then
      var oldPic := u.profilePictureUrl;
      var unlink := if oldPic != "" && oldPic != PicturePath(file.value) && underUploads(oldPic) then Some(oldPic) else None;
      Edit(u.(profilePictureUrl := PicturePath(file.value)), unlink)
    else Edit(u, None)
  }

  /** The keys `updateUserProfile` deletes from the saved user before replying. */
  const HiddenInProfile: set<string> :=
    {"password", "__v", "collegeIdCardImage", "isApproved", "isAdmin", "approvedAt", "approvedBy"}

  /** The reply body for the saved user. */
  function ProfileResponse(u: User): (j: Json)
    ensures j.JObj? && j.fields.Keys == ToObject(u).Keys - HiddenInProfile
  {
    JObj(ToObject(u) - HiddenInProfile)
  }

  /** The reply shows the new picture path and none of the hidden fields. */
  lemma ProfileResponseFields(u: User)
    ensures var j := ProfileResponse(u);
      && "profilePictureUrl" in j.fields && j.fields["profilePictureUrl"] == JStr(u.profilePictureUrl)
      && (forall k :: k in HiddenInProfile ==> k !in j.fields)
  {
    assert "profilePictureUrl" !in HiddenInProfile;
  }

  /** The reply, the new collection and the old picture deleted, of `updateUserProfile`. */
  function UpdateOutcome(docs: seq<User>, me: string, body: ProfileBody, file: Option<string>,
                         underUploads: string -> bool): (r: (Response, seq<User>, Option<string>))
    ensures IndexOfId(docs, me).None? ==> r == (Message(404, "User not found."), docs, None)
    ensures r.0.status != 200 ==> r.1 == docs
    ensures r.0.status == 200 || r.0 == Message(404, "User not found.") || r.0 == Message(500, "Server error while updating profile.")
  {
    match IndexOfId(docs, me)
    case None => (Message(404, "User not found."), docs, None)
    case Some(k) =>
      match EditProfile(docs[k], body, file, underUploads)
      case None => (Message(500, "Server error while updating profile."), docs, None)
      case Some(edit) =>
        match SaveOutcomeOf(docs, edit.user, false, false, Unhashed)
        case Stored(s) => (Response(200, ProfileResponse(s)), Written(docs, s), edit.unlink)
        case _ => (Message(500, "Server error while updating profile."), docs, edit.unlink)
  }

  /** The assignments to `userToUpdate`, one field at a time. */
  method AssignFields(u: User, body: ProfileBody, file: Option<string>, underUploads: string -> bool)
    returns (e: Option<Edit>)
    ensures e == EditProfile(u, body, file, underUploads)
  {
    var user := u;
    if body.linkedinProfileUrl.Some? {
      var v := body.linkedinProfileUrl.value;
      if !v.JStr? {
        return None;
      }
      user := user.(linkedinProfileUrl := Trim(v.s));
    }
    assert user == SetLinkedin(u, body);
    if body.displayEmail.Some? {
      user := user.(displayEmail := ParseFlag(body.displayEmail.value));
    }
    if body.displayContactNumber.Some? {
      user := user.(displayContactNumber := ParseFlag(body.displayContactNumber.value));
    }
    assert user == SetDisplayContact(SetDisplayEmail(SetLinkedin(u, body), body), body);
    ghost var u3 := user;
    var unlink := None;
    if file.Some? {
      var newPath := PicturePath(file.value);
      if user.profilePictureUrl != "" && user.profilePictureUrl != newPath && underUploads(user.profilePictureUrl) {
        unlink := Some(user.profilePictureUrl);
      }
      user := user.(profilePictureUrl := newPath);
    }
    assert Edit(user, unlink) == SetPicture(u3, file, underUploads);
    e := Some(Edit(user, unlink));
  }

  /** The `delete userResponse.…` statements, one key at a time. */
  method StripHidden(u: User) returns (j: Json)
    ensures j == ProfileResponse(u)
  {
    var reply := ToObject(u);
    reply := reply - {"password"};
    reply := reply - {"__v"};
    reply := reply - {"collegeIdCardImage"};
    reply := reply - {"isApproved"};
    reply := reply - {"isAdmin"};
    reply := reply - {"approvedAt"};
    reply := reply - {"approvedBy"};
    DeletesOneByOne(ToObject(u));
    j := JObj(reply);
  }

  /** Deleting the hidden keys one at a time deletes the whole set. */
  lemma DeletesOneByOne(m: map<string, Json>)
    ensures m - {"password"} - {"__v"} - {"collegeIdCardImage"} - {"isApproved"} - {"isAdmin"}
      - {"approvedAt"} - {"approvedBy"} == m - HiddenInProfile
  {
  }

  /**
   * `updateUserProfile`: the fields of the found user assigned one by one,
   * the old picture's deletion decided, the user saved, and the reply built
   * by deleting keys from the saved user's object.
   */
  method UpdateUserProfile(store: UserStore, me: string, body: ProfileBody, file: Option<string>,
                           underUploads: string -> bool) returns (r: Response, unlink: Option<string>)
    requires store.Valid()
    modifies store
    ensures store.Valid()
    ensures (r, store.docs, unlink) == UpdateOutcome(old(store.docs), me, body, file, underUploads)
  {
    var found := IndexOfId(store.docs, me);
    if found.None? {
      return Message(404, "User not found."), None;
    }
    var edit := AssignFields(store.docs[found.value], body, file, underUploads);
    if edit.None? {
      return Message(500, "Server error while updating profile."), None;
    }
    unlink := edit.value.unlink;
    var user := edit.value.user;
    var saved := store.Save(user, false, false, Unhashed);
    if !saved.Stored? {
      return Message(500, "Server error while updating profile."), unlink;
    }
    var reply := StripHidden(saved.user);
    r := Response(200, reply);
  }

  /**
   * A found user whose edit succeeds and still meets the schema is updated:
   * 200 with the edited user's reply, that document replaced, and the
   * edit's picture deletion.
   */
  lemma UpdateSucceeds(docs: seq<User>, me: string, body: ProfileBody, file: Option<string>,
                       underUploads: string -> bool, k: nat)
    requires UniqueKeys(docs)
    requires k < |docs| && docs[k].id == me
    requires EditProfile(docs[k], body, file, underUploads).Some?
    requires MeetsSchema(EditProfile(docs[k], body, file, underUploads).value.user)
    ensures var edit := EditProfile(docs[k], body, file, underUploads).value;
      UpdateOutcome(docs, me, body, file, underUploads)
        == (Response(200, ProfileResponse(edit.user)), docs[k := edit.user], edit.unlink)
  {
    IndexOfIdUnique(docs, k);
    var edit := EditProfile(docs[k], body, file, underUploads).value;
    var v := edit.user;
    assert SameOutsideProfile(v, docs[k]);
    forall i | 0 <= i < |docs| && docs[i].id != v.id
      ensures docs[i].email != v.email && docs[i].rollNumber != v.rollNumber
    {
      assert i != k;
    }
    assert SaveOutcomeOf(docs, v, false, false, Unhashed) == Stored(v);
    assert IndexOfId(docs, v.id) == Some(k);
  }

  /** A successful update writes the edited user over the signed-in user's record. */
  lemma UpdateWritesEdit(docs: seq<User>, me: string, body: ProfileBody, file: Option<string>,
                         underUploads: string -> bool)
    requires UpdateOutcome(docs, me, body, file, underUploads).0.status == 200
    ensures IndexOfId(docs, me).Some?
    ensures var k := IndexOfId(docs, me).value;
      && EditProfile(docs[k], body, file, underUploads).Some?
      && UpdateOutcome(docs, me, body, file, underUploads).1
         == docs[k := EditProfile(docs[k], body, file, underUploads).value.user]
  {
    var k := IndexOfId(docs, me).value;
    var edit := EditProfile(docs[k], body, file, underUploads).value;
    var saved := SaveOutcomeOf(docs, edit.user, false, false, Unhashed);
    assert saved.Stored? && saved.user == edit.user;
    assert IndexOfId(docs, edit.user.id) == Some(k);
  }

  /**
   * A successful update changes only the signed-in user's record, only in
   * the four profile fields, and keeps the password as stored.
   */
  lemma UpdateTouchesOnlyProfile(docs: seq<User>, me: string, body: ProfileBody, file: Option<string>,
                                 underUploads: string -> bool)
    requires UpdateOutcome(docs, me, body, file, underUploads).0.status == 200
    ensures IndexOfId(docs, me).Some?
    ensures var k := IndexOfId(docs, me).value;
      var after := UpdateOutcome(docs, me, body, file, underUploads).1;
      && |after| == |docs| && (forall i :: 0 <= i < |docs| && i != k ==> after[i] == docs[i])
      && after[k].password == docs[k].password && after[k].email == docs[k].email
      && after[k].isApproved == docs[k].isApproved && after[k].isAdmin == docs[k].isAdmin
  {
    UpdateWritesEdit(docs, me, body, file, underUploads);
    var k := IndexOfId(docs, me).value;
    var edited := EditProfile(docs[k], body, file, underUploads).value.user;
    assert SameOutsideProfile(edited, docs[k]);
  }

  // ---------------------------------------------------------------- search

  /** A search hit as the reply shows it: a hidden e-mail or phone number is `null`. */
  function SearchView(u: User): (j: Json)
    ensures j.JObj? && "email" in j.fields && "phoneNumber" in j.fields
    ensures j.fields["email"] == if u.displayEmail then JStr(u.email) else JNull
    ensures j.fields["phoneNumber"] == if u.displayContactNumber then JStr(u.phoneNumber) else JNull
    ensures "password" !in j.fields
  {
    JObj(map[
      "_id" := JStr(u.id),
      "fullName" := JStr(u.fullName),
      "rollNumber" := JStr(u.rollNumber),
      "profilePictureUrl" := JStr(u.profilePictureUrl),
      "linkedinProfileUrl" := JStr(u.linkedinProfileUrl),
      "email" := if u.displayEmail then JStr(u.email) else JNull,
      "phoneNumber" := if u.displayContactNumber then JStr(u.phoneNumber) else JNull])
  }

  /** `{ $regex: query, $options: 'i' }` on a value, with the query read as plain text. */
  predicate MatchesIgnoringCase(value: string, query: string) {
    Contains(Lower(value), Lower(query))
  }

  predicate IsSearchHit(u: User, me: string, query: string, byName: bool) {
    u.isApproved && u.id != me && MatchesIgnoringCase(if byName then u.fullName else u.rollNumber, query)
  }

  /** The matching approved users other than `me`, in store order. */
  function SearchHits(docs: seq<User>, me: string, query: string, byName: bool): (r: seq<User>)
    ensures forall u :: u in r <==> u in docs && IsSearchHit(u, me, query, byName)
  {
    if |docs| == 0 then []
    else
      var rest := SearchHits(docs[1..], me, query, byName);
      assert forall u :: u in docs <==> u == docs[0] || u in docs[1..];
      if IsSearchHit(docs[0], me, query, byName) then [docs[0]] + rest else rest
  }

  function Take<T>(xs: seq<T>, n: nat): (r: seq<T>)
    ensures |r| == if |xs| < n then |xs| else n
    ensures r == xs[..|r|]
  {
    if |xs| <= n then xs else xs[..n]
  }

  /** The reply of `searchUsers`; an absent query parameter is the empty string. */
  function SearchUsers(docs: seq<User>, me: string, query: string, kind: string): (r: Response)
    ensures r.status == 400 <==> query == "" || kind == "" || (kind != "name" && kind != "rollNumber")
    ensures r.status == 400 || r.status == 200
  {
    if query == "" || kind == "" then Message(400, "Search query and type (name/rollNumber) are required.")
    else if kind != "name" && kind != "rollNumber" then Message(400, "Invalid search type. Use 'name' or 'rollNumber'.")
    else
      var hits := Take(SearchHits(docs, me, query, kind == "name"), 20);
      Response(200, JArr(seq(|hits|, i requires 0 <= i < |hits| => SearchView(hits[i]))))
  }

  /**
   * A successful search lists at most 20 users, each an approved user other
   * than `me` whose name (or roll number) contains the query ignoring case;
   * when fewer than 20 users match, every one of them is listed.
   */
  lemma SearchMeaning(docs: seq<User>, me: string, query: string, kind: string, u: User)
    requires SearchUsers(docs, me, query, kind).status == 200
    ensures var items := SearchUsers(docs, me, query, kind).body.items;
      && |items| <= 20
      && (forall j :: j in items ==> exists v :: v in docs && IsSearchHit(v, me, query, kind == "name") && j == SearchView(v))
      && ((|SearchHits(docs, me, query, kind == "name")| < 20 && u in docs && IsSearchHit(u, me, query, kind == "name"))
            ==> SearchView(u) in items)
  {
    var all := SearchHits(docs, me, query, kind == "name");
    var hits := Take(all, 20);
    var items := SearchUsers(docs, me, query, kind).body.items;
    forall j | j in items
      ensures exists v :: v in docs && IsSearchHit(v, me, query, kind == "name") && j == SearchView(v)
    {
      var i :| 0 <= i < |items| && items[i] == j;
      assert hits[i] == all[i] && all[i] in all;
    }
    if |all| < 20 && u in docs && IsSearchHit(u, me, query, kind == "name") {
      var i :| 0 <= i < |all| && all[i] == u;
      assert items[i] == SearchView(u);
    }
  }

  // ---------------------------------------------------------------- suggestions

  const SampleSize: nat := 5

  /**
   * A suggestion card: a hidden e-mail or phone number is left out of the
   * object rather than set to `null`.
   */
  function SuggestView(u: User): (j: Json)
    ensures j.JObj? && ("email" in j.fields <==> u.displayEmail) && ("phoneNumber" in j.fields <==> u.displayContactNumber)
    ensures "email" in j.fields ==> j.fields["email"] == JStr(u.email)
    ensures "phoneNumber" in j.fields ==> j.fields["phoneNumber"] == JStr(u.phoneNumber)
    ensures "password" !in j.fields
  {
    var card := map[
      "_id" := JStr(u.id),
      "fullName" := JStr(u.fullName),
      "rollNumber" := JStr(u.rollNumber),
      "profilePictureUrl" := JStr(u.profilePictureUrl),
      "linkedinProfileUrl" := JStr(u.linkedinProfileUrl)];
    var withEmail := if u.displayEmail then card["email" := JStr(u.email)] else card;
    JObj(if u.displayContactNumber then withEmail["phoneNumber" := JStr(u.phoneNumber)] else withEmail)
  }

  predicate IsSuggestable(u: User, me: string) {
    u.isApproved && u.id != me
  }

  /** The approved users other than `me`: the `$match` stage with `_id` compared as an ObjectId. */
  function SuggestionPool(docs: seq<User>, me: string): (r: seq<User>)
    ensures forall u :: u in r <==> u in docs && IsSuggestable(u, me)
  {
    if |docs| == 0 then []
    else
      var rest := SuggestionPool(docs[1..], me);
      assert forall u :: u in docs <==> u == docs[0] || u in docs[1..];
      if IsSuggestable(docs[0], me) then [docs[0]] + rest else rest
  }

  /**
   * The `$match` stage as written: aggregation pipelines are not cast, so
   * `_id: { $ne: req.user.id }` compares an ObjectId with a string and holds
   * for every document; only `isApproved` filters.
   */
  function SuggestionPoolAsWritten(docs: seq<User>, me: string): (r: seq<User>)
    ensures forall u :: u in r <==> u in docs && u.isApproved
  {
    if |docs| == 0 then []
    else
      var rest := SuggestionPoolAsWritten(docs[1..], me);
      assert forall u :: u in docs <==> u == docs[0] || u in docs[1..];
      if docs[0].isApproved then [docs[0]] + rest else rest
  }

  /** What `$sample` may return: as many distinct documents of the pool as it has, up to the size. */
  predicate IsSample(s: seq<User>, pool: seq<User>) {
    |s| == (if |pool| < SampleSize then |pool| else SampleSize) && multiset(s) <= multiset(pool)
  }

  function SuggestReply(s: seq<User>): (r: Response)
    ensures r.status == 200 && r.body.JArr? && |r.body.items| == |s|
    ensures forall i :: 0 <= i < |s| ==> r.body.items[i] == SuggestView(s[i])
  {
    Response(200, JArr(seq(|s|, i requires 0 <= i < |s| => SuggestView(s[i]))))
  }

  /** `getSuggestedUsers`: a random sample of the pool, each member shown as a card. */
  method GetSuggestedUsers(store: UserStore, me: string) returns (r: Response)
    ensures exists s :: IsSample(s, SuggestionPool(store.docs, me)) && r == SuggestReply(s)
    ensures r.body.JArr? && |r.body.items| <= SampleSize
    ensures forall j :: j in r.body.items ==> exists u :: u in store.docs && IsSuggestable(u, me) && j == SuggestView(u)
  {
    var pool := SuggestionPool(store.docs, me);
    var n := if |pool| < SampleSize then |pool| else SampleSize;
    assert multiset(pool[..n]) <= multiset(pool) by {
      assert pool == pool[..n] + pool[n..];
    }
    assert IsSample(pool[..n], pool);
    var sample: seq<User> :| IsSample(sample, pool);
    assert IsSample(sample, pool);
    var cards: seq<Json> := [];
    var i := 0;
    while i < |sample|
      invariant 0 <= i <= |sample|
      invariant |cards| == i && forall k :: 0 <= k < i ==> cards[k] == SuggestView(sample[k])
    {
      cards := cards + [SuggestView(sample[i])];
      i := i + 1;
    }
    r := Response(200, JArr(cards));
    assert cards == SuggestReply(sample).body.items;
    SuggestCardsFromDocs(store.docs, me, sample);
  }

  /** Every card of a sample shows an approved user other than the requester. */
  lemma SuggestCardsFromDocs(docs: seq<User>, me: string, s: seq<User>)
    requires IsSample(s, SuggestionPool(docs, me))
    ensures |SuggestReply(s).body.items| <= SampleSize
    ensures forall j :: j in SuggestReply(s).body.items ==> exists u :: u in docs && IsSuggestable(u, me) && j == SuggestView(u)
  {
    SuggestionsExcludeRequester(docs, me, s);
    var items := SuggestReply(s).body.items;
    forall j | j in items
      ensures exists u :: u in docs && IsSuggestable(u, me) && j == SuggestView(u)
    {
      var k :| 0 <= k < |items| && items[k] == j;
      assert s[k] in s;
    }
  }

  /**
   * When the signed-in user is the only approved user, every sample the
   * pipeline as written can draw is the signed-in user themself.
   */
  lemma SuggestionsIncludeRequesterAsWritten(me: string, s: seq<User>)
    requires IsSample(s, SuggestionPoolAsWritten([ExampleUser(me)], me))
    ensures s == [ExampleUser(me)]
  {
    var u := ExampleUser(me);
    assert [u][1..] == [];
    assert SuggestionPoolAsWritten([], me) == [];
    var pool := SuggestionPoolAsWritten([u], me);
    assert pool == [u];
    assert multiset(s)[s[0]] <= multiset(pool)[s[0]];
    assert s == [s[0]];
  }

  /**
   * The reply as written, when the signed-in user is the only approved
   * user: exactly one card, the signed-in user's own.
   */
  lemma RequesterSuggestedAsWritten(me: string, s: seq<User>)
    requires IsSample(s, SuggestionPoolAsWritten([ExampleUser(me)], me))
    ensures SuggestReply(s).body.items == [SuggestView(ExampleUser(me))]
  {
    SuggestionsIncludeRequesterAsWritten(me, s);
  }

  /** With `_id` compared as an ObjectId, no sample contains the signed-in user. */
  lemma SuggestionsExcludeRequester(docs: seq<User>, me: string, s: seq<User>)
    requires IsSample(s, SuggestionPool(docs, me))
    ensures forall u :: u in s ==> u.id != me && u.isApproved && u in docs
    ensures |s| <= SampleSize
  {
    forall u | u in s ensures u.id != me && u.isApproved && u in docs {
      assert multiset(s)[u] <= multiset(SuggestionPool(docs, me))[u];
      assert u in SuggestionPool(docs, me);
      assert IsSuggestable(u, me);
    }
  }
}
