/**
 * The User collection: the record every controller shares, its defaults
 * and setters (trim, lower-case e-mail), its validators (`required`, the
 * e-mail pattern), its unique indexes (`_id`, `email`, `rollNumber`) and
 * the pre-save hook that hashes the password only when it was modified.
 */
module UserModel {
  import opened Options
  import opened Text
  import opened Json

  /**
   * A user document. A string path the document does not have is the empty
   * string, which the `required` validator rejects exactly as it rejects a
   * missing path.
   */
  datatype User = User(
    id: string,
    fullName: string,
    email: string,
    phoneNumber: string,
    rollNumber: string,
    branch: string,
    academicYear: string,
    password: string,
    collegeIdCardImage: string,
    isApproved: bool,
    isAdmin: bool,
    profilePictureUrl: string,
    linkedinProfileUrl: string,
    displayEmail: bool,
    displayContactNumber: bool,
    connections: seq<string>,
    createdAt: int,
    approvedAt: Option<int>,
    approvedBy: Option<string>)

  /** The e-mail setters: `trim` then `lowercase`. */
  function NormalizeEmail(s: string): (r: string)
    ensures r == [] || (!IsSpace(r[0]) && !IsSpace(r[|r| - 1]))
  {
    Lower(Trim(s))
  }

  /** Normalising an already normalised e-mail changes nothing. */
  lemma NormalizeEmailIdempotent(s: string)
    ensures NormalizeEmail(NormalizeEmail(s)) == NormalizeEmail(s)
  {
    var t := Trim(s);
    LowerKeepsEnds(t);
    LowerIdempotent(t);
  }

  predicate IsSep(c: char) {
    c == '.' || c == '-'
  }

  /**
   * `\w+([\.-]?\w+)*`: word characters, where a dot or hyphen may stand only
   * between two word characters.
   */
  predicate IsWordRun(s: string) {
    && |s| > 0 && IsWordChar(s[0]) && IsWordChar(s[|s| - 1])
    && (forall i :: 0 <= i < |s| ==> IsWordChar(s[i]) || IsSep(s[i]))
    && (forall i :: 0 <= i < |s| - 1 ==> IsWordChar(s[i]) || IsWordChar(s[i + 1]))
  }

  /** `d` ends in a dot followed by exactly `k` word characters. */
  predicate EndsInLabel(d: string, k: nat) {
    && |d| > k + 1
    && d[|d| - k - 1] == '.'
    && (forall i :: |d| - k <= i < |d| ==> IsWordChar(d[i]))
  }

  /**
   * `\w+([\.-]?\w+)*(\.\w{2,3})+`: a word run whose last label, after a dot,
   * has two or three characters (earlier `.xx` groups are absorbed by the
   * first part).
   */
  predicate IsEmailDomain(d: string) {
    IsWordRun(d) && (EndsInLabel(d, 2) || EndsInLabel(d, 3))
  }

  /** The index of the first `c` in `s`. */
  function IndexOf(s: string, c: char): (r: Option<nat>)
    ensures r.Some? ==> r.value < |s| && s[r.value] == c && forall k :: 0 <= k < r.value ==> s[k] != c
    ensures r.None? ==> forall k :: 0 <= k < |s| ==> s[k] != c
  {
    if |s| == 0 then None
    else if s[0] == c then Some(0)
    else match IndexOf(s[1..], c)
      case Some(k) => Some(k + 1)
      case None => None
  }

  /** The schema's pattern `^\w+([\.-]?\w+)*@\w+([\.-]?\w+)*(\.\w{2,3})+$`. */
  predicate ValidEmail(e: string) {
    match IndexOf(e, '@')
    case None => false
    case Some(at) => IsWordRun(e[..at]) && IsEmailDomain(e[at + 1..])
  }

  /** The validators `save()` runs: the eight required paths and the e-mail pattern. */
  predicate MeetsSchema(u: User) {
    && u.fullName != "" && u.email != "" && u.phoneNumber != "" && u.rollNumber != ""
    && u.branch != "" && u.academicYear != "" && u.password != "" && u.collegeIdCardImage != ""
    && ValidEmail(u.email)
  }

  /**
   * `new User({...})` for a registration: the trim and lowercase setters
   * applied to the given paths, every other path at its schema default.
   */
  function NewUser(id: string, fullName: string, email: string, phoneNumber: string,
                   rollNumber: string, branch: string, academicYear: string,
                   password: string, collegeIdCardImage: string, now: int): (u: User)
    ensures u.id == id && u.email == NormalizeEmail(email) && u.password == password
    ensures u.fullName == Trim(fullName) && u.phoneNumber == Trim(phoneNumber) && u.rollNumber == Trim(rollNumber)
    ensures u.branch == Trim(branch) && u.academicYear == Trim(academicYear)
    ensures u.collegeIdCardImage == collegeIdCardImage && u.createdAt == now
    ensures !u.isApproved && !u.isAdmin && u.profilePictureUrl == "" && u.linkedinProfileUrl == ""
    ensures u.displayEmail && u.displayContactNumber && u.connections == []
    ensures u.approvedAt.None? && u.approvedBy.None?
  {
    User(id, Trim(fullName), NormalizeEmail(email), Trim(phoneNumber), Trim(rollNumber),
         Trim(branch), Trim(academicYear), password, collegeIdCardImage,
         false, false, "", "", true, true, [], now, None, None)
  }

  /** A registration whose paths are not blank and whose e-mail matches the pattern passes validation. */
  lemma NewUserMeetsSchema(id: string, fullName: string, email: string, phoneNumber: string,
                           rollNumber: string, branch: string, academicYear: string,
                           password: string, collegeIdCardImage: string, now: int)
    requires !AllSpace(fullName) && !AllSpace(phoneNumber) && !AllSpace(rollNumber)
    requires !AllSpace(branch) && !AllSpace(academicYear)
    requires password != "" && collegeIdCardImage != ""
    requires ValidEmail(NormalizeEmail(email))
    ensures MeetsSchema(NewUser(id, fullName, email, phoneNumber, rollNumber, branch,
                                academicYear, password, collegeIdCardImage, now))
  {
  }

  /** The pre-save hook: hash the password only when the path was modified. */
  function PasswordHook(u: User, passwordModified: bool, hash: string -> string): (r: User)
    ensures r.password == if passwordModified then hash(u.password) else u.password
    ensures r.(password := u.password) == u
  {
    if passwordModified then u.(password := hash(u.password)) else u
  }

  /** The hash argument of a save that does not modify the password; the hook never applies it. */
  function Unhashed(p: string): string {
    p
  }

  /** An approved user with the given id and otherwise arbitrary valid fields. */
  function ExampleUser(id: string): (u: User)
    ensures u.id == id && u.isApproved
  {
    User(id, "A", "a@b.cd", "1", "R1", "CSE", "3", "h", "/uploads/id_cards/a.png",
         true, false, "", "", true, true, [], 0, None, None)
  }

  /** The index of the document with `_id == id`: `findById`. */
  function IndexOfId(docs: seq<User>, id: string): (r: Option<nat>)
    ensures r.Some? ==> r.value < |docs| && docs[r.value].id == id
    ensures r.None? ==> forall i :: 0 <= i < |docs| ==> docs[i].id != id
  {
    if |docs| == 0 then None
    else if docs[0].id == id then Some(0)
    else match IndexOfId(docs[1..], id)
      case Some(k) => Some(k + 1)
      case None => None
  }

  /** Replacing the document `findById` finds by one with the same `_id` leaves it found at the same place. */
  lemma {:induction false} IndexOfIdReplace(docs: seq<User>, id: string, k: nat, u: User)
    requires IndexOfId(docs, id) == Some(k) && u.id == id
    ensures IndexOfId(docs[k := u], id) == Some(k)
  {
    if k > 0 {
      assert docs[k := u][1..] == docs[1..][k - 1 := u];
      IndexOfIdReplace(docs[1..], id, k - 1, u);
    }
  }

  /** With unique ids, `findById` finds the one document that has the id. */
  lemma IndexOfIdUnique(docs: seq<User>, k: nat)
    requires UniqueKeys(docs) && k < |docs|
    ensures IndexOfId(docs, docs[k].id) == Some(k)
  {
    var r := IndexOfId(docs, docs[k].id);
    assert r.Some?;
    assert docs[r.value].id == docs[k].id;
  }

  /** With unique e-mails, `findOne({ email })` finds the one document holding it. */
  lemma IndexOfEmailUnique(docs: seq<User>, k: nat)
    requires UniqueKeys(docs) && k < |docs|
    ensures IndexOfEmail(docs, docs[k].email) == Some(k)
  {
    var r := IndexOfEmail(docs, docs[k].email);
    assert r.Some?;
    assert docs[r.value].email == docs[k].email;
  }

  /** The first document with the given (normalised) e-mail: `findOne({ email })`. */
  function IndexOfEmail(docs: seq<User>, email: string): (r: Option<nat>)
    ensures r.Some? ==> r.value < |docs| && docs[r.value].email == email
    ensures r.None? ==> forall i :: 0 <= i < |docs| ==> docs[i].email != email
  {
    if |docs| == 0 then None
    else if docs[0].email == email then Some(0)
    else match IndexOfEmail(docs[1..], email)
      case Some(k) => Some(k + 1)
      case None => None
  }

  /** `findOne({ $or: [{ email }, { rollNumber }] })` finds something. */
  predicate EmailOrRollTaken(docs: seq<User>, email: string, rollNumber: string) {
    exists i | 0 <= i < |docs| :: docs[i].email == email || docs[i].rollNumber == rollNumber
  }

  /** The unique indexes on `_id`, `email` and `rollNumber`. */
  predicate UniqueKeys(docs: seq<User>) {
    forall i, j :: 0 <= i < j < |docs| ==>
      docs[i].id != docs[j].id && docs[i].email != docs[j].email && docs[i].rollNumber != docs[j].rollNumber
  }

  /** Another document already holds `u`'s e-mail or roll number. */
  predicate ClashesWithOthers(docs: seq<User>, u: User) {
    exists i | 0 <= i < |docs| ::
      docs[i].id != u.id && (docs[i].email == u.email || docs[i].rollNumber == u.rollNumber)
  }

  /**
   * The unique indexes reject the write: another document holds the e-mail
   * or roll number, or the document is new (`save()` inserts it) and its
   * `_id` is already stored.
   */
  predicate SaveClashes(docs: seq<User>, u: User, isNew: bool) {
    ClashesWithOthers(docs, u) || (isNew && IndexOfId(docs, u.id).Some?)
  }

  datatype UserSaveOutcome = Invalid | Duplicate | Stored(user: User)

  /**
   * `doc.save()`: validation first, then the pre-save hook, then the unique
   * indexes. A new document (`new User(...)`) is inserted; one loaded from
   * the collection replaces the stored document with its `_id`.
   */
  function SaveOutcomeOf(docs: seq<User>, u: User, isNew: bool, passwordModified: bool, hash: string -> string): (r: UserSaveOutcome)
    ensures r.Invalid? <==> !MeetsSchema(u)
    ensures r.Duplicate? <==> MeetsSchema(u) && SaveClashes(docs, u, isNew)
    ensures r.Stored? <==> MeetsSchema(u) && !SaveClashes(docs, u, isNew)
    ensures r.Stored? ==> r.user == PasswordHook(u, passwordModified, hash)
    ensures r.Stored? && isNew ==> IndexOfId(docs, u.id).None?
  {
    if !MeetsSchema(u) then Invalid
    else
      var h := PasswordHook(u, passwordModified, hash);
      if SaveClashes(docs, h, isNew) then Duplicate else Stored(h)
  }

  /** The collection after `u` is written: replaced in place if its `_id` is stored, appended otherwise. */
  function Written(docs: seq<User>, u: User): (r: seq<User>)
    ensures u in r
  {
    match IndexOfId(docs, u.id)
    case Some(i) => assert docs[i := u][i] == u; docs[i := u]
    case None => docs + [u]
  }

  /**
   * A new document that meets the schema, under an unused `_id`, whose
   * e-mail and roll number no document holds, is stored with its password hashed.
   */
  lemma InsertStored(docs: seq<User>, u: User, hash: string -> string)
    requires MeetsSchema(u) && IndexOfId(docs, u.id).None?
    requires forall i :: 0 <= i < |docs| ==> docs[i].email != u.email && docs[i].rollNumber != u.rollNumber
    ensures SaveOutcomeOf(docs, u, true, true, hash) == Stored(PasswordHook(u, true, hash))
  {
  }

  /** A write that clashes with no other document keeps the indexes unique. */
  lemma WrittenKeepsUnique(docs: seq<User>, u: User)
    requires UniqueKeys(docs)
    requires !ClashesWithOthers(docs, u)
    ensures UniqueKeys(Written(docs, u))
  {
    var r := Written(docs, u);
    match IndexOfId(docs, u.id)
    case Some(k) =>
      forall i, j | 0 <= i < j < |r|
        ensures r[i].id != r[j].id && r[i].email != r[j].email && r[i].rollNumber != r[j].rollNumber
      {
        if i == k {
          assert docs[j].id != u.id;
        } else if j == k {
          assert docs[i].id != u.id;
        }
      }
    case None =>
      forall i, j | 0 <= i < j < |r|
        ensures r[i].id != r[j].id && r[i].email != r[j].email && r[i].rollNumber != r[j].rollNumber
      {
        if j == |docs| {
          assert docs[i].id != u.id;
        }
      }
  }

  /** The collection with the document at index `k` deleted: `findByIdAndDelete`. */
  function RemoveAt(docs: seq<User>, k: nat): (r: seq<User>)
    requires k < |docs|
    ensures |r| == |docs| - 1
    ensures forall i :: 0 <= i < |r| ==> r[i] == if i < k then docs[i] else docs[i + 1]
  {
    docs[..k] + docs[k + 1..]
  }

  lemma RemoveAtKeepsUnique(docs: seq<User>, k: nat)
    requires k < |docs| && UniqueKeys(docs)
    ensures UniqueKeys(RemoveAt(docs, k))
  {
    var r := RemoveAt(docs, k);
    forall i, j | 0 <= i < j < |r|
      ensures r[i].id != r[j].id && r[i].email != r[j].email && r[i].rollNumber != r[j].rollNumber
    {
      var i' := if i < k then i else i + 1;
      var j' := if j < k then j else j + 1;
      assert r[i] == docs[i'] && r[j] == docs[j'] && i' < j';
    }
  }

  /** With unique keys, removing a document removes the only holder of its e-mail. */
  lemma RemoveAtDropsEmail(docs: seq<User>, k: nat)
    requires k < |docs| && UniqueKeys(docs)
    ensures IndexOfEmail(RemoveAt(docs, k), docs[k].email).None?
  {
    var r := RemoveAt(docs, k);
    forall i | 0 <= i < |r| ensures r[i].email != docs[k].email {
      var i' := if i < k then i else i + 1;
      assert r[i] == docs[i'] && i' != k;
    }
  }

  /** The paths every user document has, with `_id` and the version key `__v`. */
  const PathKeys: set<string> := AccountKeys + StatusKeys + RewrittenKeys

  const AccountKeys: set<string> := {"_id", "fullName", "email", "phoneNumber", "rollNumber", "branch", "academicYear"}
  const StatusKeys: set<string> := {
    "isApproved", "isAdmin", "linkedinProfileUrl", "displayEmail", "displayContactNumber", "connections", "createdAt", "__v"}
  /** The paths a reply drops (`password`) or turns into absolute URLs (the two image paths). */
  const RewrittenKeys: set<string> := {"password", "collegeIdCardImage", "profilePictureUrl"}

  /**
   * `toObject()`: every path of the document plus the version key `__v`.
   * Dates are given as milliseconds; `approvedAt` and `approvedBy` appear
   * only once set.
   */
  function ToObject(u: User): (m: map<string, Json>)
    ensures "password" in m && "__v" in m && "collegeIdCardImage" in m && "profilePictureUrl" in m
    ensures m["password"] == JStr(u.password)
    ensures m["profilePictureUrl"] == JStr(u.profilePictureUrl)
    ensures m["collegeIdCardImage"] == JStr(u.collegeIdCardImage)
  {
    AccountPaths(u) + StatusPaths(u) + ApprovalPaths(u) + RewrittenPaths(u)
  }

  /** The object has exactly the schema's paths, `_id` and `__v`, and the approval paths once set. */
  lemma ToObjectPaths(u: User)
    ensures ToObject(u).Keys == PathKeys + ApprovalKeys(u)
    ensures u.approvedAt.Some? ==> ToObject(u)["approvedAt"] == JNum(u.approvedAt.value)
    ensures u.approvedBy.Some? ==> ToObject(u)["approvedBy"] == JStr(u.approvedBy.value)
  {
    ToObjectKeys(u);
    ToObjectApproval(u);
  }

  lemma ToObjectKeys(u: User)
    ensures ToObject(u).Keys == PathKeys + ApprovalKeys(u)
  {
    assert ToObject(u).Keys == AccountKeys + StatusKeys + ApprovalKeys(u) + RewrittenKeys;
  }

  lemma ToObjectApproval(u: User)
    ensures u.approvedAt.Some? ==> "approvedAt" in ToObject(u) && ToObject(u)["approvedAt"] == JNum(u.approvedAt.value)
    ensures u.approvedBy.Some? ==> "approvedBy" in ToObject(u) && ToObject(u)["approvedBy"] == JStr(u.approvedBy.value)
  {
    assert "approvedAt" !in RewrittenKeys && "approvedBy" !in RewrittenKeys;
  }

  /** `approvedAt` and `approvedBy`, each once set. */
  function ApprovalKeys(u: User): set<string> {
    (if u.approvedAt.Some? then {"approvedAt"} else {}) + (if u.approvedBy.Some? then {"approvedBy"} else {})
  }

  /** `approvedAt` and `approvedBy`, each present once set. */
  function ApprovalPaths(u: User): (m: map<string, Json>)
    ensures m.Keys == ApprovalKeys(u)
    ensures u.approvedAt.Some? ==> m["approvedAt"] == JNum(u.approvedAt.value)
    ensures u.approvedBy.Some? ==> m["approvedBy"] == JStr(u.approvedBy.value)
  {
    var at: map<string, Json> := if u.approvedAt.Some? then map["approvedAt" := JNum(u.approvedAt.value)] else map[];
    if u.approvedBy.Some? then at["approvedBy" := JStr(u.approvedBy.value)] else at
  }

  function AccountPaths(u: User): (m: map<string, Json>)
    ensures m.Keys == AccountKeys
  {
    map["_id" := JStr(u.id), "fullName" := JStr(u.fullName), "email" := JStr(u.email),
        "phoneNumber" := JStr(u.phoneNumber), "rollNumber" := JStr(u.rollNumber),
        "branch" := JStr(u.branch), "academicYear" := JStr(u.academicYear)]
  }

  function StatusPaths(u: User): (m: map<string, Json>)
    ensures m.Keys == StatusKeys
  {
    map["isApproved" := JBool(u.isApproved), "isAdmin" := JBool(u.isAdmin),
        "linkedinProfileUrl" := JStr(u.linkedinProfileUrl),
        "displayEmail" := JBool(u.displayEmail), "displayContactNumber" := JBool(u.displayContactNumber),
        "connections" := JArr(seq(|u.connections|, i requires 0 <= i < |u.connections| => JStr(u.connections[i]))),
        "createdAt" := JNum(u.createdAt), "__v" := JNum(0)]
  }

  function RewrittenPaths(u: User): (m: map<string, Json>)
    ensures m.Keys == RewrittenKeys && m["password"] == JStr(u.password)
    ensures m["collegeIdCardImage"] == JStr(u.collegeIdCardImage) && m["profilePictureUrl"] == JStr(u.profilePictureUrl)
  {
    map["password" := JStr(u.password), "collegeIdCardImage" := JStr(u.collegeIdCardImage),
        "profilePictureUrl" := JStr(u.profilePictureUrl)]
  }

  /** The user collection. */
  class UserStore {
    var docs: seq<User>

    predicate Valid()
      reads this
    {
      UniqueKeys(docs)
    }

    constructor ()
      ensures Valid() && docs == []
    {
      docs := [];
    }

    /** `doc.save()` for the document `u`. */
    method Save(u: User, isNew: bool, passwordModified: bool, hash: string -> string) returns (r: UserSaveOutcome)
      requires Valid()
      modifies this
      ensures Valid()
      ensures r == SaveOutcomeOf(old(docs), u, isNew, passwordModified, hash)
      ensures docs == if r.Stored? then Written(old(docs), r.user) else old(docs)
    {
      if !MeetsSchema(u) {
        return Invalid;
      }
      var h := u;
      if passwordModified {
        h := h.(password := hash(h.password));
      }
      if SaveClashes(docs, h, isNew) {
        return Duplicate;
      }
      WrittenKeepsUnique(docs, h);
      var k := IndexOfId(docs, h.id);
      if k.Some? {
        docs := docs[k.value := h];
      } else {
        docs := docs + [h];
      }
      r := Stored(h);
    }

    /** `findByIdAndDelete` of the document at index `k`. */
    method DeleteAt(k: nat)
      requires Valid() && k < |docs|
      modifies this
      ensures Valid()
      ensures docs == RemoveAt(old(docs), k)
    {
      RemoveAtKeepsUnique(docs, k);
      docs := docs[..k] + docs[k + 1..];
    }
  }

  /** An e-mail made of a word run, `@`, a word run and a two- or three-letter last label is valid. */
  lemma ValidEmailParts(local: string, domain: string)
    requires IsWordRun(local) && IsEmailDomain(domain)
    ensures ValidEmail(local + "@" + domain)
  {
    var e := local + "@" + domain;
    assert e[|local|] == '@';
    assert forall k :: 0 <= k < |local| ==> e[k] == local[k];
    assert IndexOf(e, '@') == Some(|local|);
    assert e[..|local|] == local;
    assert e[|local| + 1..] == domain;
  }
}
