/**
 * The seeding script: the admin account upserted by its e-mail, then every
 * record of every array-valued `.json` file normalised, checked and saved
 * as an approved user, with a count of the records seeded and skipped.
 * The directory listing and file contents are parameters (`files`), as is
 * bcrypt (`hash`, used both for the script's own hashing and by the
 * pre-save hook), the clock (`now`) and the ObjectIds new documents get.
 */
module Seed {
  import opened Options
  import opened Text
  import opened Json
  import opened UserModel
  import Http
  import Auth

  const DefaultPassword: string := "password123"
  const AdminEmail: string := "admin@example.com"
  const AdminPassword: string := "adminpassword"
  const AdminRoll: string := "ADMIN001"
  const PlaceholderDomain: string := "@nnrgtemp.com"
  const PlaceholderIdCard: string := "/uploads/id_cards/placeholder_id.png"

  // ---------------------------------------------------------------- admin upsert

  /** The `$set` of the admin upsert applied to a document. */
  function AdminFields(u: User, hashed: string, now: int): (a: User)
    ensures a.id == u.id && a.email == AdminEmail && a.rollNumber == AdminRoll
    ensures a.isApproved && a.isAdmin && a.password == hashed && a.approvedAt == Some(now)
  {
    u.(fullName := "Administrator", email := AdminEmail, phoneNumber := "0000000000",
       rollNumber := AdminRoll, password := hashed,
       collegeIdCardImage := "/uploads/id_cards/admin_placeholder_id.png",
       isApproved := true, isAdmin := true, approvedAt := Some(now))
  }

  /**
   * `findOneAndUpdate({ email: ADMIN_EMAIL }, { $set }, { upsert: true })`:
   * the document holding the admin e-mail is updated, or a new one with
   * schema defaults is inserted under `newId`. None is the duplicate-key
   * error of another document holding the admin roll number (or `newId`).
   * No pre-save hook runs, so `hashed` is stored as it is; the update
   * validators check only the `$set` paths, which are all valid.
   */
  function AdminUpsert(docs: seq<User>, hashed: string, now: int, newId: string): (r: Option<seq<User>>)
    ensures r.Some? ==> |r.value| == |docs| || (|r.value| == |docs| + 1 && r.value[..|docs|] == docs)
    ensures r.Some? ==> exists k :: 0 <= k < |r.value| && r.value[k] == AdminFields(r.value[k], hashed, now)
    ensures var k := IndexOfEmail(docs, AdminEmail);
      k.Some? ==> r == if ClashesWithOthers(docs, AdminFields(docs[k.value], hashed, now)) then None
                       else Some(docs[k.value := AdminFields(docs[k.value], hashed, now)])
    ensures var a := NewAdmin(newId, hashed, now);
      IndexOfEmail(docs, AdminEmail).None? ==>
        r == if IndexOfId(docs, newId).Some? || ClashesWithOthers(docs, a) then None else Some(docs + [a])
  {
    match IndexOfEmail(docs, AdminEmail)
    case Some(k) =>
      var a := AdminFields(docs[k], hashed, now);
      if ClashesWithOthers(docs, a) then None
      else assert docs[k := a][k] == a; Some(docs[k := a])
    case None =>
      var a := NewAdmin(newId, hashed, now);
      if IndexOfId(docs, newId).Some? || ClashesWithOthers(docs, a) then None
      else assert (docs + [a])[|docs|] == a; Some(docs + [a])
  }

  /** The document the upsert inserts: schema defaults under `newId`, with the `$set` applied. */
  function NewAdmin(newId: string, hashed: string, now: int): (a: User)
    ensures a.id == newId && a.email == AdminEmail && a.isApproved && a.isAdmin && a.password == hashed
  {
    AdminFields(NewUser(newId, "", "", "", "", "", "", "", "", now), hashed, now)
  }

  /** The upsert keeps the unique indexes, and afterwards the admin e-mail finds an approved admin. */
  lemma AdminUpsertEffect(docs: seq<User>, hashed: string, now: int, newId: string)
    requires UniqueKeys(docs)
    requires AdminUpsert(docs, hashed, now, newId).Some?
    ensures var after := AdminUpsert(docs, hashed, now, newId).value;
      && UniqueKeys(after)
      && var k := IndexOfEmail(after, AdminEmail);
         k.Some? && after[k.value].isApproved && after[k.value].isAdmin && after[k.value].password == hashed
  {
    var after := AdminUpsert(docs, hashed, now, newId).value;
    match IndexOfEmail(docs, AdminEmail)
    case Some(k) =>
      var a := AdminFields(docs[k], hashed, now);
      IndexOfIdUnique(docs, k);
      WrittenKeepsUnique(docs, a);
      assert after == Written(docs, a);
      var f := IndexOfEmail(after, AdminEmail);
      assert after[k].email == AdminEmail;
      assert f.Some?;
      assert after[f.value].email == after[k].email;
      assert f.value == k;
    case None =>
      var a := NewAdmin(newId, hashed, now);
      assert IndexOfId(docs, a.id).None?;
      WrittenKeepsUnique(docs, a);
      assert after == Written(docs, a);
      var f := IndexOfEmail(after, AdminEmail);
      assert after[|docs|].email == AdminEmail;
      assert f.Some?;
      assert f.value == |docs|;
  }

  /**
   * After the upsert the administrator signs in with the script's password
   * (whenever bcrypt accepts it against the hash the script computed).
   */
  lemma AdminCanSignIn(docs: seq<User>, now: int, newId: string, hash: string -> string,
                       matches: (string, string) -> bool, sign: (Json, string) -> string)
    requires UniqueKeys(docs)
    requires AdminUpsert(docs, hash(AdminPassword), now, newId).Some?
    requires matches(AdminPassword, hash(AdminPassword))
    ensures Auth.Signin(AdminUpsert(docs, hash(AdminPassword), now, newId).value, AdminEmail, AdminPassword,
                        matches, sign).status == 200
  {
    AdminUpsertEffect(docs, hash(AdminPassword), now, newId);
    AdminEmailIsNormal();
  }

  /** The admin e-mail is already trimmed and lower-case. */
  lemma AdminEmailIsNormal()
    ensures NormalizeEmail(AdminEmail) == AdminEmail
  {
    var e := AdminEmail;
    assert !IsSpace(e[0]) && !IsSpace(e[|e| - 1]);
    TrimOfTrimmed(e);
    LowerOfLowerCase(e);
  }

  /** A string with no upper-case ASCII letter is its own lower case. */
  lemma LowerOfLowerCase(s: string)
    requires forall i :: 0 <= i < |s| ==> !('A' <= s[i] <= 'Z')
    ensures Lower(s) == s
  {
  }

  // ---------------------------------------------------------------- normalisation

  /** JavaScript `a || b` on two possibly undefined values. */
  function Or(a: Option<Json>, b: Option<Json>): Option<Json> {
    if Given(a) then a else b
  }

  /** A string-or-null value that `if (x)` accepts. */
  predicate Filled(s: Option<string>) {
    s.Some? && s.value != ""
  }

  /** `x ? String(x).trim() : null`. */
  function Trimmed(v: Option<Json>): (r: Option<string>)
    ensures r.Some? <==> Given(v)
  {
    if Given(v) then Some(Trim(ToJsString(v.value))) else None
  }

  datatype Normalised = Normalised(
    fullName: Option<string>, email: Option<string>, rollNumber: Option<string>, phoneNumber: Option<string>)

  function RollField(student: Json): Option<Json> {
    Or(Get(student, "Roll Number"), Get(student, "rollNumber"))
  }

  function NameField(student: Json): Option<Json> {
    Or(Or(Get(student, "Name of the Student (As per SSC)"), Get(student, "Name of the Student")),
       Get(student, "fullName"))
  }

  function EmailField(student: Json): Option<Json> {
    Or(Get(student, "E-mail ID of the Student"), Get(student, "email"))
  }

  function PhoneField(student: Json): Option<Json> {
    Or(Or(Get(student, "Mobile No. of the Student"), Get(student, "Student Mobile")), Get(student, "phoneNumber"))
  }

  /** `${roll.toLowerCase()}@nnrgtemp.com`. */
  function PlaceholderEmail(roll: string): string {
    Lower(roll) + PlaceholderDomain
  }

  /**
   * The four core fields of a record after the fallbacks, the trims, the
   * case changes and the placeholder e-mail.
   */
  function Normalise(student: Json): (n: Normalised)
    ensures n.fullName == Trimmed(NameField(student)) && n.phoneNumber == Trimmed(PhoneField(student))
    ensures n.rollNumber.Some? <==> Given(RollField(student))
    ensures n.rollNumber.Some? ==> n.rollNumber.value == Upper(Trimmed(RollField(student)).value)
    ensures Filled(n.email) <==> Filled(Trimmed(EmailField(student))) || Filled(n.rollNumber)
    ensures Filled(Trimmed(EmailField(student))) ==> n.email == Some(Lower(Trimmed(EmailField(student)).value))
    ensures !Filled(Trimmed(EmailField(student))) && Filled(n.rollNumber) ==>
      n.email == Some(PlaceholderEmail(n.rollNumber.value))
  {
    var email := if Given(EmailField(student)) then Some(Lower(Trimmed(EmailField(student)).value)) else None;
    var roll := if Given(RollField(student)) then Some(Upper(Trimmed(RollField(student)).value)) else None;
    var finalEmail := if !Filled(email) && Filled(roll) then Some(PlaceholderEmail(roll.value)) else email;
    Normalised(Trimmed(NameField(student)), finalEmail, roll, Trimmed(PhoneField(student)))
  }

  /** The spreadsheet's column names win over the field names. */
  lemma FieldPriority(student: Json)
    ensures Given(Get(student, "Roll Number")) ==> RollField(student) == Get(student, "Roll Number")
    ensures !Given(Get(student, "Roll Number")) ==> RollField(student) == Get(student, "rollNumber")
    ensures Given(Get(student, "Name of the Student (As per SSC)")) ==>
      NameField(student) == Get(student, "Name of the Student (As per SSC)")
    ensures !Given(Get(student, "Name of the Student (As per SSC)")) && Given(Get(student, "Name of the Student")) ==>
      NameField(student) == Get(student, "Name of the Student")
    ensures !Given(Get(student, "Name of the Student (As per SSC)")) && !Given(Get(student, "Name of the Student")) ==>
      NameField(student) == Get(student, "fullName")
    ensures Given(Get(student, "Mobile No. of the Student")) ==>
      PhoneField(student) == Get(student, "Mobile No. of the Student")
    ensures !Given(Get(student, "Mobile No. of the Student")) && Given(Get(student, "Student Mobile")) ==>
      PhoneField(student) == Get(student, "Student Mobile")
    ensures !Given(Get(student, "Mobile No. of the Student")) && !Given(Get(student, "Student Mobile")) ==>
      PhoneField(student) == Get(student, "phoneNumber")
  {
  }

  /**
   * A record without a usable e-mail but with a roll number gets the
   * placeholder built from the roll number as given, lower-cased.
   */
  lemma PlaceholderFromRoll(student: Json)
    requires !Filled(Trimmed(EmailField(student)))
    requires Filled(Normalise(student).rollNumber)
    ensures Normalise(student).email == Some(Lower(Trim(ToJsString(RollField(student).value))) + PlaceholderDomain)
  {
    LowerOfUpper(Trim(ToJsString(RollField(student).value)));
  }

  /** An upper-cased trimmed value is trimmed and upper-case. */
  lemma UpperTrimmedIsNormal(x: string)
    ensures var t := Upper(Trim(x)); Trim(t) == t && Upper(t) == t
  {
    UpperKeepsEnds(Trim(x));
    UpperIdempotent(Trim(x));
  }

  /** A placeholder built from a trimmed roll number passes the e-mail setters unchanged. */
  lemma PlaceholderIsNormal(roll: string)
    requires roll != "" && !IsSpace(roll[0])
    ensures NormalizeEmail(PlaceholderEmail(roll)) == PlaceholderEmail(roll)
  {
    var e := PlaceholderEmail(roll);
    assert e[0] == LowerChar(roll[0]);
    assert e[|e| - 1] == 'm';
    TrimOfTrimmed(e);
    LowerConcat(Lower(roll), PlaceholderDomain);
    LowerIdempotent(roll);
    LowerOfLowerCase(PlaceholderDomain);
  }

  /** The normalised e-mail, given or placeholder, passes the e-mail setters unchanged. */
  lemma NormalisedEmailIsNormal(student: Json)
    requires Complete(Normalise(student))
    ensures NormalizeEmail(Normalise(student).email.value) == Normalise(student).email.value
  {
    var email := EmailField(student);
    var n := Normalise(student);
    if Filled(Trimmed(email)) {
      var e := ToJsString(email.value);
      assert Lower(Trim(e)) != [];
      assert n.email == Some(NormalizeEmail(e));
      NormalizeEmailIdempotent(e);
    } else {
      var t := Trim(ToJsString(RollField(student).value));
      assert n.rollNumber == Some(Upper(t)) && t != [];
      assert n.email == Some(PlaceholderEmail(Upper(t)));
      assert !IsSpace(t[0]) && Upper(t)[0] == UpperChar(t[0]);
      UpperTrimmedIsNormal(ToJsString(RollField(student).value));
      PlaceholderIsNormal(Upper(t));
    }
  }

  /** The normalised values are fixed points of the schema's setters: saving them changes nothing. */
  lemma NormalisedIsNormal(student: Json)
    requires Complete(Normalise(student))
    ensures var n := Normalise(student);
      && Trim(n.fullName.value) == n.fullName.value && Trim(n.phoneNumber.value) == n.phoneNumber.value
      && Trim(n.rollNumber.value) == n.rollNumber.value && Upper(n.rollNumber.value) == n.rollNumber.value
      && NormalizeEmail(n.email.value) == n.email.value
  {
    TrimIdempotent(ToJsString(NameField(student).value));
    TrimIdempotent(ToJsString(PhoneField(student).value));
    UpperTrimmedIsNormal(ToJsString(RollField(student).value));
    NormalisedEmailIsNormal(student);
  }

  /** All four core fields are present after normalisation. */
  predicate Complete(n: Normalised) {
    Filled(n.fullName) && Filled(n.email) && Filled(n.rollNumber) && Filled(n.phoneNumber)
  }

  /** The document `new User({...})` builds from a complete record. */
  function StudentUser(n: Normalised, student: Json, hashedPassword: string, id: string, now: int): (u: User)
    requires Complete(n)
    ensures u.isApproved && u.approvedAt == Some(now) && u.branch == "" && u.academicYear == ""
    ensures u.isAdmin <==> Get(student, "isAdmin") == Some(JBool(true))
  {
    var card := Get(student, "collegeIdCardImage");
    var u := NewUser(id, n.fullName.value, n.email.value, n.phoneNumber.value, n.rollNumber.value, "", "",
                     hashedPassword, if Given(card) then ToJsString(card.value) else PlaceholderIdCard, now);
    u.(isApproved := true, isAdmin := Get(student, "isAdmin") == Some(JBool(true)), approvedAt := Some(now))
  }

  // ---------------------------------------------------------------- one record

  datatype StepResult = Skip | Seeded(user: User) | Abort

  /**
   * One iteration of the inner loop. A `null` record aborts the whole run
   * (reading a field of it throws outside the per-record `try`); a record
   * missing a core field, one whose e-mail or roll number is stored, and one
   * whose save fails are skipped.
   */
  function StudentStep(docs: seq<User>, student: Json, hashedPassword: string, hash: string -> string,
                       id: string, now: int): (r: StepResult)
    ensures r == Abort <==> student.JNull?
    ensures !student.JNull? && !Complete(Normalise(student)) ==> r == Skip
    ensures r.Seeded? ==> var n := Normalise(student);
      Complete(n) && !EmailOrRollTaken(docs, NormalizeEmail(n.email.value), Trim(n.rollNumber.value))
      && r.user.isApproved && r.user.password == hash(hashedPassword)
  {
    if student.JNull? then Abort
    else
      var n := Normalise(student);
      if !Complete(n) then Skip
      else if EmailOrRollTaken(docs, NormalizeEmail(n.email.value), Trim(n.rollNumber.value)) then Skip
      else match SaveOutcomeOf(docs, StudentUser(n, student, hashedPassword, id, now), true, true, hash)
        case Stored(s) => Seeded(s)
        case _ => Skip
  }

  /** A complete record whose e-mail or roll number is already stored is skipped. */
  lemma StudentStepSkipsDuplicates(docs: seq<User>, student: Json, hashedPassword: string, hash: string -> string,
                                   id: string, now: int, i: nat)
    requires !student.JNull? && Complete(Normalise(student))
    requires i < |docs|
    requires docs[i].email == Normalise(student).email.value || docs[i].rollNumber == Normalise(student).rollNumber.value
    ensures StudentStep(docs, student, hashedPassword, hash, id, now) == Skip
  {
    NormalisedIsNormal(student);
  }

  /**
   * No record is ever stored: the schema requires `branch` and
   * `academicYear`, which the script never sets, so every save fails
   * validation.
   */
  lemma StudentStepNeverSeeds(docs: seq<User>, student: Json, hashedPassword: string, hash: string -> string,
                              id: string, now: int)
    ensures !StudentStep(docs, student, hashedPassword, hash, id, now).Seeded?
  {
  }

  /** The fallbacks, trims, case changes and placeholder e-mail, assigned one variable at a time. */
  method NormaliseRecord(student: Json) returns (n: Normalised)
    ensures n == Normalise(student)
  {
    var rollNumber := RollField(student);
    var fullName := NameField(student);
    var email := EmailField(student);
    var phoneNumber := PhoneField(student);
    var finalPhoneNumber := Trimmed(phoneNumber);
    var finalEmail := if Given(email) then Some(Lower(Trimmed(email).value)) else None;
    var finalFullName := Trimmed(fullName);
    var finalRollNumber := if Given(rollNumber) then Some(Upper(Trimmed(rollNumber).value)) else None;
    if !Filled(finalEmail) && Filled(finalRollNumber) {
      finalEmail := Some(PlaceholderEmail(finalRollNumber.value));
    }
    n := Normalised(finalFullName, finalEmail, finalRollNumber, finalPhoneNumber);
  }

  /** The inner `try`, saving one record through the store. */
  method SeedStudent(store: UserStore, student: Json, hashedPassword: string, hash: string -> string,
                     id: string, now: int) returns (r: StepResult)
    requires store.Valid()
    modifies store
    ensures store.Valid()
    ensures r == StudentStep(old(store.docs), student, hashedPassword, hash, id, now)
    ensures store.docs == if r.Seeded? then Written(old(store.docs), r.user) else old(store.docs)
  {
    if student.JNull? {
      return Abort;
    }
    var n := NormaliseRecord(student);
    if !Filled(n.fullName) || !Filled(n.email) || !Filled(n.rollNumber) || !Filled(n.phoneNumber) {
      return Skip;
    }
    if EmailOrRollTaken(store.docs, NormalizeEmail(n.email.value), Trim(n.rollNumber.value)) {
      return Skip;
    }
    assert Complete(n) && !EmailOrRollTaken(old(store.docs), NormalizeEmail(n.email.value), Trim(n.rollNumber.value));
    var newUser := StudentUser(n, student, hashedPassword, id, now);
    var saved := store.Save(newUser, true, true, hash);
    match saved
    case Stored(u) => r := Seeded(u);
    case _ => r := Skip;
  }

  // ---------------------------------------------------------------- the run

  datatype SeedFile = SeedFile(name: string, content: Option<Json>)

  /** `files.filter(file => file.endsWith('.json'))`. */
  function JsonFiles(files: seq<SeedFile>): (r: seq<SeedFile>)
    ensures |r| <= |files|
    ensures forall f :: f in r <==> f in files && EndsWith(f.name, ".json")
  {
    if |files| == 0 then []
    else (if EndsWith(files[0].name, ".json") then [files[0]] else []) + JsonFiles(files[1..])
  }

  /** The records of a file whose content parsed to an array; None for a file skipped whole. */
  function Records(f: SeedFile): Option<seq<Json>> {
    if f.content.Some? && f.content.value.JArr? then Some(f.content.value.items) else None
  }

  /** The state of a run: the collection, the two counters and whether an error ended it. */
  datatype Run = Run(docs: seq<User>, seeded: nat, skipped: nat, aborted: bool)

  /** The parameters every record is seeded with: the script's hash of the default password, bcrypt, the clock and the ids. */
  datatype Setting = Setting(hashedPassword: string, hash: string -> string, now: int, ids: nat -> string)

  /** One record applied to a run; the new document's id is chosen by the record's position in the run. */
  function Step(r: Run, student: Json, c: Setting): Run {
    if r.aborted then r
    else Advance(r, StudentStep(r.docs, student, c.hashedPassword, c.hash, c.ids(r.seeded + r.skipped), c.now))
  }

  /** The counters after one record: an error ends the run, a skip or a save raises its counter. */
  function Advance(r: Run, step: StepResult): Run {
    match step
    case Abort => r.(aborted := true)
    case Skip => r.(skipped := r.skipped + 1)
    case Seeded(u) => r.(docs := Written(r.docs, u), seeded := r.seeded + 1)
  }

  /** The records of one file, in order. */
  function SeedRecords(r: Run, students: seq<Json>, c: Setting): Run
    decreases |students|
  {
    if |students| == 0 then r
    else Step(SeedRecords(r, students[..|students| - 1], c), students[|students| - 1], c)
  }

  function FileStep(r: Run, f: SeedFile, c: Setting): Run {
    match Records(f)
    case None => r
    case Some(students) => SeedRecords(r, students, c)
  }

  /** The outer loop over the `.json` files, in order. */
  function SeedFiles(r: Run, files: seq<SeedFile>, c: Setting): Run
    decreases |files|
  {
    if |files| == 0 then r
    else FileStep(SeedFiles(r, files[..|files| - 1], c), files[|files| - 1], c)
  }

  /** The number of records in the files whose content is an array. */
  function RecordCount(files: seq<SeedFile>): nat
    decreases |files|
  {
    if |files| == 0 then 0
    else RecordCount(files[..|files| - 1]) + RecordsIn(files[|files| - 1])
  }

  function RecordsIn(f: SeedFile): nat {
    match Records(f)
    case None => 0
    case Some(students) => |students|
  }

  datatype Report = Aborted | NothingToSeed | Completed(seeded: nat, skipped: nat)

  /** The report and final collection of the whole script. */
  function SeedOutcome(docs: seq<User>, files: seq<SeedFile>, c: Setting, adminId: string): (r: (Report, seq<User>))
    ensures AdminUpsert(docs, c.hash(AdminPassword), c.now, adminId).None? ==> r == (Aborted, docs)
    ensures AdminUpsert(docs, c.hash(AdminPassword), c.now, adminId).Some? && JsonFiles(files) == [] ==>
      r == (NothingToSeed, AdminUpsert(docs, c.hash(AdminPassword), c.now, adminId).value)
  {
    match AdminUpsert(docs, c.hash(AdminPassword), c.now, adminId)
    case None => (Aborted, docs)
    case Some(withAdmin) =>
      var jsonFiles := JsonFiles(files);
      if |jsonFiles| == 0 then (NothingToSeed, withAdmin)
      else
        var r := SeedFiles(Run(withAdmin, 0, 0, false), jsonFiles, c);
        (if r.aborted then Aborted else Completed(r.seeded, r.skipped), r.docs)
  }

  // ---------------------------------------------------------------- properties of the run

  /** An aborted run ignores the records that follow. */
  lemma {:induction false} AbortedStays(r: Run, students: seq<Json>, c: Setting)
    ensures r.aborted ==> SeedRecords(r, students, c) == r
    decreases |students|
  {
    if |students| > 0 {
      AbortedStays(r, students[..|students| - 1], c);
    }
  }

  /** Every record of a file that does not abort the run is counted exactly once, and none is stored. */
  lemma {:induction false} RecordsCounted(r: Run, students: seq<Json>, c: Setting)
    requires !SeedRecords(r, students, c).aborted
    ensures var e := SeedRecords(r, students, c);
      e.seeded == r.seeded && e.skipped == r.skipped + |students| && e.docs == r.docs && !r.aborted
    decreases |students|
  {
    if |students| > 0 {
      var before := SeedRecords(r, students[..|students| - 1], c);
      RecordsCounted(r, students[..|students| - 1], c);
      StudentStepNeverSeeds(before.docs, students[|students| - 1], c.hashedPassword, c.hash,
                            c.ids(before.seeded + before.skipped), c.now);
    }
  }

  /** Over all files: every record of an array file adds one to `skipped`, nothing is seeded. */
  lemma {:induction false} FilesCounted(r: Run, files: seq<SeedFile>, c: Setting)
    requires !SeedFiles(r, files, c).aborted
    ensures var e := SeedFiles(r, files, c);
      e.seeded == r.seeded && e.skipped == r.skipped + RecordCount(files) && e.docs == r.docs
    decreases |files|
  {
    if |files| > 0 {
      var before := SeedFiles(r, files[..|files| - 1], c);
      var f := files[|files| - 1];
      if Records(f).Some? {
        AbortedStays(before, Records(f).value, c);
        RecordsCounted(before, Records(f).value, c);
      }
      FilesCounted(r, files[..|files| - 1], c);
    }
  }

  /**
   * A completed run reports every record of the array-valued `.json` files
   * as skipped and none as seeded, and leaves the collection as the admin
   * upsert left it.
   */
  lemma SeedReportsAllSkipped(docs: seq<User>, files: seq<SeedFile>, c: Setting, adminId: string)
    requires SeedOutcome(docs, files, c, adminId).0.Completed?
    ensures var (report, after) := SeedOutcome(docs, files, c, adminId);
      && report.seeded == 0
      && report.skipped == RecordCount(JsonFiles(files))
      && after == AdminUpsert(docs, c.hash(AdminPassword), c.now, adminId).value
  {
    var withAdmin := AdminUpsert(docs, c.hash(AdminPassword), c.now, adminId).value;
    FilesCounted(Run(withAdmin, 0, 0, false), JsonFiles(files), c);
  }

  // ---------------------------------------------------------------- the script

  /** The admin upsert through the store. */
  method UpsertAdmin(store: UserStore, hashed: string, now: int, newId: string) returns (ok: bool)
    requires store.Valid()
    modifies store
    ensures store.Valid()
    ensures ok <==> AdminUpsert(old(store.docs), hashed, now, newId).Some?
    ensures store.docs == if ok then AdminUpsert(old(store.docs), hashed, now, newId).value else old(store.docs)
  {
    var after := AdminUpsert(store.docs, hashed, now, newId);
    if after.None? {
      return false;
    }
    AdminUpsertEffect(store.docs, hashed, now, newId);
    store.docs := after.value;
    ok := true;
  }

  /** The records of one file, through the store; stops at an aborting record. */
  method SeedFileRecords(store: UserStore, students: seq<Json>, c: Setting, start: Run) returns (r: Run)
    requires store.Valid() && !start.aborted && store.docs == start.docs
    modifies store
    ensures store.Valid()
    ensures r == SeedRecords(start, students, c) && store.docs == r.docs
  {
    var seeded: nat, skipped: nat := start.seeded, start.skipped;
    var i := 0;
    while i < |students|
      invariant 0 <= i <= |students|
      invariant store.Valid()
      invariant Run(store.docs, seeded, skipped, false) == SeedRecords(start, students[..i], c)
    {
      SeedRecordsSnoc(start, students, i, c);
      var next := SeedOne(store, Run(store.docs, seeded, skipped, false), students[i], c);
      if next.aborted {
        AbortedAtEnd(start, students, i + 1, c);
        return next;
      }
      seeded, skipped := next.seeded, next.skipped;
      i := i + 1;
    }
    assert students[..i] == students;
    r := Run(store.docs, seeded, skipped, false);
  }

  /** One iteration of the inner loop: the record saved through the store, then the matching counter raised. */
  method SeedOne(store: UserStore, run: Run, student: Json, c: Setting) returns (next: Run)
    requires store.Valid() && !run.aborted && store.docs == run.docs
    modifies store
    ensures store.Valid()
    ensures next == Step(run, student, c) && store.docs == next.docs
  {
    var step := SeedStudent(store, student, c.hashedPassword, c.hash, c.ids(run.seeded + run.skipped), c.now);
    next := Advance(run, step);
  }

  /** One more record extends the run of the records before it by one step. */
  lemma SeedRecordsSnoc(r: Run, students: seq<Json>, i: nat, c: Setting)
    requires i < |students|
    ensures SeedRecords(r, students[..i + 1], c) == Step(SeedRecords(r, students[..i], c), students[i], c)
  {
    assert students[..i + 1][..i] == students[..i];
  }

  /** An aborted prefix is the whole run of the file. */
  lemma {:induction false} AbortedAtEnd(r: Run, students: seq<Json>, i: nat, c: Setting)
    requires i <= |students| && SeedRecords(r, students[..i], c).aborted
    ensures SeedRecords(r, students, c) == SeedRecords(r, students[..i], c)
    decreases |students| - i
  {
    if i < |students| {
      assert students[..i + 1][..i] == students[..i];
      AbortedAtEnd(r, students, i + 1, c);
    } else {
      assert students[..i] == students;
    }
  }

  /** The outer loop over the `.json` files, through the store; stops when a record aborts the run. */
  method SeedAllFiles(store: UserStore, jsonFiles: seq<SeedFile>, c: Setting, start: Run) returns (r: Run)
    requires store.Valid() && !start.aborted && store.docs == start.docs
    modifies store
    ensures store.Valid()
    ensures r == SeedFiles(start, jsonFiles, c) && store.docs == r.docs
  {
    var usersSeededCount, usersSkippedCount := start.seeded, start.skipped;
    var j := 0;
    while j < |jsonFiles|
      invariant 0 <= j <= |jsonFiles|
      invariant store.Valid()
      invariant Run(store.docs, usersSeededCount, usersSkippedCount, false) == SeedFiles(start, jsonFiles[..j], c)
    {
      assert jsonFiles[..j + 1][..j] == jsonFiles[..j];
      var records := Records(jsonFiles[j]);
      if records.Some? {
        var after := SeedFileRecords(store, records.value, c,
                                     Run(store.docs, usersSeededCount, usersSkippedCount, false));
        if after.aborted {
          AbortedFilesAtEnd(start, jsonFiles, j + 1, c);
          return after;
        }
        usersSeededCount, usersSkippedCount := after.seeded, after.skipped;
      }
      j := j + 1;
    }
    assert jsonFiles[..j] == jsonFiles;
    r := Run(store.docs, usersSeededCount, usersSkippedCount, false);
  }

  /**
   * `seedDatabase`: the admin upsert, then the nested loops over the
   * `.json` files and their records, counting seeded and skipped records.
   */
  method SeedDatabase(store: UserStore, files: seq<SeedFile>, c: Setting, adminId: string) returns (report: Report)
    requires store.Valid()
    modifies store
    ensures store.Valid()
    ensures (report, store.docs) == SeedOutcome(old(store.docs), files, c, adminId)
  {
    var ok := UpsertAdmin(store, c.hash(AdminPassword), c.now, adminId);
    if !ok {
      return Aborted;
    }
    var jsonFiles := JsonFiles(files);
    if |jsonFiles| == 0 {
      return NothingToSeed;
    }
    var r := SeedAllFiles(store, jsonFiles, c, Run(store.docs, 0, 0, false));
    report := if r.aborted then Aborted else Completed(r.seeded, r.skipped);
  }

  /** An aborted prefix of the files is the whole run. */
  lemma {:induction false} AbortedFilesAtEnd(r: Run, files: seq<SeedFile>, j: nat, c: Setting)
    requires j <= |files| && SeedFiles(r, files[..j], c).aborted
    ensures SeedFiles(r, files, c) == SeedFiles(r, files[..j], c)
    decreases |files| - j
  {
    if j < |files| {
      assert files[..j + 1][..j] == files[..j];
      var before := SeedFiles(r, files[..j], c);
      if Records(files[j]).Some? {
        AbortedStays(before, Records(files[j]).value, c);
      }
      AbortedFilesAtEnd(r, files, j + 1, c);
    } else {
      assert files[..j] == files;
    }
  }
}
