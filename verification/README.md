# NNRG Connect — a verified model of the server core

NNRG Connect is a college community web application with an Express
server over MongoDB. This project models its server core in Dafny and
proves properties of that model:

- **Users and registration.**
  - the User collection: its setters, validators, unique indexes and password-hashing pre-save hook;
  - registration and sign-in;
  - the admin's approval queue: list, approve, reject, list everybody.
- **Profiles.**
  - the profile-picture upload filter;
  - the profile update;
  - the directory search and the random suggestions.
- **Connections.**
  - the Connection collection, with its ordering hook and unique pair index;
  - creating a connection;
  - listing one's connections;
  - the single and bulk "are we connected?" lookups.
- **Career help.**
  - resume analysis and career tips: the prompts built and the error replies.
- **Seeding.**
  - the seeding script: admin upsert, student records normalised and counted.
- **Server-wide pieces.**
  - the `res.json` wrapper that makes stored upload paths absolute;
  - the global error handler.

How the model is shaped:

- **Collections.** Each collection is a class, `UserModel.UserStore` or `ConnectionModel.ConnectionStore`. It holds the stored documents as a `seq`. Its `Save` method validates, runs the hook and enforces the unique indexes.
- **Controllers.** Each controller action is a method over the store. Its contract equates the reply and the new collection with a function of the old collection (`...Outcome`). The properties the application relies on are proved about those functions as lemmas.
- **Reply bodies.** A controller's reply is the body it passes to `res.json`, before `Server.SendJson` makes the picture and ID card paths absolute. This matters for `getPendingUsers`, `getAllUsers`, the profile update, the search and the suggestions; `Server.Absolutise` states what the client finally receives.
- **Saves.** `UserStore.Save` is told whether the document is new. A new document is inserted, so an `_id` already stored is a duplicate-key error; a found document is written back in place.
- **Plain values.**
  - A request value that is absent is `None` (or the empty string where the code only tests truthiness).
  - JavaScript values are the `Json.Json` datatype, with JavaScript truthiness and `String(x)`.
  - ObjectIds are 24-digit hex strings. `ObjectId.isValid` accepts upper-case digits, and casting lower-cases them.
- **Parameters.** Everything the server gets from outside is a parameter:
  - bcrypt (`hash`, `matches`) and `jwt.sign` (`sign`);
  - the clock (`now`) and fresh ObjectIds (`id`, `newId`, `ids`);
  - PDF text extraction (`parsed`) and the Gemini call (`generate`);
  - the seed script's directory listing and file contents (`files`);
  - the path test before deleting an old profile picture (`underUploads`).

Two facts the proofs bring out about the code as written:

- **The seed script stores no student.** The User schema requires `branch` and `academicYear`, and the script never sets them. Every student save therefore fails validation and is counted as skipped (`Seed.StudentStepNeverSeeds`, `Seed.SeedReportsAllSkipped`). The intended values are unknown, so this is stated rather than corrected.
- **The script's default password would be hashed twice**, once by the script and once by the pre-save hook. This is visible in `Seed.StudentStep`'s contract. It is moot while no save succeeds.

## Model

| member | source | states |
|---|---|---|
| UserModel.NormalizeEmail | server/models/User.js:6-13 | the trim and lowercase setters leave no white space at either end of the stored e-mail |
| UserModel.NormalizeEmailIdempotent | server/models/User.js:10-11 | applying the e-mail setters to an already normalised e-mail changes nothing |
| UserModel.ValidEmailParts | server/models/User.js:12 | the e-mail pattern accepts a word run, `@`, a word run and a final two- or three-character label |
| UserModel.NewUser | server/models/User.js:4-41 | a new document stores its id, the trimmed name, phone, roll number, branch and year, the normalised e-mail, the given password and ID card path, and `createdAt` now; it is unapproved, not an admin, has empty picture and LinkedIn URLs, shows e-mail and phone, has no connections and no approval time or approver |
| UserModel.NewUserMeetsSchema | server/models/User.js:4-22 | a registration whose paths are not blank and whose normalised e-mail matches the pattern passes every validator |
| UserModel.PasswordHook | server/models/User.js:44-56 | the password is replaced by its hash exactly when it was modified, and no other path changes |
| UserModel.SaveOutcomeOf | server/models/User.js:4-56 | `save()` fails validation exactly when the schema is not met; it is a duplicate-key error exactly when the hooked document shares an e-mail or roll number with another document, or is new and its `_id` is already stored; otherwise it stores the hooked document, and a new one under an unused `_id` |
| UserModel.WrittenKeepsUnique | server/models/User.js:9-15 | a write that clashes with no other document keeps `_id`, `email` and `rollNumber` unique |
| UserModel.IndexOfId | server/controllers/adminController.js:23 | `findById` finds a document with the id, or there is none |
| UserModel.IndexOfIdUnique | server/controllers/adminController.js:23 | with unique ids, `findById` finds the one document holding the id |
| UserModel.IndexOfIdReplace | server/controllers/adminController.js:31-34 | replacing a found document by one with the same id leaves it found at the same place |
| UserModel.IndexOfEmail | server/controllers/authController.js:85 | `findOne({ email })` finds a document with that e-mail, or there is none |
| UserModel.RemoveAt | server/controllers/adminController.js:60 | deleting by index keeps every other document in order |
| UserModel.RemoveAtKeepsUnique | server/controllers/adminController.js:60 | a deletion keeps the unique indexes |
| UserModel.ToObject | server/controllers/userController.js:121 | `toObject()` carries the password, the two upload paths and `__v`, with the document's password and paths as values |
| UserModel.ToObjectPaths | server/models/User.js:4-41 | the object has exactly the schema's paths plus `_id` and `__v`, with `approvedAt` and `approvedBy` present exactly when set, holding their values |
| UserModel.UserStore.Save | server/models/User.js:44-56 | a save through the store returns the save outcome and stores the hooked document; the unique indexes still hold |
| UserModel.UserStore.DeleteAt | server/controllers/adminController.js:60 | `findByIdAndDelete` removes exactly that document and keeps the indexes |
| ConnectionModel.PreSaveOrder | server/models/Connection.js:29-40 | the hook leaves the two ids ordered (`user1 <= user2` as strings) and holding the same pair; a pair with a missing id is untouched |
| ConnectionModel.PreSaveIdempotent | server/models/Connection.js:29-40 | running the hook on its own output changes nothing |
| ConnectionModel.PreSaveSymmetric | server/models/Connection.js:29-40 | both orders of one pair of ids are stored as the same pair |
| ConnectionModel.OrderedPairUnique | server/models/Connection.js:25 | two ordered pairs holding the same two ids are equal |
| ConnectionModel.ConnectionDoc.PreSave | server/models/Connection.js:29-40 | the hook updates the document in place to the ordered pair and changes nothing else |
| ConnectionModel.FindKey | server/controllers/connectionController.js:38 | `findOne({ user1, user2 })` returns a stored edge with that key, or none has it |
| ConnectionModel.FindKeyAppend | server/controllers/connectionController.js:38 | after an edge is appended, earlier keys are found as before and the new key finds the new edge |
| ConnectionModel.AtMostOneEdgePerPair | server/models/Connection.js:25-40 | the unique index together with the hook allows at most one edge per unordered pair of users |
| ConnectionModel.SaveOutcomeOf | server/models/Connection.js:4-40 | validation fails exactly when an id is missing; a saved edge is the ordered pair, under a key and an `_id` not yet stored; a duplicate-key error means the `_id` or the pair is already stored |
| ConnectionModel.SaveDuplicateIff | server/models/Connection.js:25-40 | over well-formed edges, a save of two ids is a duplicate-key error exactly when its `_id` is taken or the same two users, in either order, are already stored |
| ConnectionModel.SaveKeepsValid | server/models/Connection.js:25-40 | a save keeps every edge ordered and the indexes unique |
| ConnectionModel.SecondSaveOfPairFails | server/models/Connection.js:25 | saving a stored pair again, in either order, is a duplicate-key error |
| ConnectionModel.ConnectionStore.Save | server/models/Connection.js:4-40 | a save through the store runs the hook on the document, returns the save outcome and appends the saved edge |
| Connections.OrderedUserIds | server/controllers/connectionController.js:6-10 | the helper returns the same two ids with the smaller one first |
| Connections.OrderedUserIdsSymmetric | server/controllers/connectionController.js:6-10 | the order of the arguments does not matter |
| Connections.OrderedUserIdsAgreesWithHook | server/controllers/connectionController.js:28 | the controller's order is the one the hook keeps, so the hook never swaps it |
| Connections.ConnectPlan | server/controllers/connectionController.js:16-43 | corrected check chain: 400 for a missing, malformed or own id (compared after casting); an insert is never a self-edge, names a stored target and a key not yet stored |
| Connections.ConnectPlanAsWritten | server/controllers/connectionController.js:20-43 | the chain as written compares the raw request string; a planned insert holds the cast ids of both users |
| Connections.SelfConnectionAsWritten | server/controllers/connectionController.js:20-28 | the upper-case spelling of one's own stored id passes every check and plans the self-edge |
| Connections.ReplyForSave | server/controllers/connectionController.js:44-53 | the reply is 201 exactly when the save stored the edge; otherwise 409 for a duplicate key, else 500 |
| Connections.ConnectOutcome | server/controllers/connectionController.js:12-54 | corrected check chain: any reply but 201 leaves the edges unchanged, and a 201 appends one edge after the stored ones |
| Connections.ConnectOutcomeAsWritten | server/controllers/connectionController.js:12-54 | the chain as written: any reply but 201 leaves the edges unchanged, and a 201 appends one edge after the stored ones |
| Connections.SelfConnectionStoredAsWritten | server/controllers/connectionController.js:20-46 | as written, the upper-case spelling of one's own id gets 201 and stores the self-edge |
| Connections.CreateConnection | server/controllers/connectionController.js:12-54 | corrected check chain: the reply and the new edges are those of `ConnectOutcome`, the check chain followed by a save through the store |
| Connections.ConnectEarlyRejects | server/controllers/connectionController.js:16-26 | corrected check chain: a missing, malformed or own target id (compared after casting) gets 400, whatever the collections hold |
| Connections.ConnectUnknownTarget | server/controllers/connectionController.js:32-35 | a target that is not a stored user gets 404, and no edge is added |
| Connections.ConnectAddsOneEdge | server/controllers/connectionController.js:43-46 | corrected check chain: a 201 appends exactly the ordered edge of the two users, which is not a self-edge; any other reply adds nothing |
| Connections.ConnectExisting | server/controllers/connectionController.js:38-41 | corrected check chain: an existing edge gets 409 with that edge, and nothing is added |
| Connections.ConnectTwice | server/controllers/connectionController.js:38-46 | corrected check chain: after a 201, repeating the request, or making it in the other direction, gets 409 and changes nothing |
| Connections.ConnectSucceeds | server/controllers/connectionController.js:16-53 | corrected check chain: a valid id of another stored user, with no edge at the pair's key and an unused `_id`, plans the insert of the ordered pair and gets 201 with that edge appended |
| Connections.ConnectAsWrittenOnCanonical | server/controllers/connectionController.js:16-54 | when both ids are spelled in lower-case hex, the chain as written and the corrected chain give the same plan, reply and edges |
| Connections.ExistingEdgeMissedAsWritten | server/controllers/connectionController.js:24-46 | as written, asking for an upper-case spelling of an already connected user misses the stored edge and gets the duplicate-key 409 without it; the corrected chain answers 409 with the edge |
| Connections.ConnectionStatus | server/controllers/connectionController.js:94-110 | 400 exactly when the target id is malformed |
| Connections.StatusSymmetric | server/controllers/connectionController.js:102-110 | for stored ids the status does not depend on which user asks |
| Connections.StatusConnectedIff | server/controllers/connectionController.js:102-110 | for stored ids the status reports connected exactly when an edge joins the two users |
| Connections.ConnectThenStatus | server/controllers/connectionController.js:94-110 | after a 201 the status of the pair reports connected |
| Connections.MatchingEdges | server/controllers/connectionController.js:127-132 | the bulk query finds exactly the stored edges with the user at one end and a requested id at the other |
| Connections.CheckBulkConnectionStatus | server/controllers/connectionController.js:117-157 | the two loops that build the `connectedIds` set and the status map yield `BulkStatus`; a `null` element writes the key "null" |
| Connections.BulkStatus | server/controllers/connectionController.js:117-157 | 400 exactly when `userIds` is missing, falsy, not an array or empty; otherwise 500 exactly when an element is neither `null` nor a 24-digit hex string; else 200 |
| Connections.JoinsOther | server/controllers/connectionController.js:136-143 | seen from one endpoint, an edge joins the user to `s` exactly when `s` is its other end |
| Connections.PeerSetLinked | server/controllers/connectionController.js:134-143 | a requested id is in `connectedIds` exactly when some edge joins it to the user |
| Connections.BulkStatusMeaning | server/controllers/connectionController.js:117-157 | a 200 has exactly the requested spellings as keys, a `null` element maps "null" to false, and a stored id maps to true exactly when an edge joins it to the user |
| Connections.BulkAgreesWithSingle | server/controllers/connectionController.js:117-157 | for stored ids the bulk answer agrees with the single status lookup |
| Connections.TouchingEdges | server/controllers/connectionController.js:60-64 | the listing query finds exactly the edges with the user at either end |
| Connections.ConnectionEntry | server/controllers/connectionController.js:67-85 | an entry shows the user at the other end of the edge; it throws exactly when a populated user is gone |
| Connections.Entries | server/controllers/connectionController.js:67-85 | the mapped list has one entry per edge, or fails at the first entry that throws |
| Connections.GetUserConnections | server/controllers/connectionController.js:56-92 | the reply is 200 with one entry per edge touching the user, or the 500 "Server error while fetching connections." |
| Connections.ListingMeaning | server/controllers/connectionController.js:56-92 | a 200 lists one entry per touching edge in store order, naming the other user; the reply is 500 exactly when an edge points at a user who is gone |
| Admin.PendingOf | server/controllers/adminController.js:9 | the pending filter keeps exactly the users that are neither approved nor admins |
| Admin.InsertByDate | server/controllers/adminController.js:11 | inserting into a newest-first list keeps it newest first and adds exactly that user |
| Admin.SortNewestFirst | server/controllers/adminController.js:11 | `sort({ createdAt: -1 })` gives a newest-first permutation |
| Admin.PendingView | server/controllers/adminController.js:10 | a pending entry is the document without `password` and `__v` |
| Admin.AdminView | server/controllers/adminController.js:87 | an entry of the full list is the document without `password` |
| Admin.AllUsers | server/controllers/adminController.js:87 | `sort({ createdAt: -1 })` of the whole collection: newest first, the same users with the same multiplicity |
| Admin.PendingUsers | server/controllers/adminController.js:9-11 | the pending list is newest first, holds exactly the pending users and keeps their multiplicity |
| Admin.GetPendingUsers | server/controllers/adminController.js:6-17 | the reply is 200 with one entry per pending user, in that order |
| Admin.PendingListing | server/controllers/adminController.js:6-17 | every pending user is listed, and every entry is a pending user's view |
| Admin.GetAllUsers | server/controllers/adminController.js:85-93 | 200 with one entry per stored user, the i-th being the admin view of the i-th user newest first |
| Admin.AllUsersListed | server/controllers/adminController.js:85-93 | every stored user's view is listed, and every entry is some stored user's view without a password |
| Admin.Approved | server/controllers/adminController.js:31-33 | an approval sets `isApproved`, `approvedAt` and `approvedBy`, and nothing else |
| Admin.ApproveReply | server/controllers/adminController.js:34-41 | 200 exactly when the save stored the user |
| Admin.ApproveOutcome | server/controllers/adminController.js:20-43 | any reply other than 200 leaves the collection unchanged |
| Admin.ApproveUser | server/controllers/adminController.js:20-43 | the reply and the new collection are those of `ApproveOutcome`, and the indexes still hold |
| Admin.ApproveUnknown | server/controllers/adminController.js:23-26 | an unknown id gets 404 and changes nothing |
| Admin.ApproveEffect | server/controllers/adminController.js:27-34 | a 200 approves the one pending user found, keeps its password and leaves every other user as it was |
| Admin.ApproveSucceeds | server/controllers/adminController.js:20-41 | a valid id of a stored, unapproved user that meets the schema gets 200 and the approved document replaces it |
| Admin.ApproveTwice | server/controllers/adminController.js:27-29 | a second approval gets 400 and keeps the first approval's time and approver |
| Admin.RejectOutcome | server/controllers/adminController.js:46-82 | any reply other than 200 leaves the collection unchanged |
| Admin.RejectUser | server/controllers/adminController.js:46-82 | the reply and the new collection are those of `RejectOutcome`, and the indexes still hold |
| Admin.RejectEffect | server/controllers/adminController.js:49-60 | a 200 removes exactly the user with the id, and every other user is still stored |
| Admin.RejectSucceeds | server/controllers/adminController.js:46-77 | a valid id of a stored, unapproved user gets the 200 naming the user, and exactly that document is deleted |
| Auth.Registrant | server/controllers/authController.js:35-44 | the new user is unapproved, not an admin, has no connections, no approval time or approver, empty picture and LinkedIn URLs, `createdAt` now, and stores the ID card path |
| Auth.Registered | server/controllers/authController.js:50-58 | the 201 body carries id, name, e-mail and roll number, and no token |
| Auth.SignupOutcome | server/controllers/authController.js:14-74 | a missing field or a missing file gets 400 and stores nothing; only a 201 changes the collection, and then the upload is kept |
| Auth.Signup | server/controllers/authController.js:14-74 | the reply, the new collection and the upload deletion are those of `SignupOutcome`; a `newId` already stored makes the save a duplicate, hence 500 |
| Auth.SignupEffect | server/controllers/authController.js:35-46 | a 201 appends one unapproved user with the normalised e-mail, the ID card path and the hashed password, for any `newId` |
| Auth.SignupSucceeds | server/controllers/authController.js:14-58 | a complete registration with an ID card, whose e-mail and roll number nobody holds, whose document meets the schema and whose new id is unused, gets 201 and appends the registrant with its password hashed |
| Auth.SignupDuplicate | server/controllers/authController.js:27-32 | a stored e-mail or roll number gets 400, deletes the upload and stores nothing |
| Auth.TokenClaims | server/controllers/authController.js:100-108 | the token payload has exactly id, name, e-mail, roll number and the admin flag, with the user's values |
| Auth.Signin | server/controllers/authController.js:77-127 | missing credentials get 400; a 200 means a stored user with the e-mail whose password matches and who is approved, with the signed token and the claims |
| Auth.SigninApproved | server/controllers/authController.js:84-121 | an approved stored user with matching password gets exactly 200 with a token signed over the claims for "7d", and the claims |
| Auth.SigninChecksPasswordFirst | server/controllers/authController.js:90-97 | for an unapproved user a wrong password gets 400, and the right one gets 403 |
| Auth.SigninUnknownUser | server/controllers/authController.js:85-88 | an e-mail no user has gets 400 whatever the password |
| Auth.SignupThenSignin | server/controllers/authController.js:77-97 | right after registering, signing in with the same credentials gets 403 |
| Auth.RejectedUserCannotSignIn | server/controllers/authController.js:85-88 | once a registration is rejected, signing in with its e-mail reports an unknown user |
| Profiles.ImageFileFilter | server/controllers/userController.js:24-51 | an `image/` type is accepted exactly when it is one of the four listed types; any other type exactly when the name has an image extension; each rejection carries its message |
| Profiles.ImageFilterIgnoresNameForImageTypes | server/controllers/userController.js:28-38 | with an `image/` type the file name plays no part |
| Profiles.ImageFilterCaseExamples | server/controllers/userController.js:28-49 | the type list is case-sensitive, while the extension test is not |
| Profiles.ParseFlagExamples | server/controllers/userController.js:92-97 | `String(v).toLowerCase() === 'true'` accepts "TRUE", `true` and `["True"]`, and rejects "false", "yes", 1 and " true" |
| Profiles.PicturePath | server/controllers/userController.js:101 | a new picture is stored under `/uploads/profile-pics/` |
| Profiles.EditProfile | server/controllers/userController.js:87-116 | each of the four profile fields is set from the body or the file when given; nothing else changes; the old picture is deleted exactly when it is set, differs from the new one and lies under the uploads directory; a non-string LinkedIn URL throws |
| Profiles.AssignFields | server/controllers/userController.js:87-116 | assigning the fields one at a time gives `EditProfile` |
| Profiles.ProfileResponse | server/controllers/userController.js:121-129 | the reply has every key of the saved user except the seven deleted ones |
| Profiles.ProfileResponseFields | server/controllers/userController.js:121-131 | the reply carries the new picture path and none of the seven deleted keys |
| Profiles.StripHidden | server/controllers/userController.js:121-129 | the `delete` statements give `ProfileResponse` |
| Profiles.UpdateUserProfile | server/controllers/userController.js:78-147 | the reply, the new collection and the deleted picture are those of the profile update |
| Profiles.UpdateOutcome | server/controllers/userController.js:78-147 | an unknown user gets the 404 "User not found."; a reply other than 200 changes nothing; the only replies are 200, that 404 and the 500 "Server error while updating profile." |
| Profiles.UpdateTouchesOnlyProfile | server/controllers/userController.js:78-131 | a 200 changes only the signed-in user's record; password, e-mail, approval and admin flag are kept |
| Profiles.UpdateSucceeds | server/controllers/userController.js:78-131 | a found user whose edit succeeds and meets the schema gets 200 with the edited user's reply; that document is replaced and the edit's picture deletion is reported |
| Profiles.SearchView | server/controllers/userController.js:176-197 | a hidden e-mail or phone number is shown as `null`, and there is never a password |
| Profiles.SearchHits | server/controllers/userController.js:159-171 | the search keeps exactly the approved users other than the requester whose name (or roll number) contains the query ignoring case |
| Profiles.SearchUsers | server/controllers/userController.js:150-204 | 400 exactly when the query or the type is missing or the type is neither name nor rollNumber; otherwise 200 |
| Profiles.SearchMeaning | server/controllers/userController.js:150-199 | a 200 lists at most 20 users, all of them hits; when there are fewer than 20 hits, every hit is listed |
| Profiles.SuggestView | server/controllers/userController.js:240-256 | a hidden e-mail or phone number is left out of the card, and there is never a password |
| Profiles.SuggestionPool | server/controllers/userController.js:213-218 | corrected pool: exactly the approved users other than the requester |
| Profiles.SuggestionPoolAsWritten | server/controllers/userController.js:213-218 | the pool as written: exactly the approved users, the requester included |
| Profiles.SuggestReply | server/controllers/userController.js:240-258 | 200 with one card per sampled user, in order |
| Profiles.GetSuggestedUsers | server/controllers/userController.js:207-264 | corrected pool: the reply is the cards of some sample of the pool: at most five, each an approved user other than the requester |
| Profiles.SuggestionsIncludeRequesterAsWritten | server/controllers/userController.js:213-220 | when the requester is the only approved user, every sample as written is the requester |
| Profiles.RequesterSuggestedAsWritten | server/controllers/userController.js:213-258 | when the requester is the only approved user, the reply as written is the requester's own card |
| Profiles.SuggestCardsFromDocs | server/controllers/userController.js:213-258 | corrected pool: a sample gives at most five cards, each the card of a stored approved user other than the requester |
| Profiles.SuggestionsExcludeRequester | server/controllers/userController.js:213-220 | with the id compared as an ObjectId, no sample contains the requester |
| Career.ResumeUpload | server/controllers/careerController.js:8-20 | an upload is received exactly when it is a PDF of at most 5 MiB; any other type is rejected with the filter's message |
| Career.ResumeTextOf | server/controllers/careerController.js:40 | the text a resume prompt carries is the prompt minus the fixed head and tail |
| Career.ResumePromptRoundTrip | server/controllers/careerController.js:40 | the prompt gives back exactly the extracted text |
| Career.ResumeTextOfInverse | server/controllers/careerController.js:40 | every prompt of that shape is the prompt of the text it carries |
| Career.ResumeErrorReply | server/controllers/careerController.js:45-54 | 400 exactly for the upload messages, kept verbatim; otherwise 500, with the AI-service prefix on AI errors; the reply always ends with the error's message |
| Career.AnalyzeResume | server/controllers/careerController.js:25-55 | no file or an empty text gets 400; 200 exactly when the text is readable and the AI call succeeds, with its suggestions |
| Career.AnalyzeResumeAiFailure | server/controllers/careerController.js:50-52 | a failing AI call on a readable resume gets 500 with the AI-service prefix |
| Career.InterestTextsAreStringParts | server/controllers/careerController.js:66 | joining the interests with commas is `String(interests)`, the string JavaScript writes for the array |
| Career.TipsErrorReply | server/controllers/careerController.js:78-84 | always 500, with the AI-service prefix exactly on AI errors |
| Career.TipsReply | server/controllers/careerController.js:57-85 | no interest list gets 400; 200 exactly when the list is non-empty and the AI call succeeds, with its tips |
| Career.GetCareerTips | server/controllers/careerController.js:57-85 | building the prompt sentence by sentence gives the reply `TipsReply` describes |
| Career.TipsPromptLayout | server/controllers/careerController.js:66-73 | the prompt is the interests sentence, then the role sentence exactly when a role is given, then the level sentence exactly when a level is given, then the suffix |
| Career.TipsPromptNamesInterests | server/controllers/careerController.js:66 | every interest given as a string appears in the prompt |
| Seed.AdminFields | server/scripts/seedDatabase.js:23-33 | the `$set` makes the document an approved admin with the admin e-mail, the admin roll number and the given password hash |
| Seed.AdminUpsert | server/scripts/seedDatabase.js:35-39 | the document holding the admin e-mail gets the `$set` fields in place, every other document unchanged; without one, the new admin is appended; a clash on the roll number (or a used `newId`) is a failure |
| Seed.AdminUpsertEffect | server/scripts/seedDatabase.js:35-39 | the upsert keeps the unique indexes, and afterwards the admin e-mail finds an approved admin with the script's hash |
| Seed.AdminCanSignIn | server/scripts/seedDatabase.js:20-39 | after the upsert the administrator signs in with the script's password |
| Seed.AdminEmailIsNormal | server/scripts/seedDatabase.js:10 | the admin e-mail is already trimmed and lower-case |
| Seed.Trimmed | server/scripts/seedDatabase.js:87-90 | a field is a string exactly when its value is truthy |
| Seed.Normalise | server/scripts/seedDatabase.js:80-96 | name and phone are the trimmed fallbacks; the roll number is upper-cased; a given e-mail is trimmed and lower-cased; without one, the placeholder from the roll number is used |
| Seed.FieldPriority | server/scripts/seedDatabase.js:81-84 | the spreadsheet column names win over the field names, in the order written |
| Seed.PlaceholderFromRoll | server/scripts/seedDatabase.js:93-96 | without an e-mail, the placeholder is the lower-cased trimmed roll number at `@nnrgtemp.com` |
| Seed.NormalisedIsNormal | server/scripts/seedDatabase.js:86-96 | the normalised values are fixed points of the schema's setters |
| Seed.StudentUser | server/scripts/seedDatabase.js:120-130 | the new student is approved now, is an admin exactly when the record says `true`, and has no branch or academic year |
| Seed.StudentStep | server/scripts/seedDatabase.js:79-140 | a `null` record aborts the run; an incomplete record is skipped; a seeded one was not stored before and holds the hook's hash of the script's hash |
| Seed.StudentStepSkipsDuplicates | server/scripts/seedDatabase.js:110-118 | a record whose e-mail or roll number is stored is skipped |
| Seed.StudentStepNeverSeeds | server/scripts/seedDatabase.js:120-132 | no record is ever stored, because the required branch and academic year are never set |
| Seed.NormaliseRecord | server/scripts/seedDatabase.js:80-96 | the fallbacks, trims, case changes and placeholder, assigned one variable at a time, give `Normalise` |
| Seed.SeedStudent | server/scripts/seedDatabase.js:79-140 | one record through the store gives `StudentStep` and stores only a seeded user |
| Seed.JsonFiles | server/scripts/seedDatabase.js:52 | exactly the files whose names end in `.json` are processed |
| Seed.AbortedStays | server/scripts/seedDatabase.js:151-152 | once a record throws outside the per-record `try`, no later record is processed |
| Seed.RecordsCounted | server/scripts/seedDatabase.js:79-140 | each record of a file that does not abort adds one to `skipped`, and nothing is stored |
| Seed.FilesCounted | server/scripts/seedDatabase.js:62-141 | over all files, every record of an array file is counted as skipped |
| Seed.SeedReportsAllSkipped | server/scripts/seedDatabase.js:13-157 | a completed run reports zero seeded and every record skipped, and leaves the collection as the admin upsert left it |
| Seed.UpsertAdmin | server/scripts/seedDatabase.js:35-39 | the upsert through the store succeeds exactly when `AdminUpsert` does, and stores its result |
| Seed.SeedOne | server/scripts/seedDatabase.js:79-140 | one iteration of the inner loop through the store gives `Step`: an aborting record ends the run, any other raises the matching counter, and the store holds the run's collection |
| Seed.SeedFileRecords | server/scripts/seedDatabase.js:79-140 | the inner loop with its two counters gives `SeedRecords`, stopping at an aborting record |
| Seed.SeedAllFiles | server/scripts/seedDatabase.js:62-141 | the outer loop over the files gives `SeedFiles` |
| Seed.SeedDatabase | server/scripts/seedDatabase.js:13-157 | the report and the final collection are those of `SeedOutcome` |
| Seed.SeedOutcome | server/scripts/seedDatabase.js:13-61 | a failed admin upsert aborts with the collection unchanged; with no `.json` file the run stops after the upsert, keeping its result |
| Json.ToJsString | server/controllers/userController.js:93 | `String(v)` gives a string as it is, "true" exactly for `true`, and "null" for `null` |
| Text.Trim | server/models/User.js:5 | the result is empty exactly for an all-white-space string; otherwise it is the string minus its leading and trailing white space, neither end being white space |
| Text.Lower | server/models/User.js:11 | each character is lower-cased, and the length is kept |
| Text.Upper | server/scripts/seedDatabase.js:90 | each character is upper-cased, and the length is kept |
| Text.LowerOfUpper | server/scripts/seedDatabase.js:90-94 | lower-casing an upper-cased roll number gives the lower-cased original |
| ObjectIds.Cast | server/controllers/connectionController.js:20-38 | the cast of a valid id is a stored id, and a stored id casts to itself |
| ObjectIds.CanonicalIsValid | server/controllers/connectionController.js:20 | every stored id passes `ObjectId.isValid` |
| Server.BaseUrlIsHttp | server/server.js:33-35 | the base starts with `http` for an HTTP(S) request and a configured HTTP front-end URL |
| Server.Absolute | server/server.js:38-43 | a non-empty path that does not start with `http` gets the base in front; any other value is unchanged |
| Server.RewriteKey | server/server.js:38-43 | only the named key changes, and an absent key stays absent |
| Server.AbsolutiseItem | server/server.js:48-53 | exactly the two URL fields of an object are rewritten, and a non-object is unchanged |
| Server.Absolutise | server/server.js:32-57 | an object is rewritten, an array element by element, and anything else is unchanged |
| Server.AbsolutiseAll | server/server.js:46-56 | the loop rewrites every array element in place |
| Server.SendJson | server/server.js:31-59 | the wrapper sends `Absolutise` of the data |
| Server.ObjectUrlRule | server/server.js:38-43 | empty paths and absolute URLs are kept; a relative path gets the base |
| Server.NestedObjectsUntouched | server/server.js:46-56 | an object nested inside an array element is sent as it is |
| Server.AbsolutiseIdempotent | server/server.js:32-57 | with an `http` base, rewriting twice is rewriting once |
| Server.ErrorReply | server/server.js:85-112 | Multer errors get 400, with the field's size limit for `LIMIT_FILE_SIZE`; other errors get 400 exactly for the two messages written, else 500 |
| Server.ImageRejectionIs500AsWritten | server/server.js:98-108 | every rejection by the profile-picture filter reaches the client as 500 |
| Server.ErrorReplyCorrected | server/server.js:98-104 | corrected handler: the same as written, except that it also recognises the filter's two messages |
| Server.ImageRejectionIs400 | server/server.js:98-104 | with the correction, every rejection by the filter gets 400 with its message |
| Server.SignupImageRejectionIs400 | server/server.js:98-100 | the signup filter's message is recognised as written |

## Left out

- MongoDB itself is not modelled: connections, write concerns, concurrency between requests, and the 500 replies a failing query produces. A request that races another is outside the model; the `11000` branch is modelled only for a save that hits the index.
- `checkConnectionStatus`, `getPendingUsers`, `getAllUsers`, `searchUsers` and `getSuggestedUsers` leave out their catch-all 500. Their queries are total functions here and cannot fail.
- bcrypt and `jwt.sign` are parameters. The `throw` inside the `jwt.sign` callback is not modelled, because `sign` is total.
- File-system effects are modelled only as decisions:
  - which upload to delete (`Auth.Signup`'s flag, `Profiles.EditProfile`'s `unlink`);
  - the path test (`underUploads`).
  `fs.unlink`, `fs.existsSync` and the ID card deletion in `rejectUser` are not modelled.
- Auth.Signup: the `fs.unlinkSync` at server/controllers/authController.js:29 runs inside the `try`, so if it throws, the duplicate's 400 becomes the catch block's 500. The model always replies 400 there, because deleting the upload is a decision here and cannot fail.
- The career routes' own error middleware (server/routes/careerRoutes.js:23-40) is not modelled. It answers Multer errors before `analyzeResume`'s catch block sees them, so the "Not a PDF!" branch of `Career.ResumeErrorReply` is reachable only from an error message that happens to start with that text. It is kept as written.
- `pdf-parse` and the Gemini service are parameters (`parsed`, `generate`). Their internals are not part of this model.
- The seed script's `fs.readdir`/`readFile` failures and `mongoose.connect` are not modelled. A file that does not parse is `content: None`.
- Multer's streaming, storage naming (`Date.now`, random suffixes) and the `uploadProfilePicMiddleware` wiring are left out. The 2 MB and 5 MB limits appear only in the error handler's messages and in `Career.ResumeUpload`.
- Auth.Signin, Auth.Signup, Connections.CreateConnection, Profiles.SearchUsers: request values are modelled as strings (or absent), and JSON bodies and query strings can carry other values, which are not modelled:
  - an object such as `{"$regex": ".*"}` for the e-mail, which `findOne({ email })` at server/controllers/authController.js:85 and the `$or` query at line 26 would read as a query operator;
  - a number, array or object as `targetUserId` (server/controllers/connectionController.js:14), which `ObjectId.isValid` judges by its rules for such values rather than as a 24-digit string;
  - an array as `query` or `type` from a query string such as `?query[]=a` (server/controllers/userController.js:151): an array `type` is neither `'name'` nor `'rollNumber'` and gets the 400, while an array `query` makes the `$regex` cast throw, so the catch replies 500.
- UserModel.Written: a save of a document that is not new but is no longer stored appends it here, where Mongoose reports `DocumentNotFoundError`. No controller modelled reaches that case, since each saves a document it has just found.
- Profiles.MatchesIgnoringCase: `$regex` treats the query as a regular expression. The model treats it as plain text, so queries with metacharacters are not modelled.
- ObjectIds.IsValid: `ObjectId.isValid` also accepts any 12-character string (read as 12 raw bytes). Only the 24-digit hex form is modelled.
- Connections.BulkStatus: a `null` element casts to null, matches no edge and is reported as `"null": false`; any other element that is not a 24-digit hex string is modelled as the 500 its cast error produces. Mongoose's casts of 12-character strings and ObjectId-like objects, which succeed, are not modelled.
- Text.Lower, Text.Upper: JavaScript's case mapping covers all of Unicode; the model maps ASCII letters only.
- Seed.StudentUser: Mongoose's boolean cast of `isAdmin` turns strings such as "true" or "yes" into `true`. Only the JSON value `true` makes an admin here.
- Server.Absolute: a truthy URL field that is not a string, and a `null` array element, make the wrapper throw in JavaScript. The model sends them unchanged.
- Seed.AdminUpsert: paths of a newly upserted admin that `$set` does not name are modelled as the empty string. In MongoDB they are absent, with the same effect on every validator modelled.
- Profiles.GetSuggestedUsers: `$sample` is random. The model chooses any sample of the right size, so no particular distribution is modelled.
- Faithful quirks kept as written:
  - the bulk status map keys are the request's spellings, so an upper-case id is looked up as written and reports `false`;
  - rejecting a user leaves that user's connection edges in place.

## Findings

| source | as written | input that shows it | evidently intended | confidence | as-written member | corrected member |
|---|---|---|---|---|---|---|
| server/controllers/connectionController.js:24-28 | the self-check `currentUserId === targetUserId` and the ordering compare the raw request string, while `findById`, `findOne` and the new document cast it to an ObjectId | signed-in id `507f1f77bcf86cd799439011`, target `507F1F77BCF86CD799439011` | a user can never connect with themself | not executed | Connections.SelfConnectionAsWritten | Connections.ConnectPlan |
| server/controllers/connectionController.js:28-40 | `getOrderedUserIds` orders the raw request string, while the stored pair was ordered by the save hook after the cast, so `findOne({ user1, user2 })` can miss an existing connection | signed-in id `aaaaaaaaaaaaaaaaaaaaaaaa`, stored edge between it and `bbbbbbbbbbbbbbbbbbbbbbbb`, target `BBBBBBBBBBBBBBBBBBBBBBBB`: the save hits E11000 and the reply is the 409 "Connection already exists (concurrent request?)." without the edge | an existing connection is found and returned with "Connection already exists." | not executed | Connections.ExistingEdgeMissedAsWritten | Connections.ConnectExisting |
| server/server.js:98-108 | the handler compares error messages against two fixed strings, neither of which is a message of the profile-picture filter (server/controllers/userController.js:37,48) | a profile picture of type `image/webp` is rejected with "Only JPG, JPEG, PNG, GIF image files are allowed!", which becomes a 500 | a rejected image reaches the client as 400 with its message | not executed | Server.ImageRejectionIs500AsWritten | Server.ErrorReplyCorrected |
| server/controllers/userController.js:213-218 | `$match` in an aggregation is not cast, so `_id: { $ne: req.user.id }` compares an ObjectId with a string and holds for every document | the signed-in user is the only approved user; the suggestions are that user | the signed-in user is never suggested to themself | not executed | Profiles.SuggestionsIncludeRequesterAsWritten | Profiles.SuggestionPool |
