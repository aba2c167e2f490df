/**
 * The connection controller: creating an edge between the signed-in user
 * and another user, listing the signed-in user's connections, and the
 * single and bulk "are we connected?" lookups. The signed-in user's id
 * `me` is the string the authentication layer supplies; a request value
 * that is absent is the empty string.
 */
module Connections {
  import opened Options
  import opened Text
  import opened Json
  import opened Http
  import opened ConnectionModel
  import ObjectIds
  import UserModel

  /** `getOrderedUserIds`: the pair with the lexicographically smaller id first. */
  function OrderedUserIds(a: string, b: string): (r: (string, string))
    ensures LexLeq(r.0, r.1)
    ensures multiset{r.0, r.1} == multiset{a, b}
  {
    LexLessTrichotomy(a, b);
    if LexLess(a, b) then (a, b) else (b, a)
  }

  /** The order of the arguments does not matter. */
  lemma OrderedUserIdsSymmetric(a: string, b: string)
    ensures OrderedUserIds(a, b) == OrderedUserIds(b, a)
  {
    var r, s := OrderedUserIds(a, b), OrderedUserIds(b, a);
    OrderedPairUnique(r.0, r.1, s.0, s.1);
  }

  /** The controller's order is the order the pre-save hook keeps, so the hook never swaps it. */
  lemma OrderedUserIdsAgreesWithHook(a: string, b: string)
    ensures var r := OrderedUserIds(a, b);
      PreSaveOrder(Some(r.0), Some(r.1)) == (Some(r.0), Some(r.1))
  {
    var r := OrderedUserIds(a, b);
    LexLessTrichotomy(r.0, r.1);
  }

  /** A stored connection as the JSON body shows it. */
  function EdgeJson(e: Edge): (j: Json)
    ensures Get(j, "_id") == Some(JStr(e.id))
  {
    JObj(map["_id" := JStr(e.id), "user1" := JStr(e.user1), "user2" := JStr(e.user2),
             "createdAt" := JNum(e.createdAt), "__v" := JNum(0)])
  }

  /** Where the check chain of `createConnection` ends: a reply, or an insert of the pair. */
  datatype ConnectStep = Refuse(reply: Response) | Insert(user1: string, user2: string)

  function AlreadyConnected(e: Edge): Response {
    Response(409, JObj(map["message" := JStr("Connection already exists."), "connection" := EdgeJson(e)]))
  }

  /**
   * The check chain of `createConnection`, with the target id cast to its
   * stored form before it is compared with `me` and ordered.
   */
  function ConnectPlan(users: seq<UserModel.User>, edges: seq<Edge>, me: string, target: string): (r: ConnectStep)
    ensures target == "" ==> r == Refuse(Message(400, "Target user ID is required."))
    ensures target != "" && !ObjectIds.IsValid(target) ==> r == Refuse(Message(400, "Invalid target user ID format."))
    ensures ObjectIds.IsValid(target) && me == ObjectIds.Cast(target) ==> r == Refuse(Message(400, "Cannot connect with yourself."))
    ensures r.Insert? ==>
      && r.user1 != r.user2
      && (r.user1, r.user2) == OrderedUserIds(me, ObjectIds.Cast(target))
      && UserModel.IndexOfId(users, ObjectIds.Cast(target)).Some?
      && FindKey(edges, r.user1, r.user2).None?
  {
    if target == "" then Refuse(Message(400, "Target user ID is required."))
    else if !ObjectIds.IsValid(target) then Refuse(Message(400, "Invalid target user ID format."))
    else
      var t := ObjectIds.Cast(target);
      if me == t then Refuse(Message(400, "Cannot connect with yourself."))
      else if UserModel.IndexOfId(users, t).None? then Refuse(Message(404, "Target user not found."))
      else
        var pair := OrderedUserIds(me, t);
        match FindKey(edges, pair.0, pair.1)
        case Some(e) => Refuse(AlreadyConnected(e))
        case None => Insert(pair.0, pair.1)
  }

  /**
   * The check chain as the controller writes it: `me === targetUserId` and
   * the ordering compare the raw request string, while the queries and the
   * new document cast it to an ObjectId.
   */
  function ConnectPlanAsWritten(users: seq<UserModel.User>, edges: seq<Edge>, me: string, target: string): (r: ConnectStep)
    ensures r.Insert? ==> multiset{r.user1, r.user2} == multiset{ObjectIds.Cast(me), ObjectIds.Cast(target)}
  {
    if target == "" then Refuse(Message(400, "Target user ID is required."))
    else if !ObjectIds.IsValid(target) then Refuse(Message(400, "Invalid target user ID format."))
    else if me == target then Refuse(Message(400, "Cannot connect with yourself."))
    else
      var pair := OrderedUserIds(me, target);
      if UserModel.IndexOfId(users, ObjectIds.Cast(target)).None? then Refuse(Message(404, "Target user not found."))
      else
        var key := (ObjectIds.Cast(pair.0), ObjectIds.Cast(pair.1));
        match FindKey(edges, key.0, key.1)
        case Some(e) => Refuse(AlreadyConnected(e))
        case None => Insert(key.0, key.1)
  }

  /**
   * Any stored id with a letter among its digits, say 507f1f77bcf86cd799439011,
   * has an upper-case spelling that passes `isValid`, differs from `me` as a
   * string and casts back to `me`: the controller as written plans the
   * self-edge `(me, me)`.
   */
  lemma SelfConnectionAsWritten(me: string)
    requires ObjectIds.IsCanonical(me) && Upper(me) != me
    ensures ConnectPlanAsWritten([UserModel.ExampleUser(me)], [], me, Upper(me)) == Insert(me, me)
  {
    var target := Upper(me);
    forall i | 0 <= i < |target|
      ensures ObjectIds.IsHexDigit(target[i])
    {
      assert ObjectIds.IsLowerHexDigit(me[i]);
    }
    LowerOfUpper(me);
    assert ObjectIds.Cast(target) == me;
  }

  /** The reply `createConnection` sends once `save()` has decided. */
  function ReplyForSave(s: SaveOutcome): (r: Response)
    ensures r.status == 201 <==> s.Saved?
  {
    match s
    case Saved(e) =>
      Response(201, JObj(map["message" := JStr("Connection established successfully."), "connection" := EdgeJson(e)]))
    case DuplicateKey => Message(409, "Connection already exists (concurrent request?).")
    case ValidationFailed => Message(500, "Server error while creating connection.")
  }

  /** The reply and the new edge list of `createConnection`, over the corrected check chain. */
  function ConnectOutcome(users: seq<UserModel.User>, edges: seq<Edge>, me: string, target: string,
                          id: string, now: int): (r: (Response, seq<Edge>))
    ensures r.0.status != 201 ==> r.1 == edges
    ensures r.0.status == 201 ==> |r.1| == |edges| + 1 && r.1[..|edges|] == edges
  {
    ApplyPlan(ConnectPlan(users, edges, me, target), edges, id, now)
  }

  /** The reply and the new edge list of `createConnection` as the controller writes it. */
  function ConnectOutcomeAsWritten(users: seq<UserModel.User>, edges: seq<Edge>, me: string, target: string,
                                   id: string, now: int): (r: (Response, seq<Edge>))
    ensures r.0.status != 201 ==> r.1 == edges
    ensures r.0.status == 201 ==> |r.1| == |edges| + 1 && r.1[..|edges|] == edges
  {
    ApplyPlan(ConnectPlanAsWritten(users, edges, me, target), edges, id, now)
  }

  /** A refusal is sent as it is; an insert saves a new document `{ _id: id, user1, user2 }`. */
  function ApplyPlan(step: ConnectStep, edges: seq<Edge>, id: string, now: int): (r: (Response, seq<Edge>))
    ensures step.Refuse? ==> r == (step.reply, edges)
    ensures step.Refuse? && step.reply.status != 201 ==> r.1 == edges
    ensures step.Insert? ==> (r.0.status == 201 <==> SaveOutcomeOf(edges, id, Some(step.user1), Some(step.user2), now).Saved?)
    ensures r.0.status != 201 ==> r.1 == edges
    ensures r.0.status == 201 && step.Insert? ==> r.1 == edges + [SaveOutcomeOf(edges, id, Some(step.user1), Some(step.user2), now).edge]
  {
    match step
    case Refuse(reply) => (reply, edges)
    case Insert(a, b) =>
      var s := SaveOutcomeOf(edges, id, Some(a), Some(b), now);
      (ReplyForSave(s), if s.Saved? then edges + [s.edge] else edges)
  }

  /**
   * `createConnection`: the check chain, then a new connection document
   * saved through the store; `id` and `now` are the new document's `_id`
   * and creation time.
   */
  method CreateConnection(users: seq<UserModel.User>, store: ConnectionStore, me: string, target: string,
                          id: string, now: int) returns (r: Response)
    requires store.Valid()
    modifies store
    ensures store.Valid()
    ensures (r, store.edges) == ConnectOutcome(users, old(store.edges), me, target, id, now)
  {
    var step := ConnectPlan(users, store.edges, me, target);
    if step.Refuse? {
      return step.reply;
    }
    var doc := new ConnectionDoc(id, Some(step.user1), Some(step.user2), now);
    var saved := store.Save(doc);
    r := ReplyForSave(saved);
  }

  /**
   * A missing, malformed or own target id (compared after the cast, as
   * corrected) is refused with 400 whatever the stores hold.
   */
  lemma ConnectEarlyRejects(users: seq<UserModel.User>, edges: seq<Edge>,
                            users': seq<UserModel.User>, edges': seq<Edge>, me: string, target: string)
    requires target == "" || !ObjectIds.IsValid(target) || me == ObjectIds.Cast(target)
    ensures ConnectPlan(users, edges, me, target) == ConnectPlan(users', edges', me, target)
    ensures ConnectPlan(users, edges, me, target).Refuse?
    ensures ConnectPlan(users, edges, me, target).reply.status == 400
  {
  }

  /** A target that is not a stored user gives 404 and no edge. */
  lemma ConnectUnknownTarget(users: seq<UserModel.User>, edges: seq<Edge>, me: string, target: string,
                             id: string, now: int)
    requires ObjectIds.IsValid(target) && me != ObjectIds.Cast(target)
    requires forall i :: 0 <= i < |users| ==> users[i].id != ObjectIds.Cast(target)
    ensures ConnectOutcome(users, edges, me, target, id, now) == (Message(404, "Target user not found."), edges)
  {
  }

  /**
   * A 201 adds exactly one edge, at the ordered pair of `me` and the cast
   * target, and that edge is not a self-edge; any other reply leaves the
   * edges as they were.
   */
  lemma ConnectAddsOneEdge(users: seq<UserModel.User>, edges: seq<Edge>, me: string, target: string,
                           id: string, now: int)
    ensures var out := ConnectOutcome(users, edges, me, target, id, now);
      var pair := OrderedUserIds(me, ObjectIds.Cast(target));
      && (out.0.status == 201 ==> out.1 == edges + [Edge(id, pair.0, pair.1, now)] && pair.0 != pair.1)
      && (out.0.status != 201 ==> out.1 == edges)
  {
    var step := ConnectPlan(users, edges, me, target);
    if step.Insert? {
      OrderedUserIdsAgreesWithHook(me, ObjectIds.Cast(target));
    }
  }

  /**
   * Corrected check chain: a well-formed id of another stored user, with no
   * edge at the pair's key and an unused `_id`, gets 201 and appends the
   * ordered edge. With ConnectEarlyRejects, ConnectUnknownTarget and
   * ConnectExisting this decides every request.
   */
  lemma ConnectSucceeds(users: seq<UserModel.User>, edges: seq<Edge>, me: string, target: string,
                        id: string, now: int)
    requires ObjectIds.IsValid(target) && me != ObjectIds.Cast(target)
    requires UserModel.IndexOfId(users, ObjectIds.Cast(target)).Some?
    requires var pair := OrderedUserIds(me, ObjectIds.Cast(target)); FindKey(edges, pair.0, pair.1).None?
    requires !IdTaken(edges, id)
    ensures var pair := OrderedUserIds(me, ObjectIds.Cast(target));
      ConnectPlan(users, edges, me, target) == Insert(pair.0, pair.1)
    ensures var pair := OrderedUserIds(me, ObjectIds.Cast(target));
      var e := Edge(id, pair.0, pair.1, now);
      ConnectOutcome(users, edges, me, target, id, now) == (ReplyForSave(Saved(e)), edges + [e])
    ensures ConnectOutcome(users, edges, me, target, id, now).0.status == 201
  {
    var pair := OrderedUserIds(me, ObjectIds.Cast(target));
    OrderedUserIdsAgreesWithHook(me, ObjectIds.Cast(target));
    assert SaveOutcomeOf(edges, id, Some(pair.0), Some(pair.1), now) == Saved(Edge(id, pair.0, pair.1, now));
  }

  /**
   * The controller as written stores the self-edge: with `me` the only
   * stored user and no edges, the upper-case spelling of `me` gets 201 and
   * the edge `(me, me)`.
   */
  lemma SelfConnectionStoredAsWritten(me: string, id: string, now: int)
    requires ObjectIds.IsCanonical(me) && Upper(me) != me
    ensures ConnectOutcomeAsWritten([UserModel.ExampleUser(me)], [], me, Upper(me), id, now)
      == (ReplyForSave(Saved(Edge(id, me, me, now))), [Edge(id, me, me, now)])
    ensures ReplyForSave(Saved(Edge(id, me, me, now))).status == 201
  {
    SelfConnectionAsWritten(me);
    LexLessTrichotomy(me, me);
  }

  /**
   * For stored spellings of both ids (lower-case hex, as the authentication
   * layer and the database give them) the chain as written and the corrected
   * chain agree.
   */
  lemma ConnectAsWrittenOnCanonical(users: seq<UserModel.User>, edges: seq<Edge>, me: string, target: string,
                                    id: string, now: int)
    requires ObjectIds.IsCanonical(me) && ObjectIds.IsCanonical(target)
    ensures ConnectPlanAsWritten(users, edges, me, target) == ConnectPlan(users, edges, me, target)
    ensures ConnectOutcomeAsWritten(users, edges, me, target, id, now) == ConnectOutcome(users, edges, me, target, id, now)
  {
    ObjectIds.CanonicalIsValid(target);
    assert ObjectIds.Cast(target) == target && ObjectIds.Cast(me) == me;
  }

  /** Two stored ids, and an upper-case spelling of the second that sorts before the first. */
  const SampleMe: string := "aaaaaaaaaaaaaaaaaaaaaaaa"
  const SampleOther: string := "bbbbbbbbbbbbbbbbbbbbbbbb"
  const SampleOtherUpper: string := "BBBBBBBBBBBBBBBBBBBBBBBB"

  /** The upper-case spelling is valid and casts to the stored id. */
  lemma SampleCasts()
    ensures ObjectIds.IsValid(SampleOtherUpper)
    ensures ObjectIds.Cast(SampleOtherUpper) == SampleOther && ObjectIds.Cast(SampleMe) == SampleMe
  {
    assert ObjectIds.IsCanonical(SampleMe);
    assert Lower(SampleOtherUpper) == SampleOther;
  }

  /** As strings, 'B' < 'a' < 'b'. */
  lemma SampleOrder()
    ensures OrderedUserIds(SampleMe, SampleOtherUpper) == (SampleOtherUpper, SampleMe)
    ensures OrderedUserIds(SampleMe, SampleOther) == (SampleMe, SampleOther)
    ensures PreSaveOrder(Some(SampleOther), Some(SampleMe)) == (Some(SampleMe), Some(SampleOther))
  {
    assert LexLess(SampleOtherUpper, SampleMe) && LexLess(SampleMe, SampleOther);
    LexLessTrichotomy(SampleOtherUpper, SampleMe);
    LexLessTrichotomy(SampleMe, SampleOther);
  }

  /**
   * The raw ordering as written misses a stored edge: with the edge
   * (aaa…, bbb…) stored, the request from aaa… for BBB… orders the raw
   * strings as (BBB…, aaa…), since 'B' < 'a', so `findOne` looks up
   * (bbb…, aaa…) and finds nothing; the hook then sorts the new pair and the
   * save hits the unique index. The client gets the duplicate-key 409
   * without the edge, where the corrected chain answers with the edge.
   */
  lemma ExistingEdgeMissedAsWritten(id: string, now: int, storedId: string, storedAt: int)
    ensures var users := [UserModel.ExampleUser(SampleMe), UserModel.ExampleUser(SampleOther)];
      var edges := [Edge(storedId, SampleMe, SampleOther, storedAt)];
      && ConnectOutcomeAsWritten(users, edges, SampleMe, SampleOtherUpper, id, now)
         == (Message(409, "Connection already exists (concurrent request?)."), edges)
      && ConnectOutcome(users, edges, SampleMe, SampleOtherUpper, id, now) == (AlreadyConnected(edges[0]), edges)
  {
    var users := [UserModel.ExampleUser(SampleMe), UserModel.ExampleUser(SampleOther)];
    SampleCasts();
    SampleOrder();
    assert UserModel.IndexOfId(users, SampleOther) == Some(1);
    assert SampleMe[0] != SampleOtherUpper[0] && SampleMe[0] != SampleOther[0];
    MissedEdge(users, SampleMe, SampleOther, SampleOtherUpper, id, now, storedId, storedAt);
  }

  /** The steps of the counterexample, for any ids ordered as the sample's are. */
  lemma MissedEdge(users: seq<UserModel.User>, me: string, other: string, target: string,
                   id: string, now: int, storedId: string, storedAt: int)
    requires ObjectIds.IsValid(target) && ObjectIds.Cast(target) == other && ObjectIds.Cast(me) == me
    requires me != target && me != other
    requires OrderedUserIds(me, target) == (target, me) && OrderedUserIds(me, other) == (me, other)
    requires PreSaveOrder(Some(other), Some(me)) == (Some(me), Some(other))
    requires UserModel.IndexOfId(users, other).Some?
    ensures var edges := [Edge(storedId, me, other, storedAt)];
      && ConnectOutcomeAsWritten(users, edges, me, target, id, now)
         == (Message(409, "Connection already exists (concurrent request?)."), edges)
      && ConnectOutcome(users, edges, me, target, id, now) == (AlreadyConnected(edges[0]), edges)
  {
    var edges := [Edge(storedId, me, other, storedAt)];
    assert FindKey(edges, other, me).None?;
    assert ConnectPlanAsWritten(users, edges, me, target) == Insert(other, me);
    assert SaveOutcomeOf(edges, id, Some(other), Some(me), now) == DuplicateKey;
  }

  /** An existing edge at the key gives 409 with that edge, and nothing is added. */
  lemma ConnectExisting(users: seq<UserModel.User>, edges: seq<Edge>, me: string, target: string,
                        id: string, now: int, e: Edge)
    requires ObjectIds.IsValid(target) && me != ObjectIds.Cast(target)
    requires UserModel.IndexOfId(users, ObjectIds.Cast(target)).Some?
    requires var pair := OrderedUserIds(me, ObjectIds.Cast(target)); FindKey(edges, pair.0, pair.1) == Some(e)
    ensures ConnectOutcome(users, edges, me, target, id, now) == (AlreadyConnected(e), edges)
  {
  }

  /**
   * Connecting twice: after a 201, the same request gets 409 and changes
   * nothing; so does the request in the other direction when `me` is a
   * stored user with a canonical id.
   */
  lemma ConnectTwice(users: seq<UserModel.User>, edges: seq<Edge>, me: string, target: string,
                     id: string, now: int, id': string, now': int)
    requires ConnectOutcome(users, edges, me, target, id, now).0.status == 201
    ensures var after := ConnectOutcome(users, edges, me, target, id, now).1;
      var again := ConnectOutcome(users, after, me, target, id', now');
      again.0.status == 409 && again.1 == after
    ensures ObjectIds.IsCanonical(me) && UserModel.IndexOfId(users, me).Some? ==>
      var after := ConnectOutcome(users, edges, me, target, id, now).1;
      var back := ConnectOutcome(users, after, ObjectIds.Cast(target), me, id', now');
      back.0.status == 409 && back.1 == after
  {
    var t := ObjectIds.Cast(target);
    var pair := OrderedUserIds(me, t);
    var e := Edge(id, pair.0, pair.1, now);
    ConnectedAfterInsert(users, edges, me, target, id, now);
    var after := edges + [e];
    ConnectExisting(users, after, me, target, id', now', e);
    if ObjectIds.IsCanonical(me) && UserModel.IndexOfId(users, me).Some? {
      ObjectIds.CanonicalIsValid(t);
      OrderedUserIdsSymmetric(me, t);
      ConnectExisting(users, after, t, me, id', now', e);
    }
  }

  /** After a 201 the checks that led to it still pass, and the key now finds the new edge. */
  lemma ConnectedAfterInsert(users: seq<UserModel.User>, edges: seq<Edge>, me: string, target: string,
                             id: string, now: int)
    requires ConnectOutcome(users, edges, me, target, id, now).0.status == 201
    ensures var t := ObjectIds.Cast(target);
      var pair := OrderedUserIds(me, t);
      var e := Edge(id, pair.0, pair.1, now);
      && ObjectIds.IsValid(target) && me != t && UserModel.IndexOfId(users, t).Some?
      && ConnectOutcome(users, edges, me, target, id, now).1 == edges + [e]
      && FindKey(edges + [e], pair.0, pair.1) == Some(e)
  {
    var t := ObjectIds.Cast(target);
    var pair := OrderedUserIds(me, t);
    assert ConnectPlan(users, edges, me, target).Insert?;
    ConnectAddsOneEdge(users, edges, me, target, id, now);
    FindKeyAppend(edges, Edge(id, pair.0, pair.1, now), pair.0, pair.1);
  }

  /** The other endpoint of an edge, seen from `me`. */
  function Other(e: Edge, me: string): string {
    if e.user1 == me then e.user2 else e.user1
  }

  /** The edge connects `a` and `b`, in either order. */
  predicate Joins(e: Edge, a: string, b: string) {
    multiset{e.user1, e.user2} == multiset{a, b}
  }

  predicate Linked(edges: seq<Edge>, a: string, b: string) {
    exists i | 0 <= i < |edges| :: Joins(edges[i], a, b)
  }

  /** The reply of `checkConnectionStatus`. */
  function ConnectionStatus(edges: seq<Edge>, me: string, target: string): (r: Response)
    ensures !ObjectIds.IsValid(target) <==> r.status == 400
  {
    if !ObjectIds.IsValid(target) then Message(400, "Invalid target user ID format.")
    else
      var pair := OrderedUserIds(me, target);
      match FindKey(edges, ObjectIds.Cast(pair.0), ObjectIds.Cast(pair.1))
      case Some(e) =>
        Response(200, JObj(map["connected" := JBool(true), "connectionId" := JStr(e.id),
                               "connectedAt" := JNum(e.createdAt)]))
      case None => Response(200, JObj(map["connected" := JBool(false)]))
  }

  predicate ReportsConnected(r: Response) {
    Get(r.body, "connected") == Some(JBool(true))
  }

  /** For stored ids the status does not depend on who asks. */
  lemma StatusSymmetric(edges: seq<Edge>, a: string, b: string)
    requires ObjectIds.IsCanonical(a) && ObjectIds.IsCanonical(b)
    ensures ConnectionStatus(edges, a, b) == ConnectionStatus(edges, b, a)
  {
    OrderedUserIdsSymmetric(a, b);
  }

  /** For stored ids, the status reports connected exactly when an edge joins the two. */
  lemma StatusConnectedIff(edges: seq<Edge>, a: string, b: string)
    requires EdgesValid(edges)
    requires ObjectIds.IsCanonical(a) && ObjectIds.IsCanonical(b)
    ensures ReportsConnected(ConnectionStatus(edges, a, b)) <==> Linked(edges, a, b)
  {
    ObjectIds.CanonicalIsValid(b);
    var pair := OrderedUserIds(a, b);
    assert ObjectIds.Cast(pair.0) == pair.0 && ObjectIds.Cast(pair.1) == pair.1;
    if Linked(edges, a, b) {
      var i :| 0 <= i < |edges| && Joins(edges[i], a, b);
      OrderedPairUnique(edges[i].user1, edges[i].user2, pair.0, pair.1);
      assert FindKey(edges, pair.0, pair.1).Some?;
    }
    if ReportsConnected(ConnectionStatus(edges, a, b)) {
      var e := FindKey(edges, pair.0, pair.1).value;
      var i :| 0 <= i < |edges| && edges[i] == e;
      assert Joins(edges[i], a, b);
    }
  }

  /** After a 201 for a stored target id, the status of the pair reports connected. */
  lemma ConnectThenStatus(users: seq<UserModel.User>, edges: seq<Edge>, me: string, target: string,
                          id: string, now: int)
    requires ObjectIds.IsCanonical(me) && ObjectIds.IsCanonical(target)
    requires ConnectOutcome(users, edges, me, target, id, now).0.status == 201
    ensures ReportsConnected(ConnectionStatus(ConnectOutcome(users, edges, me, target, id, now).1, me, target))
  {
    ObjectIds.CanonicalIsValid(target);
    assert ObjectIds.Cast(target) == target;
    var pair := OrderedUserIds(me, target);
    ConnectedAfterInsert(users, edges, me, target, id, now);
    var e := Edge(id, pair.0, pair.1, now);
    assert ObjectIds.Cast(pair.0) == pair.0 && ObjectIds.Cast(pair.1) == pair.1;
    StatusFound(edges + [e], me, target);
  }

  /** The status reports connected once the query finds an edge for the ordered pair. */
  lemma StatusFound(edges: seq<Edge>, me: string, target: string)
    requires ObjectIds.IsValid(target)
    requires var pair := OrderedUserIds(me, target);
      FindKey(edges, ObjectIds.Cast(pair.0), ObjectIds.Cast(pair.1)).Some?
    ensures ReportsConnected(ConnectionStatus(edges, me, target))
  {
  }

  // ---------------------------------------------------------------- bulk

  /**
   * An element of `userIds` the query's ObjectId cast accepts: a 24-digit
   * hex string, or `null`, which casts to null and matches no stored edge.
   */
  predicate Castable(j: Json) {
    j.JNull? || (j.JStr? && ObjectIds.IsValid(j.s))
  }

  predicate AllCastable(items: seq<Json>) {
    forall i :: 0 <= i < |items| ==> Castable(items[i])
  }

  /** The property name `statusMap[id]` writes: the string itself, or "null". */
  function KeyOf(j: Json): (k: string)
    requires Castable(j)
    ensures j.JStr? ==> k == j.s && k != "null"
  {
    if j.JNull? then "null" else j.s
  }

  /** The property names of the reply. */
  function KeySet(items: seq<Json>): set<string>
    requires AllCastable(items)
  {
    set i | 0 <= i < |items| :: KeyOf(items[i])
  }

  /** The cast ids of the `$in` lists: those of the string elements. */
  function CastIds(items: seq<Json>): set<string> {
    set i | 0 <= i < |items| && items[i].JStr? :: ObjectIds.Cast(items[i].s)
  }

  /** An edge the bulk query finds: `me` at one end and a requested id at the other. */
  predicate BulkMatch(e: Edge, me: string, castIds: set<string>) {
    (e.user1 == me && e.user2 in castIds) || (e.user2 == me && e.user1 in castIds)
  }

  /** `Connection.find` with the bulk `$or` filter, in store order. */
  function MatchingEdges(edges: seq<Edge>, me: string, castIds: set<string>): (r: seq<Edge>)
    ensures forall e :: e in r <==> e in edges && BulkMatch(e, me, castIds)
  {
    if |edges| == 0 then []
    else
      var rest := MatchingEdges(edges[1..], me, castIds);
      assert forall e :: e in edges <==> e == edges[0] || e in edges[1..];
      if BulkMatch(edges[0], me, castIds) then [edges[0]] + rest else rest
  }

  /** The `connectedIds` set built from the found edges. */
  function PeerSet(conns: seq<Edge>, me: string): set<string> {
    set k | 0 <= k < |conns| :: Other(conns[k], me)
  }

  /**
   * The `statusMap` object: one key per requested element, true when the
   * element is in `connectedIds`. The key "null" comes only from a null
   * element, which `Set.has` never finds among the string ids.
   */
  function StatusMap(items: seq<Json>, peers: set<string>): map<string, Json>
    requires AllCastable(items)
  {
    map k | k in KeySet(items) :: JBool(k != "null" && k in peers)
  }

  /** The reply of `checkBulkConnectionStatus`; `userIds` is None when the body has no such field. */
  function BulkStatus(edges: seq<Edge>, me: string, userIds: Option<Json>): (r: Response)
    ensures r.status == 400 <==> userIds.None? || !Truthy(userIds.value) || !userIds.value.JArr? || |userIds.value.items| == 0
    ensures r.status == 500 <==> r.status != 400 && !AllCastable(userIds.value.items)
    ensures r.status == 400 || r.status == 500 || r.status == 200
  {
    if userIds.None? || !Truthy(userIds.value) || !userIds.value.JArr? || |userIds.value.items| == 0 then
      Message(400, "An array of userIds is required.")
    else if !AllCastable(userIds.value.items) then
      Message(500, "Server error during bulk status check.")
    else
      var items := userIds.value.items;
      var conns := MatchingEdges(edges, ObjectIds.Cast(me), CastIds(items));
      Response(200, JObj(StatusMap(items, PeerSet(conns, me))))
  }

  /**
   * `checkBulkConnectionStatus`: the query, then the `connectedIds` set,
   * then the `statusMap` object, each built by a loop.
   */
  method CheckBulkConnectionStatus(store: ConnectionStore, me: string, userIds: Option<Json>) returns (r: Response)
    ensures r == BulkStatus(store.edges, me, userIds)
  {
    if userIds.None? || !Truthy(userIds.value) || !userIds.value.JArr? || |userIds.value.items| == 0 {
      return Message(400, "An array of userIds is required.");
    }
    var items := userIds.value.items;
    if !AllCastable(items) {
      return Message(500, "Server error during bulk status check.");
    }
    var conns := MatchingEdges(store.edges, ObjectIds.Cast(me), CastIds(items));

    var connectedIds: set<string> := {};
    var i := 0;
    while i < |conns|
      invariant 0 <= i <= |conns|
      invariant connectedIds == PeerSet(conns[..i], me)
    {
      if conns[i].user1 == me {
        connectedIds := connectedIds + {conns[i].user2};
      } else {
        connectedIds := connectedIds + {conns[i].user1};
      }
      assert conns[..i + 1][..i] == conns[..i];
      i := i + 1;
    }
    assert conns[..i] == conns;

    var statusMap: map<string, Json> := map[];
    var j := 0;
    while j < |items|
      invariant 0 <= j <= |items|
      invariant statusMap == StatusMap(items[..j], connectedIds)
    {
      var id := items[j];
      statusMap := statusMap[KeyOf(id) := JBool(id.JStr? && id.s in connectedIds)];
      StatusMapSnoc(items[..j], id, connectedIds);
      assert items[..j + 1] == items[..j] + [id];
      j := j + 1;
    }
    assert items[..j] == items;
    r := Response(200, JObj(statusMap));
  }

  /** Writing one more element's entry into the status map. */
  lemma StatusMapSnoc(items: seq<Json>, id: Json, peers: set<string>)
    requires AllCastable(items) && Castable(id)
    ensures AllCastable(items + [id])
    ensures StatusMap(items + [id], peers) == StatusMap(items, peers)[KeyOf(id) := JBool(id.JStr? && id.s in peers)]
  {
    var all := items + [id];
    assert forall i :: 0 <= i < |items| ==> all[i] == items[i];
    assert all[|items|] == id;
    assert KeySet(all) == KeySet(items) + {KeyOf(id)};
  }

  /** Seen from an endpoint `me`, an edge joins `me` and `s` exactly when `s` is its other end. */
  lemma JoinsOther(e: Edge, me: string, s: string)
    requires e.user1 == me || e.user2 == me
    ensures Joins(e, me, s) <==> Other(e, me) == s
  {
    if Joins(e, me, s) {
      assert multiset{e.user1, e.user2} - multiset{me} == multiset{s};
      if e.user1 == me {
        assert multiset{e.user1, e.user2} - multiset{me} == multiset{e.user2};
      } else {
        assert multiset{e.user1, e.user2} - multiset{me} == multiset{e.user1};
      }
    }
  }

  /** A requested id is in `connectedIds` exactly when some edge joins it to `me`. */
  lemma PeerSetLinked(edges: seq<Edge>, me: string, castIds: set<string>, s: string)
    requires s in castIds
    ensures s in PeerSet(MatchingEdges(edges, me, castIds), me) <==> Linked(edges, me, s)
  {
    var conns := MatchingEdges(edges, me, castIds);
    if Linked(edges, me, s) {
      var i :| 0 <= i < |edges| && Joins(edges[i], me, s);
      var e := edges[i];
      assert e.user1 in multiset{me, s} && e.user2 in multiset{me, s};
      assert e.user1 == me || e.user2 == me;
      JoinsOther(e, me, s);
      assert BulkMatch(e, me, castIds);
      assert e in conns;
      var c :| 0 <= c < |conns| && conns[c] == e;
      assert Other(conns[c], me) == s;
    }
    if s in PeerSet(conns, me) {
      var c :| 0 <= c < |conns| && Other(conns[c], me) == s;
      var e := conns[c];
      assert e in edges && BulkMatch(e, me, castIds);
      JoinsOther(e, me, s);
      var i :| 0 <= i < |edges| && edges[i] == e;
      assert Joins(edges[i], me, s);
    }
  }

  /**
   * A successful bulk reply has exactly the requested elements' names as
   * keys (repeats collapse, `null` becomes "null" mapped to false), and
   * for a stored id and a signed-in user with a canonical id the value is
   * true exactly when an edge joins the two.
   */
  lemma BulkStatusMeaning(edges: seq<Edge>, me: string, userIds: Option<Json>, s: string)
    requires ObjectIds.IsCanonical(me)
    requires BulkStatus(edges, me, userIds).status == 200
    ensures userIds.Some? && userIds.value.JArr? && AllCastable(userIds.value.items)
    ensures var r := BulkStatus(edges, me, userIds);
      r.body.JObj? && (s in r.body.fields <==> s in KeySet(userIds.value.items))
    ensures var r := BulkStatus(edges, me, userIds);
      JNull in userIds.value.items ==> r.body.fields["null"] == JBool(false)
    ensures var r := BulkStatus(edges, me, userIds);
      ObjectIds.IsCanonical(s) && s in r.body.fields ==> (r.body.fields[s] == JBool(true) <==> Linked(edges, me, s))
  {
    var items := userIds.value.items;
    var castIds := CastIds(items);
    var conns := MatchingEdges(edges, me, castIds);
    assert BulkStatus(edges, me, userIds).body.fields == StatusMap(items, PeerSet(conns, me));
    if JNull in items {
      var k :| 0 <= k < |items| && items[k] == JNull;
      assert KeyOf(items[k]) == "null";
    }
    if ObjectIds.IsCanonical(s) && s in KeySet(items) {
      var k :| 0 <= k < |items| && KeyOf(items[k]) == s;
      assert s != "null";
      assert items[k].JStr?;
      assert ObjectIds.Cast(items[k].s) == s;
      PeerSetLinked(edges, me, castIds, s);
    }
  }

  /** For stored ids, the bulk reply agrees with the single status lookup. */
  lemma BulkAgreesWithSingle(edges: seq<Edge>, me: string, userIds: Option<Json>, s: string)
    requires EdgesValid(edges)
    requires ObjectIds.IsCanonical(me) && ObjectIds.IsCanonical(s)
    requires BulkStatus(edges, me, userIds).status == 200
    requires userIds.Some? && userIds.value.JArr? && JStr(s) in userIds.value.items
    ensures var r := BulkStatus(edges, me, userIds);
      r.body.JObj? && s in r.body.fields
      && (r.body.fields[s] == JBool(true) <==> ReportsConnected(ConnectionStatus(edges, me, s)))
  {
    BulkStatusMeaning(edges, me, userIds, s);
    var k :| 0 <= k < |userIds.value.items| && userIds.value.items[k] == JStr(s);
    assert KeyOf(userIds.value.items[k]) == s;
    StatusConnectedIff(edges, me, s);
  }

  // ---------------------------------------------------------------- listing

  /** `Connection.find({ $or: [{ user1: me }, { user2: me }] })`, in store order. */
  function TouchingEdges(edges: seq<Edge>, me: string): (r: seq<Edge>)
    ensures forall e :: e in r <==> e in edges && (e.user1 == me || e.user2 == me)
  {
    if |edges| == 0 then []
    else
      var rest := TouchingEdges(edges[1..], me);
      assert forall e :: e in edges <==> e == edges[0] || e in edges[1..];
      if edges[0].user1 == me || edges[0].user2 == me then [edges[0]] + rest else rest
  }

  /** One listed connection: the edge's id and time and the populated fields of the other user. */
  function Entry(e: Edge, other: UserModel.User): Json {
    JObj(map[
      "connectionId" := JStr(e.id),
      "connectedAt" := JNum(e.createdAt),
      "user" := JObj(map[
        "_id" := JStr(other.id),
        "fullName" := JStr(other.fullName),
        "profilePictureUrl" := JStr(other.profilePictureUrl),
        "linkedinProfileUrl" := JStr(other.linkedinProfileUrl),
        "rollNumber" := JStr(other.rollNumber)])])
  }

  /**
   * The map step for one edge. `populate` leaves null where the user is
   * gone; reading `_id` of `conn.user1`, or of the chosen other user, then
   * throws, which is None here.
   */
  function ConnectionEntry(users: seq<UserModel.User>, e: Edge, me: string): (r: Option<Json>)
    ensures r.Some? ==> exists u :: u in users && u.id == Other(e, me) && r.value == Entry(e, u)
    ensures r.None? <==> (UserModel.IndexOfId(users, e.user1).None?
                          || (e.user1 == me && UserModel.IndexOfId(users, e.user2).None?))
  {
    match UserModel.IndexOfId(users, e.user1)
    case None => None
    case Some(i1) =>
      if e.user1 == me then
        match UserModel.IndexOfId(users, e.user2)
        case None => None
        case Some(i2) => Some(Entry(e, users[i2]))
      else Some(Entry(e, users[i1]))
  }

  /** The mapped list, or None when one of the entries throws. */
  function Entries(users: seq<UserModel.User>, es: seq<Edge>, me: string): (r: Option<seq<Json>>)
    ensures r.Some? ==> |r.value| == |es| && forall i :: 0 <= i < |es| ==> ConnectionEntry(users, es[i], me) == Some(r.value[i])
    ensures r.None? ==> exists i :: 0 <= i < |es| && ConnectionEntry(users, es[i], me).None?
  {
    if |es| == 0 then Some([])
    else
      match ConnectionEntry(users, es[0], me)
      case None => None
      case Some(x) =>
        match Entries(users, es[1..], me)
        case None => None
        case Some(xs) => Some([x] + xs)
  }

  /** The reply of `getUserConnections`. */
  function GetUserConnections(users: seq<UserModel.User>, edges: seq<Edge>, me: string): (r: Response)
    ensures r.status == 200 || r == Message(500, "Server error while fetching connections.")
    ensures r.status == 200 ==> r.body.JArr? && |r.body.items| == |TouchingEdges(edges, ObjectIds.Cast(me))|
  {
    match Entries(users, TouchingEdges(edges, ObjectIds.Cast(me)), me)
    case None => Message(500, "Server error while fetching connections.")
    case Some(xs) => Response(200, JArr(xs))
  }

  /**
   * A successful listing has one entry per edge touching `me`, in store
   * order, each carrying the edge's id and time and naming a stored user
   * at the edge's other end; it fails with 500 exactly when some such edge
   * points at a user who is no longer stored.
   */
  lemma ListingMeaning(users: seq<UserModel.User>, edges: seq<Edge>, me: string)
    requires ObjectIds.IsCanonical(me)
    ensures var r := GetUserConnections(users, edges, me);
      var es := TouchingEdges(edges, me);
      && (r.status == 200 ==>
            r.body.JArr? && |r.body.items| == |es|
            && forall i :: 0 <= i < |es| ==>
                 exists u :: u in users && u.id == Other(es[i], me) && r.body.items[i] == Entry(es[i], u))
      && (r.status == 500 <==>
            exists i :: 0 <= i < |es| && ConnectionEntry(users, es[i], me).None?)
  {
    var es := TouchingEdges(edges, me);
    match Entries(users, es, me)
    case None =>
    case Some(xs) =>
      forall i | 0 <= i < |es|
        ensures exists u :: u in users && u.id == Other(es[i], me) && xs[i] == Entry(es[i], u)
      {
        assert ConnectionEntry(users, es[i], me) == Some(xs[i]);
      }
  }
}
