/**
 * The Connection collection: documents holding two user ids and a
 * creation time, a pre-save hook that puts the lexicographically smaller id
 * in `user1`, and a unique index on the pair `(user1, user2)`.
 */
module ConnectionModel {
  import opened Options
  import opened Text

  /** A stored connection document. */
  datatype Edge = Edge(id: string, user1: string, user2: string, createdAt: int)

  /**
   * The pre-save hook's effect on `(user1, user2)`: when both are present and
   * `user1 > user2` as strings they are swapped; otherwise nothing changes.
   */
  function PreSaveOrder(u1: Option<string>, u2: Option<string>): (r: (Option<string>, Option<string>))
    ensures u1.Some? && u2.Some? ==> r.0.Some? && r.1.Some? && LexLeq(r.0.value, r.1.value)
    ensures u1.Some? && u2.Some? ==> multiset{r.0.value, r.1.value} == multiset{u1.value, u2.value}
    ensures u1.None? || u2.None? ==> r == (u1, u2)
  {
    if u1.Some? && u2.Some? then
      LexLessTrichotomy(u1.value, u2.value);
      if LexLess(u2.value, u1.value) then (u2, u1) else (u1, u2)
    else (u1, u2)
  }

  /** Running the hook on its own output changes nothing. */
  lemma PreSaveIdempotent(u1: Option<string>, u2: Option<string>)
    ensures PreSaveOrder(PreSaveOrder(u1, u2).0, PreSaveOrder(u1, u2).1) == PreSaveOrder(u1, u2)
  {
    var r := PreSaveOrder(u1, u2);
    if r.0.Some? && r.1.Some? {
      LexLessTrichotomy(r.0.value, r.1.value);
    }
  }

  /** Two ordered pairs holding the same two ids are the same pair. */
  lemma OrderedPairUnique(a: string, b: string, c: string, d: string)
    requires LexLeq(a, b) && LexLeq(c, d)
    requires multiset{a, b} == multiset{c, d}
    ensures a == c && b == d
  {
    LexLessTrichotomy(a, b);
    LexLessTrichotomy(c, d);
    LexLessTrichotomy(a, c);
    assert a in multiset{c, d};
    assert c in multiset{a, b};
    assert a == c;
    assert multiset{a, b} - multiset{a} == multiset{b};
    assert multiset{c, d} - multiset{c} == multiset{d};
  }

  /** The hook maps both orders of one pair of ids to the same stored pair. */
  lemma PreSaveSymmetric(a: string, b: string)
    ensures PreSaveOrder(Some(a), Some(b)) == PreSaveOrder(Some(b), Some(a))
  {
    var r := PreSaveOrder(Some(a), Some(b));
    var s := PreSaveOrder(Some(b), Some(a));
    OrderedPairUnique(r.0.value, r.1.value, s.0.value, s.1.value);
  }

  /** A connection document before it is saved; the hook updates it in place. */
  class ConnectionDoc {
    var id: string
    var user1: Option<string>
    var user2: Option<string>
    var createdAt: int

    constructor (id: string, user1: Option<string>, user2: Option<string>, now: int)
      ensures this.id == id && this.user1 == user1 && this.user2 == user2 && createdAt == now
    {
      this.id := id;
      this.user1 := user1;
      this.user2 := user2;
      createdAt := now;
    }

    /** The pre-save hook: swap the endpoints when `user1 > user2`. */
    method PreSave()
      modifies this
      ensures (user1, user2) == PreSaveOrder(old(user1), old(user2))
      ensures id == old(id) && createdAt == old(createdAt)
    {
      if user1.Some? && user2.Some? {
        var id1 := user1.value;
        var id2 := user2.value;
        if LexLess(id2, id1) {
          user1, user2 := user2, user1;
        }
      }
    }
  }

  /** The first stored edge whose key is `(u1, u2)`: `Connection.findOne({ user1, user2 })`. */
  function FindKey(edges: seq<Edge>, u1: string, u2: string): (r: Option<Edge>)
    ensures r.Some? ==> r.value in edges && r.value.user1 == u1 && r.value.user2 == u2
    ensures r.None? ==> forall i :: 0 <= i < |edges| ==> !(edges[i].user1 == u1 && edges[i].user2 == u2)
  {
    if |edges| == 0 then None
    else if edges[0].user1 == u1 && edges[0].user2 == u2 then Some(edges[0])
    else FindKey(edges[1..], u1, u2)
  }

  /** Appending an edge under a new key leaves earlier keys found as before and finds the new one. */
  lemma {:induction false} FindKeyAppend(edges: seq<Edge>, e: Edge, u1: string, u2: string)
    ensures FindKey(edges + [e], u1, u2) ==
      if FindKey(edges, u1, u2).Some? then FindKey(edges, u1, u2)
      else if e.user1 == u1 && e.user2 == u2 then Some(e) else None
  {
    if |edges| > 0 {
      assert (edges + [e])[1..] == edges[1..] + [e];
      FindKeyAppend(edges[1..], e, u1, u2);
    } else {
      assert (edges + [e])[1..] == [];
    }
  }

  predicate IdTaken(edges: seq<Edge>, id: string) {
    exists i | 0 <= i < |edges| :: edges[i].id == id
  }

  /**
   * What the store guarantees: every edge is stored ordered (the hook runs on
   * every save), and `_id` and the pair `(user1, user2)` are unique indexes.
   */
  predicate EdgesValid(edges: seq<Edge>) {
    (forall i :: 0 <= i < |edges| ==> LexLeq(edges[i].user1, edges[i].user2))
    && (forall i, j :: 0 <= i < j < |edges| ==>
          edges[i].id != edges[j].id
          && (edges[i].user1 != edges[j].user1 || edges[i].user2 != edges[j].user2))
  }

  /** The unique index and the hook together allow at most one edge per unordered pair. */
  lemma AtMostOneEdgePerPair(edges: seq<Edge>, i: nat, j: nat)
    requires EdgesValid(edges)
    requires i < j < |edges|
    ensures multiset{edges[i].user1, edges[i].user2} != multiset{edges[j].user1, edges[j].user2}
  {
    if multiset{edges[i].user1, edges[i].user2} == multiset{edges[j].user1, edges[j].user2} {
      OrderedPairUnique(edges[i].user1, edges[i].user2, edges[j].user1, edges[j].user2);
    }
  }

  /** Some stored edge joins `a` and `b`, in either order. */
  predicate PairStored(edges: seq<Edge>, a: string, b: string) {
    exists i | 0 <= i < |edges| :: multiset{edges[i].user1, edges[i].user2} == multiset{a, b}
  }

  datatype SaveOutcome = ValidationFailed | DuplicateKey | Saved(edge: Edge)

  /**
   * `save()` of a connection document: the `required` validators run first,
   * then the hook orders the pair, then the unique indexes decide.
   */
  function SaveOutcomeOf(edges: seq<Edge>, id: string, u1: Option<string>, u2: Option<string>, createdAt: int): (r: SaveOutcome)
    ensures r.ValidationFailed? <==> u1.None? || u2.None?
    ensures r.Saved? ==>
      && r.edge.id == id && r.edge.createdAt == createdAt
      && multiset{r.edge.user1, r.edge.user2} == multiset{u1.value, u2.value}
      && LexLeq(r.edge.user1, r.edge.user2)
      && FindKey(edges, r.edge.user1, r.edge.user2).None?
      && !IdTaken(edges, id)
    ensures r.DuplicateKey? ==> IdTaken(edges, id) || PairStored(edges, u1.value, u2.value)
  {
    if u1.None? || u2.None? then ValidationFailed
    else
      var p := PreSaveOrder(u1, u2);
      var a, b := p.0.value, p.1.value;
      if FindKey(edges, a, b).Some? || IdTaken(edges, id) then DuplicateKey
      else Saved(Edge(id, a, b, createdAt))
  }

  /**
   * In a valid store the indexes reject exactly the clashes: a taken `_id`,
   * or an edge already joining the two ids in either order.
   */
  lemma SaveDuplicateIff(edges: seq<Edge>, id: string, a: string, b: string, createdAt: int)
    requires EdgesValid(edges)
    ensures SaveOutcomeOf(edges, id, Some(a), Some(b), createdAt).DuplicateKey?
      <==> IdTaken(edges, id) || PairStored(edges, a, b)
  {
    if PairStored(edges, a, b) {
      PairStoredFindsKey(edges, a, b);
    }
  }

  /** In a valid store, an edge joining `a` and `b` is found under their ordered key. */
  lemma PairStoredFindsKey(edges: seq<Edge>, a: string, b: string)
    requires EdgesValid(edges) && PairStored(edges, a, b)
    ensures var p := PreSaveOrder(Some(a), Some(b)); FindKey(edges, p.0.value, p.1.value).Some?
  {
    var i :| 0 <= i < |edges| && multiset{edges[i].user1, edges[i].user2} == multiset{a, b};
    var p := PreSaveOrder(Some(a), Some(b));
    OrderedPairUnique(edges[i].user1, edges[i].user2, p.0.value, p.1.value);
  }

  /** Saving keeps the store's guarantees. */
  lemma SaveKeepsValid(edges: seq<Edge>, id: string, u1: Option<string>, u2: Option<string>, createdAt: int)
    requires EdgesValid(edges)
    requires SaveOutcomeOf(edges, id, u1, u2, createdAt).Saved?
    ensures EdgesValid(edges + [SaveOutcomeOf(edges, id, u1, u2, createdAt).edge])
  {
    var e := SaveOutcomeOf(edges, id, u1, u2, createdAt).edge;
    var s := edges + [e];
    forall i, j | 0 <= i < j < |s|
      ensures s[i].id != s[j].id && (s[i].user1 != s[j].user1 || s[i].user2 != s[j].user2)
    {
      if j == |edges| {
        assert s[i] == edges[i];
      }
    }
  }

  /** Once a pair is stored, saving the same two ids again, in either order, hits the unique index. */
  lemma SecondSaveOfPairFails(edges: seq<Edge>, id: string, a: string, b: string, createdAt: int,
                              id': string, createdAt': int)
    requires SaveOutcomeOf(edges, id, Some(a), Some(b), createdAt).Saved?
    ensures var e := SaveOutcomeOf(edges, id, Some(a), Some(b), createdAt).edge;
      SaveOutcomeOf(edges + [e], id', Some(a), Some(b), createdAt') == DuplicateKey
      && SaveOutcomeOf(edges + [e], id', Some(b), Some(a), createdAt') == DuplicateKey
  {
    var e := SaveOutcomeOf(edges, id, Some(a), Some(b), createdAt).edge;
    PreSaveSymmetric(a, b);
    FindKeyAppend(edges, e, e.user1, e.user2);
  }

  /** The connection collection. */
  class ConnectionStore {
    var edges: seq<Edge>

    predicate Valid()
      reads this
    {
      EdgesValid(edges)
    }

    constructor ()
      ensures Valid() && edges == []
    {
      edges := [];
    }

    /** `doc.save()`: validate, run the hook on `doc`, then insert unless an index is violated. */
    method Save(doc: ConnectionDoc) returns (r: SaveOutcome)
      requires Valid()
      modifies this, doc
      ensures Valid()
      ensures r == SaveOutcomeOf(old(edges), old(doc.id), old(doc.user1), old(doc.user2), old(doc.createdAt))
      ensures edges == if r.Saved? then old(edges) + [r.edge] else old(edges)
      ensures (doc.user1, doc.user2) == PreSaveOrder(old(doc.user1), old(doc.user2))
      ensures doc.id == old(doc.id) && doc.createdAt == old(doc.createdAt)
    {
      if doc.user1.None? || doc.user2.None? {
        r := ValidationFailed;
        return;
      }
      doc.PreSave();
      var u1, u2 := doc.user1.value, doc.user2.value;
      if FindKey(edges, u1, u2).Some? || IdTaken(edges, doc.id) {
        r := DuplicateKey;
        return;
      }
      var e := Edge(doc.id, u1, u2, doc.createdAt);
      SaveKeepsValid(edges, doc.id, old(doc.user1), old(doc.user2), doc.createdAt);
      edges := edges + [e];
      r := Saved(e);
    }
  }
}
