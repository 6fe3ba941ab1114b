/** Incremental recomputation of the ancestor tables. `groups_ancestors` is a max-of-min closure over the expiry
    times of relations, `items_ancestors` a plain transitive closure; both are computed by rounds over marked
    objects. */
module Ancestors {
  import opened Collections
  import opened Graph

  type Time = int

  /** '9999-12-31 23:59:59', the expiry of rows that never expire */
  const MAX_TIME: Time := 253402300799

  datatype Relation = Relation(expiresAt: Time, isTeamMembership: bool)

  /** groups_groups by (parent, child) */
  type Relations = map<(Id, Id), Relation>

  /** groups_ancestors: the expiry of each (ancestor, child) row */
  type AncestorRows = map<(Id, Id), Time>

  /** *_propagate.ancestors_computation_state */
  datatype State = Todo | Done

  function TodoIds(marks: map<Id, State>): set<Id> {
    set x | x in marks && marks[x] == Todo
  }

  /** The relations that count for ancestors, expired ones included. */
  function Links(relations: Relations): Edges {
    set e | e in relations && !relations[e].isTeamMembership
  }

  /** The relations that count for ancestors and expire after `t`. */
  function LinksAfter(relations: Relations, t: Time): Edges {
    set e | e in relations && !relations[e].isTeamMembership && relations[e].expiresAt > t
  }

  // ---------- One round, common to both tables ----------

  /** The marked objects none of whose parents is marked. */
  function ToProcess(links: Edges, todo: set<Id>): set<Id> {
    set x | x in todo && !exists p :: p in todo && (p, x) in links
  }

  /** No round recomputes an object together with one of its parents. */
  lemma NoParentInSameRound(links: Edges, todo: set<Id>, p: Id, x: Id)
    requires (p, x) in links
    ensures !(p in ToProcess(links, todo) && x in ToProcess(links, todo))
  {
  }

  lemma SomeObjectIsProcessed(links: Edges, todo: set<Id>)
    requires Acyclic(links) && todo != {}
    ensures ToProcess(links, todo) != {}
  {
    var x := SomeElement(todo);
    var m := MinimalNode(links, todo, x);
    forall p | p in todo
      ensures (p, m) !in links
    {
      if (p, m) in links {
        EdgeReaches(links, p, m);
      }
    }
    assert m in ToProcess(links, todo);
  }

  /** When a round finds nothing to process, what is left is on a cycle of the relations or below one. */
  lemma LeftoversAreBelowCycles(links: Edges, todo: set<Id>, x: Id)
    requires ToProcess(links, todo) == {} && x in todo
    ensures exists y :: y in todo && Reaches(links, y, y) && (y == x || Reaches(links, y, x))
  {
    forall y | y in todo
      ensures HasParentIn(links, todo, y)
    {
      assert y !in ToProcess(links, todo);
    }
    ClosedUnderParentsIsBelowCycle(links, todo, x);
  }

  // ---------- The rounds of one recomputation ----------

  /** The objects that the rounds process */
  function Processed(rounds: seq<set<Id>>): set<Id> {
    if rounds == [] then {} else Processed(rounds[..|rounds| - 1]) + rounds[|rounds| - 1]
  }

  /** Each round processes the objects that are still marked and have no marked parent. */
  ghost predicate AreRounds(links: Edges, todo: set<Id>, rounds: seq<set<Id>>) {
    forall i :: 0 <= i < |rounds| ==> rounds[i] == ToProcess(links, todo - Processed(rounds[..i]))
  }

  /** The rounds go on until one finds nothing to process. */
  ghost predicate AreAllRounds(links: Edges, todo: set<Id>, rounds: seq<set<Id>>) {
    AreRounds(links, todo, rounds) && rounds != [] && rounds[|rounds| - 1] == {}
  }

  lemma {:induction false} RoundIsProcessed(rounds: seq<set<Id>>, i: nat)
    requires i < |rounds|
    ensures rounds[i] <= Processed(rounds)
    decreases |rounds|
  {
    var n := |rounds|;
    if i < n - 1 {
      RoundIsProcessed(rounds[..n - 1], i);
    }
  }

  /** No object is processed by two rounds. */
  lemma RoundsAreDisjoint(links: Edges, todo: set<Id>, rounds: seq<set<Id>>, i: nat, j: nat)
    requires AreRounds(links, todo, rounds) && i < j < |rounds|
    ensures rounds[i] !! rounds[j]
  {
    assert rounds[..j][i] == rounds[i];
    RoundIsProcessed(rounds[..j], i);
  }

  lemma OneMoreRound(links: Edges, todo: set<Id>, rounds: seq<set<Id>>, processing: set<Id>)
    requires AreRounds(links, todo, rounds) && processing == ToProcess(links, todo - Processed(rounds))
    ensures AreRounds(links, todo, rounds + [processing])
    ensures Processed(rounds + [processing]) == Processed(rounds) + processing
  {
    var more := rounds + [processing];
    assert more[..|rounds|] == rounds;
    forall i | 0 <= i < |rounds|
      ensures more[..i] == rounds[..i]
    {
    }
  }

  // ---------- groups_ancestors ----------

  predicate RowAfter(rows: AncestorRows, a: Id, x: Id, t: Time) {
    (a, x) in rows && rows[(a, x)] > t
  }

  /** At time `t` the unexpired rows of `x` are exactly the groups that reach it through relations alive at `t`. */
  ghost predicate ExactAt(rows: AncestorRows, relations: Relations, t: Time, x: Id) {
    forall a :: RowAfter(rows, a, x, t) && a != x <==> Reaches(LinksAfter(relations, t), a, x)
  }

  /** The rows of `x` are exact now and stay exact for ever, unless a relation changes. */
  ghost predicate Exact(rows: AncestorRows, relations: Relations, now: Time, x: Id) {
    forall t {:trigger ExactAt(rows, relations, t, x)} :: t >= now ==> ExactAt(rows, relations, t, x)
  }

  ghost predicate UnmarkedExact(relations: Relations, rows: AncestorRows, now: Time, todo: set<Id>) {
    forall x {:trigger Exact(rows, relations, now, x)} :: x !in todo ==> Exact(rows, relations, now, x)
  }

  /** INSERT ... SELECT of the cached descendants of marked groups, expired rows included */
  function MarkDescendants(rows: AncestorRows, marks: map<Id, State>): map<Id, State> {
    var todo := TodoIds(marks);
    var descendants := set k | k in rows && k.0 in todo :: k.1;
    marks + map x | x in descendants :: Todo
  }

  function Min(a: Time, b: Time): Time {
    if a < b then a else b
  }

  /** DELETE of the rows of the processed groups except for their self rows */
  function WithoutAncestorsOf(rows: AncestorRows, processing: set<Id>): AncestorRows {
    map k | k in rows && (k.1 !in processing || k.0 == k.1) :: rows[k]
  }

  /** The expiry times through each parent that connects `a` with `x`, both parts still alive. */
  function Offers(relations: Relations, rows: AncestorRows, now: Time, a: Id, x: Id): set<Time> {
    set e | e in relations && e.1 == x && !relations[e].isTeamMembership && now < relations[e].expiresAt &&
            (a, e.0) in rows && now < rows[(a, e.0)] :: Min(rows[(a, e.0)], relations[e].expiresAt)
  }

  /** INSERT ... SELECT MAX(LEAST(...)) GROUP BY child, ancestor */
  function NewAncestorsOf(relations: Relations, rows: AncestorRows, now: Time, processing: set<Id>): AncestorRows {
    var keys := set e, k | e in relations && e.1 in processing && k in rows && k.1 == e.0 :: (k.0, e.1);
    map k | k in keys && Offers(relations, rows, now, k.0, k.1) != {} :: MaxOf(Offers(relations, rows, now, k.0, k.1))
  }

  function RecomputeRows(relations: Relations, rows: AncestorRows, now: Time, processing: set<Id>): AncestorRows {
    var kept := WithoutAncestorsOf(rows, processing);
    kept + NewAncestorsOf(relations, kept, now, processing)
  }

  function MarkAsDone(marks: map<Id, State>, processing: set<Id>): map<Id, State> {
    map x | x in marks :: if x in processing then Done else marks[x]
  }

  lemma DoneTwice(marks: map<Id, State>, first: set<Id>, second: set<Id>)
    ensures MarkAsDone(MarkAsDone(marks, first), second) == MarkAsDone(marks, first + second)
    ensures TodoIds(MarkAsDone(marks, first)) == TodoIds(marks) - first
    ensures MarkAsDone(marks, {}) == marks
  {
  }

  /** The rows after some rounds */
  function RowsAfter(relations: Relations, rows: AncestorRows, now: Time, rounds: seq<set<Id>>): AncestorRows {
    if rounds == [] then rows else
      RecomputeRows(relations, RowsAfter(relations, rows, now, rounds[..|rounds| - 1]), now, rounds[|rounds| - 1])
  }

  lemma RowsAfterOneMore(relations: Relations, rows: AncestorRows, now: Time, rounds: seq<set<Id>>, processing: set<Id>)
    ensures RowsAfter(relations, rows, now, rounds + [processing]) ==
            RecomputeRows(relations, RowsAfter(relations, rows, now, rounds), now, processing)
  {
    assert (rounds + [processing])[..|rounds|] == rounds;
  }

  lemma NewRowHasOffers(relations: Relations, rows: AncestorRows, now: Time, processing: set<Id>, a: Id, x: Id)
    requires x in processing
    ensures var added, offers := NewAncestorsOf(relations, rows, now, processing), Offers(relations, rows, now, a, x);
            ((a, x) in added <==> offers != {}) && ((a, x) in added ==> added[(a, x)] == MaxOf(offers))
  {
    var offers := Offers(relations, rows, now, a, x);
    if offers != {} {
      var e :| e in relations && e.1 == x && (a, e.0) in rows;
      assert ((a, e.0).0, e.1) == (a, x);
    }
  }

  lemma NewRowMeaning(relations: Relations, rows: AncestorRows, now: Time, processing: set<Id>, a: Id, x: Id, t: Time)
    requires x in processing && now <= t
    ensures RowAfter(NewAncestorsOf(relations, rows, now, processing), a, x, t) <==>
            exists p :: (p, x) in LinksAfter(relations, t) && RowAfter(rows, a, p, t)
  {
    hide NewAncestorsOf;
    var offers := Offers(relations, rows, now, a, x);
    NewRowHasOffers(relations, rows, now, processing, a, x);
    if p :| (p, x) in LinksAfter(relations, t) && RowAfter(rows, a, p, t) {
      assert Min(rows[(a, p)], relations[(p, x)].expiresAt) in offers;
    }
    if offers != {} && MaxOf(offers) > t {
      var e :| e in relations && e.1 == x && !relations[e].isTeamMembership && now < relations[e].expiresAt &&
               (a, e.0) in rows && now < rows[(a, e.0)] && Min(rows[(a, e.0)], relations[e].expiresAt) == MaxOf(offers);
      assert (e.0, x) == e && e in LinksAfter(relations, t) && RowAfter(rows, a, e.0, t);
    }
  }

  lemma NewRowIsAlive(relations: Relations, rows: AncestorRows, now: Time, processing: set<Id>, a: Id, x: Id)
    ensures var added := NewAncestorsOf(relations, rows, now, processing);
            (a, x) in added ==> x in processing && RowAfter(added, a, x, now)
  {
    var offers := Offers(relations, rows, now, a, x);
    assert forall o :: o in offers ==> o > now;
    assert offers != {} ==> MaxOf(offers) in offers;
  }

  /** Every group has a self row that never expires and every relation joins two groups. */
  predicate WellFormed(groups: set<Id>, relations: Relations, rows: AncestorRows) {
    && (forall g :: g in groups ==> (g, g) in rows && rows[(g, g)] == MAX_TIME)
    && (forall e :: e in relations ==> e.0 in groups && e.1 in groups && relations[e].expiresAt <= MAX_TIME)
  }

  /** What is known of the rows of a parent of a processed group. */
  lemma ParentRow(groups: set<Id>, relations: Relations, rows: AncestorRows, todo: set<Id>, t: Time, a: Id, p: Id,
                  x: Id)
    requires WellFormed(groups, relations, rows) && x in ToProcess(Links(relations), todo)
    requires (p, x) in LinksAfter(relations, t)
    requires p !in todo ==> ExactAt(rows, relations, t, p)
    ensures RowAfter(WithoutAncestorsOf(rows, ToProcess(Links(relations), todo)), a, p, t) <==>
            a == p || Reaches(LinksAfter(relations, t), a, p)
    ensures p != x && !Reaches(LinksAfter(relations, t), x, p)
  {
    var edges := LinksAfter(relations, t);
    assert (p, x) in Links(relations);
    assert p !in todo;
    assert RowAfter(rows, p, p, t) by {
      assert (p, x).0 in groups;
    }
    assert !Reaches(edges, p, p);
    EdgeReaches(edges, p, x);
    if Reaches(edges, x, p) {
      ReachesTransitive(edges, p, x, p);
    }
  }

  /** A processed group gets exact rows because all its parents have them already. */
  lemma RecomputedRowIsExact(groups: set<Id>, relations: Relations, rows: AncestorRows, now: Time, todo: set<Id>,
                             t: Time, a: Id, x: Id)
    requires WellFormed(groups, relations, rows) && x in ToProcess(Links(relations), todo)
    requires forall p :: p !in todo ==> ExactAt(rows, relations, t, p)
    requires now <= t
    ensures RowAfter(RecomputeRows(relations, rows, now, ToProcess(Links(relations), todo)), a, x, t) && a != x
            <==> Reaches(LinksAfter(relations, t), a, x)
    ensures !Reaches(LinksAfter(relations, t), x, x)
  {
    var edges := LinksAfter(relations, t);
    var processing := ToProcess(Links(relations), todo);
    var kept := WithoutAncestorsOf(rows, processing);
    NewRowMeaning(relations, kept, now, processing, a, x, t);
    ReachesThroughParent(edges, a, x);
    ReachesThroughParent(edges, x, x);
    forall p | (p, x) in edges
      ensures RowAfter(kept, a, p, t) <==> a == p || Reaches(edges, a, p)
      ensures p != x && !Reaches(edges, x, p)
    {
      ParentRow(groups, relations, rows, todo, t, a, p, x);
    }
    assert a != x ==> (a, x) !in kept;
  }

  lemma OtherRowsAreKept(relations: Relations, rows: AncestorRows, now: Time, processing: set<Id>, a: Id, x: Id,
                         t: Time)
    requires x !in processing
    ensures RowAfter(RecomputeRows(relations, rows, now, processing), a, x, t) <==> RowAfter(rows, a, x, t)
  {
    assert (a, x) !in NewAncestorsOf(relations, WithoutAncestorsOf(rows, processing), now, processing);
  }

  // ---------- Old and new relations ----------

  /** Up to the marks, the relations are the ones the rows were computed for. */
  ghost predicate ChangesAreMarked(base: Relations, relations: Relations, todo: set<Id>) {
    forall e: (Id, Id), t: Time :: e.1 !in todo ==> (e in LinksAfter(relations, t) <==> e in LinksAfter(base, t))
  }

  /** After the descendants are marked, every unmarked group has rows that are exact for the new relations. */
  lemma UnmarkedRowsAreExact(base: Relations, relations: Relations, rows: AncestorRows, now: Time,
                             marks: map<Id, State>, x: Id, t: Time)
    requires forall y :: Exact(rows, base, now, y)
    requires ChangesAreMarked(base, relations, TodoIds(marks))
    requires x !in TodoIds(MarkDescendants(rows, marks)) && now <= t
    ensures ExactAt(rows, relations, t, x)
  {
    var changed := TodoIds(marks);
    var before, after := LinksAfter(base, t), LinksAfter(relations, t);
    assert Exact(rows, base, now, x);
    assert ExactAt(rows, base, t, x);
    assert x !in changed;
    forall c | c in changed
      ensures !Reaches(before, c, x)
    {
      assert (c, x) in rows ==> (c, x).1 in TodoIds(MarkDescendants(rows, marks));
    }
    forall a
      ensures Reaches(after, a, x) <==> Reaches(before, a, x)
    {
      SameAncestors(after, before, changed, a, x);
    }
  }

  lemma MarkedAsTodo(marks: map<Id, State>, ids: set<Id>)
    ensures TodoIds(marks + map x | x in ids :: Todo) == TodoIds(marks) + ids
  {
  }

  lemma PutRowsAreMarked(base: Relations, relations: Relations, todo: set<Id>, groups: set<Id>, ancestors: AncestorRows,
                         rows: Relations)
    requires WellFormed(groups, relations, ancestors) && ChangesAreMarked(base, relations, todo)
    requires Storable(groups, relations, rows)
    ensures WellFormed(groups, relations + rows, ancestors)
    ensures ChangesAreMarked(base, relations + rows, todo + ChangedChildren(relations, rows))
  {
    forall e: (Id, Id), t: Time | e.1 !in todo + ChangedChildren(relations, rows)
      ensures e in LinksAfter(relations + rows, t) <==> e in LinksAfter(base, t)
    {
      assert e in LinksAfter(relations, t) <==> e in LinksAfter(base, t);
      assert e in rows ==> rows[e].isTeamMembership || (e in relations && relations[e].expiresAt == rows[e].expiresAt);
    }
  }

  // ---------- The tables ----------

  class GroupGraph {
    var now: Time
    var groups: set<Id>
    var relations: Relations              // groups_groups
    var ancestors: AncestorRows           // groups_ancestors
    var propagate: map<Id, State>         // groups_propagate
    ghost var base: Relations             // the relations the ancestors were last computed for

    /** The rows are exact, now and later, for the relations of the last computation, and every relation changed since
        then has its child marked. */
    ghost predicate Valid()
      reads this
    {
      && WellFormed(groups, relations, ancestors)
      && (forall x :: Exact(ancestors, base, now, x))
      && ChangesAreMarked(base, relations, TodoIds(propagate))
    }

    /** The rows are exact for the relations as they are. */
    ghost predicate UpToDate()
      reads this
    {
      && WellFormed(groups, relations, ancestors)
      && TodoIds(propagate) == {}
      && forall x :: Exact(ancestors, relations, now, x)
    }

    /** The cache is exact and the relations, expired ones included, make no cycle. */
    ghost predicate Settled()
      reads this
    {
      Valid() && UpToDate() && base == relations && Acyclic(Links(relations))
    }

    /** Besides, no relation has expired. */
    ghost predicate Sound()
      reads this
    {
      Settled() && NoneExpired(relations, now)
    }

    /** Groups without relations: the insertion trigger of `groups` creates the self rows. */
    constructor (now: Time, groups: set<Id>)
      ensures this.now == now && this.groups == groups && relations == map[]
      ensures Sound()
    {
      this.now, this.groups, relations, propagate, base := now, groups, map[], map[], map[];
      var selfPairs := set g | g in groups :: (g, g);
      ancestors := map k | k in selfPairs :: MAX_TIME;
      new;
      forall x, t, a
        ensures !RowAfter(ancestors, a, x, t) || a == x
        ensures !Reaches(LinksAfter(relations, t), a, x)
      {
        if Reaches(LinksAfter(relations, t), a, x) {
          var _, _ := ReachesEnds(LinksAfter(relations, t), a, x);
        }
      }
      forall x, t | t >= now
        ensures ExactAt(ancestors, relations, t, x)
      {
      }
      assert Links(relations) == LinksAfter(relations, now);
    }

    /** Time passes: nothing has to be recomputed. */
    method Wait(later: Time)
      requires now <= later
      modifies this`now
      ensures now == later
      ensures old(Valid()) ==> Valid()
      ensures old(UpToDate()) ==> UpToDate()
    {
      now := later;
      if old(Valid()) {
        forall x
          ensures Exact(ancestors, base, now, x)
        {
          assert Exact(ancestors, base, old(now), x);
        }
      }
      if old(UpToDate()) {
        forall x
          ensures Exact(ancestors, relations, now, x)
        {
          assert Exact(ancestors, relations, old(now), x);
        }
      }
    }

    /** INSERT ... ON DUPLICATE KEY UPDATE expires_at of relations with its triggers: they mark the child of a new
        relation and of one whose expiry changes, but ignore team memberships. */
    method PutRelations(rows: Relations)
      modifies this`relations, this`propagate
      ensures relations == old(relations) + rows
      ensures TodoIds(propagate) == old(TodoIds(propagate)) + ChangedChildren(old(relations), rows)
      ensures old(Valid()) && Storable(groups, old(relations), rows) ==> Valid()
    {
      hide Exact, ChangesAreMarked, WellFormed, Storable, ChangedChildren, TodoIds;
      MarkedAsTodo(propagate, ChangedChildren(relations, rows));
      if Valid() && Storable(groups, relations, rows) {
        PutRowsAreMarked(base, relations, TodoIds(propagate), groups, ancestors, rows);
      }
      propagate := propagate + map x | x in ChangedChildren(relations, rows) :: Todo;
      relations := relations + rows;
    }

    /** DELETE of relations with its trigger, which ignores team memberships. */
    method DeleteRelations(removed: set<(Id, Id)>)
      modifies this`relations, this`propagate
      ensures relations == old(relations) - removed
      ensures TodoIds(propagate) == old(TodoIds(propagate)) + set e | e in removed && e in Links(old(relations)) :: e.1
      ensures old(Valid()) ==> Valid()
    {
      var children := set e | e in removed && e in Links(relations) :: e.1;
      propagate := propagate + map x | x in children :: Todo;
      relations := relations - removed;
      if old(Valid()) {
        forall e: (Id, Id), t: Time | e.1 !in TodoIds(propagate)
          ensures e in LinksAfter(relations, t) <==> e in LinksAfter(base, t)
        {
          assert e.1 !in TodoIds(old(propagate));
          assert e in LinksAfter(old(relations), t) <==> e in LinksAfter(base, t);
        }
      }
    }

    /** Deletes and inserts relations in one transaction. The rows are recomputed on demand. */
    method ChangeRelations(removed: set<(Id, Id)>, rows: Relations, recompute: bool)
      modifies this`relations, this`propagate, this`ancestors, this`base
      ensures relations == (old(relations) - removed) + rows
      ensures old(Settled()) && Storable(groups, old(relations) - removed, rows) &&
              (recompute || OnlyMemberships(old(relations), removed, rows)) && Acyclic(Links(relations)) ==>
                Settled()
    {
      ghost var sound, before, cached := Settled(), relations, ancestors;
      DeleteRelations(removed);
      PutRelations(rows);
      if recompute {
        var _ := CreateNewAncestors();
      } else if sound && Storable(groups, before - removed, rows) && OnlyMemberships(before, removed, rows) {
        MembershipsAreNoLinks(before, removed, rows);
        SameLinksStayExact(before, relations, cached, now);
        base := relations;
      }
    }

    /** DELETE FROM `groups`: the foreign keys remove the ancestor rows and the marks of the groups. */
    method DeleteGroups(ids: set<Id>)
      requires forall e :: e in relations ==> e.0 !in ids && e.1 !in ids
      modifies this`groups, this`ancestors, this`propagate
      ensures groups == old(groups) - ids
      ensures old(UpToDate()) ==> UpToDate()
      ensures old(UpToDate() && Valid() && base == relations) ==> Valid()
    {
      groups := groups - ids;
      ancestors := map k | k in ancestors && k.0 !in ids && k.1 !in ids :: ancestors[k];
      propagate := propagate - ids;
      if old(UpToDate()) {
        DeletedGroupsHadNoRows(relations, old(ancestors), now, ids, ancestors);
      }
    }

    /** The rounds recompute the rows of every marked group and of every cached descendant of one, each at most once,
        except for those on or below a cycle. */
    method CreateNewAncestors() returns (ghost rounds: seq<set<Id>>)
      modifies this`ancestors, this`propagate, this`base
      ensures AreAllRounds(Links(relations), TodoIds(MarkDescendants(old(ancestors), old(propagate))), rounds)
      ensures ancestors == RowsAfter(relations, old(ancestors), now, rounds)
      ensures propagate == MarkAsDone(MarkDescendants(old(ancestors), old(propagate)), Processed(rounds))
      ensures forall x :: x in TodoIds(propagate) ==> OnOrBelowCycle(Links(relations), x)
      ensures old(Valid()) ==>
                WellFormed(groups, relations, ancestors) && UnmarkedExact(relations, ancestors, now, TodoIds(propagate))
      ensures old(Valid()) && Acyclic(Links(relations)) ==> UpToDate() && Valid() && base == relations
    {
      hide ToProcess, RecomputeRows, MarkAsDone, MarkDescendants, TodoIds, Links, Acyclic, RowsAfter, Processed;
      hide AreRounds;
      hide OnOrBelowCycle;
      ghost var valid := Valid();
      ghost var marked := MarkDescendants(ancestors, propagate);
      propagate := MarkDescendants(ancestors, propagate);
      if valid {
        UnmarkedGroupsAreExact(base, relations, ancestors, now, old(propagate), propagate);
      }
      rounds := [];
      NoRounds(Links(relations), TodoIds(marked), relations, ancestors, now);
      DoneTwice(marked, {}, {});
      while true
        invariant valid ==>
                    WellFormed(groups, relations, ancestors) &&
                      UnmarkedExact(relations, ancestors, now, TodoIds(propagate))
        invariant AreRounds(Links(relations), TodoIds(marked), rounds)
        invariant ancestors == RowsAfter(relations, old(ancestors), now, rounds)
        invariant propagate == MarkAsDone(marked, Processed(rounds))
        invariant TodoIds(propagate) == TodoIds(marked) - Processed(rounds)
        decreases TodoIds(propagate)
      {
        ghost var todo := TodoIds(propagate);
        var processing := ToProcess(Links(relations), TodoIds(propagate));
        var rows := RecomputeRows(relations, ancestors, now, processing);
        var marks := MarkAsDone(propagate, processing);
        ProcessedWereTodo(Links(relations), todo);
        DoneTwice(propagate, processing, {});
        DoneTwice(marked, Processed(rounds), processing);
        OneMoreRound(Links(relations), TodoIds(marked), rounds, processing);
        RowsAfterOneMore(relations, old(ancestors), now, rounds, processing);
        if valid {
          RoundKeepsUnmarkedExact(groups, relations, ancestors, now, propagate, processing, rows, marks);
          RoundKeepsWellFormed(groups, relations, ancestors, now, todo, processing, rows);
        }
        ancestors := rows;
        propagate := marks;
        rounds := rounds + [processing];
        if processing == {} {
          WhatIsLeft(Links(relations), todo);
          break;
        }
      }
      if valid && Acyclic(Links(relations)) {
        base := relations;
        NoChangesToMark(relations, TodoIds(propagate));
      }
    }
  }

  lemma NoRounds(links: Edges, todo: set<Id>, relations: Relations, rows: AncestorRows, now: Time)
    ensures AreRounds(links, todo, []) && Processed([]) == {} && RowsAfter(relations, rows, now, []) == rows
  {
  }

  lemma ProcessedWereTodo(links: Edges, todo: set<Id>)
    ensures ToProcess(links, todo) <= todo
  {
  }

  lemma NoChangesToMark(relations: Relations, todo: set<Id>)
    ensures ChangesAreMarked(relations, relations, todo)
  {
  }

  ghost predicate NoneExpired(relations: Relations, now: Time) {
    forall e :: e in Links(relations) ==> now < relations[e].expiresAt
  }

  /** The relations differ in team memberships only. */
  ghost predicate SameLinks(relations: Relations, other: Relations) {
    forall e :: IsLink(relations, e) == IsLink(other, e) && (IsLink(relations, e) ==> relations[e] == other[e])
  }

  predicate IsLink(relations: Relations, e: (Id, Id)) {
    e in relations && !relations[e].isTeamMembership
  }

  /** Team memberships only are removed and stored. */
  ghost predicate OnlyMemberships(relations: Relations, removed: set<(Id, Id)>, rows: Relations) {
    (forall e :: e in removed ==> !IsLink(relations, e)) && (forall e :: e in rows ==> rows[e].isTeamMembership)
  }

  lemma MembershipsAreNoLinks(relations: Relations, removed: set<(Id, Id)>, rows: Relations)
    requires OnlyMemberships(relations, removed, rows)
    requires forall e :: e in rows && e in relations - removed ==>
               relations[e].isTeamMembership == rows[e].isTeamMembership
    ensures SameLinks(relations, (relations - removed) + rows)
    ensures ChangedChildren(relations - removed, rows) == {}
    ensures (set e | e in removed && e in Links(relations) :: e.1) == {}
  {
    assert forall e :: e in removed ==> (e in Links(relations) <==> IsLink(relations, e));
  }

  lemma SameLinksStayExact(relations: Relations, after: Relations, rows: AncestorRows, now: Time)
    requires forall x :: Exact(rows, relations, now, x)
    requires SameLinks(relations, after)
    ensures forall x :: Exact(rows, after, now, x)
  {
    forall x, t | t >= now
      ensures ExactAt(rows, after, t, x)
    {
      assert Exact(rows, relations, now, x) && ExactAt(rows, relations, t, x);
      forall e
        ensures e in LinksAfter(after, t) <==> e in LinksAfter(relations, t)
      {
        assert IsLink(relations, e) == IsLink(after, e);
      }
      assert LinksAfter(after, t) == LinksAfter(relations, t);
    }
  }

  /** With an exact cache, a group that is no cached ancestor reaches the other one by no active relations, and by no
      relations at all as long as none has expired. */
  lemma NotCachedNotReached(groups: set<Id>, relations: Relations, rows: AncestorRows, now: Time, a: Id, x: Id)
    requires WellFormed(groups, relations, rows) && Exact(rows, relations, now, x)
    requires x in groups && (a, x) !in rows
    ensures a != x && !Reaches(LinksAfter(relations, now), a, x)
    ensures NoneExpired(relations, now) ==> !Reaches(Links(relations), a, x)
  {
    assert ExactAt(rows, relations, now, x);
    assert !RowAfter(rows, a, x, now);
    if NoneExpired(relations, now) {
      assert Links(relations) == LinksAfter(relations, now);
    }
  }

  /** Groups without relations have no unexpired rows but their self rows, so nothing is lost for the others. */
  lemma DeletedGroupsHadNoRows(relations: Relations, rows: AncestorRows, now: Time, ids: set<Id>, after: AncestorRows)
    requires forall x :: Exact(rows, relations, now, x)
    requires forall e :: e in relations ==> e.0 !in ids && e.1 !in ids
    requires after == map k | k in rows && k.0 !in ids && k.1 !in ids :: rows[k]
    ensures forall x :: Exact(after, relations, now, x)
  {
    forall x, t | t >= now
      ensures ExactAt(after, relations, t, x)
    {
      assert Exact(rows, relations, now, x) && ExactAt(rows, relations, t, x);
      forall a
        ensures RowAfter(after, a, x, t) && a != x <==> Reaches(LinksAfter(relations, t), a, x)
      {
        if Reaches(LinksAfter(relations, t), a, x) {
          var _, _ := ReachesEnds(LinksAfter(relations, t), a, x);
        }
      }
    }
  }

  /** The rows respect the foreign keys and leave `is_team_membership` as it is. */
  ghost predicate Storable(groups: set<Id>, relations: Relations, rows: Relations) {
    forall e :: e in rows ==>
      && e.0 in groups && e.1 in groups && rows[e].expiresAt <= MAX_TIME
      && (e in relations ==> relations[e].isTeamMembership == rows[e].isTeamMembership)
  }

  /** The children of relations that are new or get another expiry, team memberships excepted */
  function ChangedChildren(relations: Relations, rows: Relations): set<Id> {
    set e | e in rows && !rows[e].isTeamMembership &&
            !(e in relations && relations[e].expiresAt == rows[e].expiresAt) :: e.1
  }

  lemma RowsStayExactAt(groups: set<Id>, relations: Relations, rows: AncestorRows, now: Time, todo: set<Id>, t: Time,
                        x: Id)
    requires WellFormed(groups, relations, rows) && now <= t
    requires UnmarkedExact(relations, rows, now, todo)
    requires x !in todo - ToProcess(Links(relations), todo)
    ensures ExactAt(RecomputeRows(relations, rows, now, ToProcess(Links(relations), todo)), relations, t, x)
  {
    var processing := ToProcess(Links(relations), todo);
    forall p | p !in todo
      ensures ExactAt(rows, relations, t, p)
    {
      assert Exact(rows, relations, now, p);
    }
    forall a
      ensures RowAfter(RecomputeRows(relations, rows, now, processing), a, x, t) && a != x <==>
              Reaches(LinksAfter(relations, t), a, x)
    {
      if x in processing {
        RecomputedRowIsExact(groups, relations, rows, now, todo, t, a, x);
      } else {
        OtherRowsAreKept(relations, rows, now, processing, a, x, t);
      }
    }
  }

  /** No self row is ever inserted twice. */
  lemma NoSelfRowIsAdded(groups: set<Id>, relations: Relations, rows: AncestorRows, now: Time, todo: set<Id>, g: Id)
    requires WellFormed(groups, relations, rows) && UnmarkedExact(relations, rows, now, todo)
    ensures var processing := ToProcess(Links(relations), todo);
            (g, g) !in NewAncestorsOf(relations, WithoutAncestorsOf(rows, processing), now, processing)
  {
    var processing := ToProcess(Links(relations), todo);
    var kept := WithoutAncestorsOf(rows, processing);
    var added := NewAncestorsOf(relations, kept, now, processing);
    NewRowIsAlive(relations, kept, now, processing, g, g);
    if g in processing {
      NewRowMeaning(relations, kept, now, processing, g, g, now);
      forall p | (p, g) in LinksAfter(relations, now)
        ensures !RowAfter(kept, g, p, now)
      {
        assert p !in todo ==> Exact(rows, relations, now, p);
        ParentRow(groups, relations, rows, todo, now, g, p, g);
      }
      assert !RowAfter(added, g, g, now);
    }
  }

  lemma UnmarkedGroupsAreExact(base: Relations, relations: Relations, rows: AncestorRows, now: Time,
                               before: map<Id, State>, marks: map<Id, State>)
    requires forall y :: Exact(rows, base, now, y)
    requires ChangesAreMarked(base, relations, TodoIds(before)) && marks == MarkDescendants(rows, before)
    ensures UnmarkedExact(relations, rows, now, TodoIds(marks))
  {
    forall x, t | x !in TodoIds(marks) && t >= now
      ensures ExactAt(rows, relations, t, x)
    {
      UnmarkedRowsAreExact(base, relations, rows, now, before, x, t);
    }
  }

  lemma RoundKeepsUnmarkedExact(groups: set<Id>, relations: Relations, rows: AncestorRows, now: Time,
                                marks: map<Id, State>, processing: set<Id>, after: AncestorRows, left: map<Id, State>)
    requires WellFormed(groups, relations, rows) && UnmarkedExact(relations, rows, now, TodoIds(marks))
    requires processing == ToProcess(Links(relations), TodoIds(marks))
    requires after == RecomputeRows(relations, rows, now, processing)
    requires left == MarkAsDone(marks, processing)
    ensures TodoIds(left) == TodoIds(marks) - processing
    ensures UnmarkedExact(relations, after, now, TodoIds(left))
  {
    hide WellFormed, ToProcess, RecomputeRows, ExactAt;
    forall x, t | x !in TodoIds(left) && t >= now
      ensures ExactAt(after, relations, t, x)
    {
      RowsStayExactAt(groups, relations, rows, now, TodoIds(marks), t, x);
    }
  }

  lemma RoundKeepsWellFormed(groups: set<Id>, relations: Relations, rows: AncestorRows, now: Time, todo: set<Id>,
                             processing: set<Id>, after: AncestorRows)
    requires WellFormed(groups, relations, rows) && UnmarkedExact(relations, rows, now, todo)
    requires processing == ToProcess(Links(relations), todo)
    requires after == RecomputeRows(relations, rows, now, processing)
    ensures WellFormed(groups, relations, after)
  {
    forall g | g in groups
      ensures (g, g) in after && after[(g, g)] == MAX_TIME
    {
      NoSelfRowIsAdded(groups, relations, rows, now, todo, g);
    }
  }

  ghost predicate OnOrBelowCycle(links: Edges, x: Id) {
    exists y :: Reaches(links, y, y) && (y == x || Reaches(links, y, x))
  }

  lemma WhatIsLeft(links: Edges, todo: set<Id>)
    requires ToProcess(links, todo) == {}
    ensures forall x :: x in todo ==> OnOrBelowCycle(links, x)
    ensures Acyclic(links) ==> todo == {}
  {
    forall x | x in todo
      ensures OnOrBelowCycle(links, x)
    {
      LeftoversAreBelowCycles(links, todo, x);
    }
    if todo != {} {
      var x := SomeElement(todo);
      assert OnOrBelowCycle(links, x);
    }
  }

  // ---------- What expired relations can do ----------

  const FOREVER := Relation(MAX_TIME, false)

  const SELF_ROWS: AncestorRows :=
    map[(1, 1) := MAX_TIME, (2, 2) := MAX_TIME, (3, 3) := MAX_TIME, (4, 4) := MAX_TIME]

  /** A relation between groups that are no teams is created and, as nothing else is marked, the rounds start from the
      child. */
  ghost predicate IsCreated(relations: Relations, rows: AncestorRows, now: Time, e: (Id, Id), after: Relations,
                            rowsAfter: AncestorRows, rounds: seq<set<Id>>) {
    && (e.1, e.0) !in rows && after == relations[e := FOREVER]
    && AreAllRounds(Links(after), TodoIds(MarkDescendants(rows, map[e.1 := Todo])), rounds)
    && rowsAfter == RowsAfter(after, rows, now, rounds)
  }

  /** Expired relations can hide cycles. Four groups start with an exact cache, an acyclic graph and no expired
      relation, but 1 -> 2 expires at `now`. Then 3 -> 2 is created, which removes the expired row, and 2 -> 1, which
      nothing refuses although it closes a cycle with the expired relation. From now on 1 and 2 wait for each other once
      they are marked: when 4 -> 2 is created no row of 2 is recomputed, so 4 is missing among its ancestors, and
      nothing refuses 2 -> 4, which closes a cycle of unexpired relations. */
  lemma ExpiredRelationsCanHideCycles(before: Time, now: Time)
    returns (start: Relations, cached: AncestorRows, first: Relations, second: Relations, third: Relations,
             last: Relations)
    requires before < now < MAX_TIME
    ensures WellFormed({1, 2, 3, 4}, start, cached) && Acyclic(Links(start)) && NoneExpired(start, before)
    ensures forall x :: Exact(cached, start, before, x)
    ensures var rows1 := SELF_ROWS[(3, 2) := MAX_TIME];
            var rows2 := rows1[(2, 1) := MAX_TIME][(3, 1) := MAX_TIME];
            && IsCreated(start, cached, now, (3, 2), first, rows1, [{2}, {}])
            && IsCreated(first, rows1, now, (2, 1), second, rows2, [{1}, {}])
            && IsCreated(second, rows2, now, (4, 2), third, rows2, [{}])
            && (4, 2) !in rows2 && last == third[(2, 4) := FOREVER]
            && !Acyclic(LinksAfter(last, now))
  {
    hide Exact, Acyclic, AreAllRounds, RowsAfter, MarkDescendants;
    start, cached := map[(1, 2) := Relation(now, false)], SELF_ROWS[(1, 2) := now];
    first := start[(3, 2) := FOREVER];
    second := first[(2, 1) := FOREVER];
    third := second[(4, 2) := FOREVER];
    last := third[(2, 4) := FOREVER];
    ExpiringStart(before, now, start, cached);
    FirstCreation(now, first, cached);
    SecondCreation(now, second, SELF_ROWS[(3, 2) := MAX_TIME]);
    ThirdCreation(now, third, SELF_ROWS[(3, 2) := MAX_TIME][(2, 1) := MAX_TIME][(3, 1) := MAX_TIME]);
    LastCreation(now, last);
  }

  lemma ExpiringStart(before: Time, now: Time, start: Relations, cached: AncestorRows)
    requires start == map[(1, 2) := Relation(now, false)] && cached == SELF_ROWS[(1, 2) := now]
    ensures Acyclic(Links(start)) && forall x :: Exact(cached, start, before, x)
  {
    forall t, x, a | t >= before
      ensures RowAfter(cached, a, x, t) && a != x <==> Reaches(LinksAfter(start, t), a, x)
    {
      OnlyEdgeReaches(LinksAfter(start, t), (1, 2), a, x);
    }
    forall x, t | t >= before
      ensures ExactAt(cached, start, t, x)
    {
    }
    forall x
      ensures !Reaches(Links(start), x, x)
    {
      OnlyEdgeReaches(Links(start), (1, 2), x, x);
    }
  }

  lemma OnlyEdgeReaches(edges: Edges, e: (Id, Id), a: Id, x: Id)
    requires edges <= {e} && e.0 != e.1
    ensures Reaches(edges, a, x) <==> edges == {e} && (a, x) == e
  {
    ReachesThroughParent(edges, a, x);
    ReachesThroughParent(edges, a, e.0);
    if edges == {e} {
      EdgeReaches(edges, e.0, e.1);
    }
  }

  /** The rounds process exactly one group. */
  lemma OneRound(links: Edges, rows: AncestorRows, x: Id, relations: Relations, now: Time)
    requires (x, x) in rows && (x, x) !in links && forall k :: k in rows && k.0 == x ==> k.1 == x
    ensures AreAllRounds(links, TodoIds(MarkDescendants(rows, map[x := Todo])), [{x}, {}])
    ensures RowsAfter(relations, rows, now, [{x}, {}]) == RecomputeRows(relations, rows, now, {x})
  {
    hide RecomputeRows;
    var todo, rounds := TodoIds(MarkDescendants(rows, map[x := Todo])), [{x}, {}];
    assert todo == {x} && ToProcess(links, {x}) == {x} && ToProcess(links, {}) == {};
    assert rounds[..0] == [] && rounds[..1] == [{x}] && [{x}][..0] == [];
    assert Processed([{x}]) == {x};
    NothingProcessed(relations, RecomputeRows(relations, rows, now, {x}), now);
    assert RowsAfter(relations, rows, now, [{x}]) == RecomputeRows(relations, rows, now, {x});
  }

  lemma NothingProcessed(relations: Relations, rows: AncestorRows, now: Time)
    ensures RecomputeRows(relations, rows, now, {}) == rows
  {
  }

  /** A group with one parent alive gets the rows of that parent. */
  lemma OneParent(relations: Relations, rows: AncestorRows, now: Time, p: Id, x: Id)
    requires now < MAX_TIME && p != x && (p, x) in relations && relations[(p, x)] == FOREVER && (x, p) !in rows
    requires forall e :: e in relations && e.1 == x && now < relations[e].expiresAt ==> e.0 == p
    requires forall k :: k in rows && k.1 == p ==> rows[k] == MAX_TIME
    ensures var after := RecomputeRows(relations, rows, now, {x});
            forall k :: (k in after <==> IsRowWithParent(rows, p, x, k)) &&
                        (k in after ==> after[k] == if k.1 == x && k.0 != x then MAX_TIME else rows[k])
  {
    hide Offers, NewAncestorsOf;
    var kept := WithoutAncestorsOf(rows, {x});
    var added := NewAncestorsOf(relations, kept, now, {x});
    forall k
      ensures k in added <==> k.1 == x && (k.0, p) in rows
      ensures k in added ==> added[k] == MAX_TIME
    {
      AddedRow(relations, rows, kept, now, p, x, k.0);
      OnlyRowsOf(relations, kept, now, x, k);
    }
  }

  predicate IsRowWithParent(rows: AncestorRows, p: Id, x: Id, k: (Id, Id)) {
    if k.1 == x && k.0 != x then (k.0, p) in rows else k in rows
  }

  lemma OnlyRowsOf(relations: Relations, rows: AncestorRows, now: Time, x: Id, k: (Id, Id))
    ensures k in NewAncestorsOf(relations, rows, now, {x}) ==> k.1 == x
  {
  }

  lemma AddedRow(relations: Relations, rows: AncestorRows, kept: AncestorRows, now: Time, p: Id, x: Id, a: Id)
    requires now < MAX_TIME && p != x && (p, x) in relations && relations[(p, x)] == FOREVER
    requires forall e :: e in relations && e.1 == x && now < relations[e].expiresAt ==> e.0 == p
    requires forall k :: k in rows && k.1 == p ==> rows[k] == MAX_TIME
    requires kept == WithoutAncestorsOf(rows, {x})
    ensures var added := NewAncestorsOf(relations, kept, now, {x});
            ((a, x) in added <==> (a, p) in rows) && ((a, x) in added ==> added[(a, x)] == MAX_TIME)
  {
    var offers := Offers(relations, kept, now, a, x);
    if (a, p) in rows {
      assert Min(kept[(a, p)], relations[(p, x)].expiresAt) in offers;
      assert offers == {MAX_TIME};
      assert ((a, p).0, (p, x).1) == (a, x);
    } else {
      assert offers == {};
    }
  }

  lemma FirstCreation(now: Time, relations: Relations, rows: AncestorRows)
    requires now < MAX_TIME
    requires relations == map[(1, 2) := Relation(now, false), (3, 2) := FOREVER] && rows == SELF_ROWS[(1, 2) := now]
    ensures AreAllRounds(Links(relations), TodoIds(MarkDescendants(rows, map[2 := Todo])), [{2}, {}])
    ensures RowsAfter(relations, rows, now, [{2}, {}]) == SELF_ROWS[(3, 2) := MAX_TIME]
  {
    hide RecomputeRows, AreAllRounds, RowsAfter, MarkDescendants, TodoIds;
    OneRound(Links(relations), rows, 2, relations, now);
    OneParent(relations, rows, now, 3, 2);
  }

  lemma SecondCreation(now: Time, relations: Relations, rows: AncestorRows)
    requires now < MAX_TIME
    requires relations == map[(1, 2) := Relation(now, false), (3, 2) := FOREVER, (2, 1) := FOREVER]
    requires rows == SELF_ROWS[(3, 2) := MAX_TIME]
    ensures AreAllRounds(Links(relations), TodoIds(MarkDescendants(rows, map[1 := Todo])), [{1}, {}])
    ensures RowsAfter(relations, rows, now, [{1}, {}]) == rows[(2, 1) := MAX_TIME][(3, 1) := MAX_TIME]
  {
    hide RecomputeRows, AreAllRounds, RowsAfter, MarkDescendants, TodoIds;
    OneRound(Links(relations), rows, 1, relations, now);
    OneParent(relations, rows, now, 2, 1);
  }

  lemma ThirdCreation(now: Time, relations: Relations, rows: AncestorRows)
    requires relations == map[(1, 2) := Relation(now, false), (3, 2) := FOREVER, (2, 1) := FOREVER, (4, 2) := FOREVER]
    requires rows == SELF_ROWS[(3, 2) := MAX_TIME][(2, 1) := MAX_TIME][(3, 1) := MAX_TIME]
    ensures AreAllRounds(Links(relations), TodoIds(MarkDescendants(rows, map[2 := Todo])), [{}])
    ensures RowsAfter(relations, rows, now, [{}]) == rows
  {
    hide RecomputeRows;
    NothingProcessed(relations, rows, now);
    BlockedByEachOther(relations, rows);
    var rounds: seq<set<Id>> := [{}];
    assert rounds[..0] == [];
  }

  lemma BlockedByEachOther(relations: Relations, rows: AncestorRows)
    requires (1, 2) in Links(relations) && (2, 1) in Links(relations) && (2, 1) in rows && (2, 2) in rows
    requires forall k :: k in rows && k.0 == 2 ==> k.1 == 1 || k.1 == 2
    ensures ToProcess(Links(relations), TodoIds(MarkDescendants(rows, map[2 := Todo]))) == {}
  {
    hide Links;
    var todo := TodoIds(MarkDescendants(rows, map[2 := Todo]));
    assert (2, 1).1 in todo && (2, 2).1 in todo;
    assert todo <= {1, 2};
  }

  lemma LastCreation(now: Time, relations: Relations)
    requires now < MAX_TIME && (4, 2) in relations && (2, 4) in relations
    requires relations[(4, 2)] == FOREVER && relations[(2, 4)] == FOREVER
    ensures !Acyclic(LinksAfter(relations, now))
  {
    var closed := LinksAfter(relations, now);
    EdgeReaches(closed, 4, 2);
    EdgeReaches(closed, 2, 4);
    ReachesTransitive(closed, 2, 4, 2);
  }

  // ---------- items_ancestors ----------

  /** INSERT ... SELECT of the cached descendants of marked items */
  function MarkItemDescendants(rows: set<(Id, Id)>, marks: map<Id, State>): map<Id, State> {
    var todo := TodoIds(marks);
    var descendants := set k | k in rows && k.0 in todo :: k.1;
    marks + map x | x in descendants :: Todo
  }

  /** DELETE of the rows of the processed items, INSERT of the ancestors of their parents, INSERT of their parents */
  function RecomputeItemRows(links: Edges, rows: set<(Id, Id)>, processing: set<Id>): set<(Id, Id)> {
    var kept := set k | k in rows && k.1 !in processing;
    var inherited := set e, k | e in links && e.1 in processing && k in kept && k.1 == e.0 :: (k.0, e.1);
    var parents := set e | e in links && e.1 in processing;
    kept + inherited + parents
  }

  /** The rows after some rounds */
  function ItemRowsAfter(links: Edges, rows: set<(Id, Id)>, rounds: seq<set<Id>>): set<(Id, Id)> {
    if rounds == [] then rows else
      RecomputeItemRows(links, ItemRowsAfter(links, rows, rounds[..|rounds| - 1]), rounds[|rounds| - 1])
  }

  lemma ItemRowsAfterOneMore(links: Edges, rows: set<(Id, Id)>, rounds: seq<set<Id>>, processing: set<Id>)
    ensures ItemRowsAfter(links, rows, rounds + [processing]) ==
            RecomputeItemRows(links, ItemRowsAfter(links, rows, rounds), processing)
  {
    assert (rounds + [processing])[..|rounds|] == rounds;
  }

  lemma NoItemRounds(links: Edges, todo: set<Id>, rows: set<(Id, Id)>)
    ensures AreRounds(links, todo, []) && Processed([]) == {} && ItemRowsAfter(links, rows, []) == rows
  {
  }

  /** The rows of the item are exactly its ancestors. */
  ghost predicate ItemExact(links: Edges, rows: set<(Id, Id)>, x: Id) {
    forall a :: (a, x) in rows <==> Reaches(links, a, x)
  }

  ghost predicate UnmarkedItemsExact(links: Edges, rows: set<(Id, Id)>, todo: set<Id>) {
    forall x {:trigger ItemExact(links, rows, x)} :: x !in todo ==> ItemExact(links, rows, x)
  }

  ghost predicate ItemChangesAreMarked(base: Edges, links: Edges, todo: set<Id>) {
    forall e: (Id, Id) :: e.1 !in todo ==> (e in links <==> e in base)
  }

  lemma UnmarkedItemsAreExact(base: Edges, links: Edges, rows: set<(Id, Id)>, before: map<Id, State>, todo: set<Id>)
    requires IsClosure(base, rows) && ItemChangesAreMarked(base, links, TodoIds(before))
    requires todo == TodoIds(MarkItemDescendants(rows, before))
    ensures UnmarkedItemsExact(links, rows, todo)
  {
    forall x, a | x !in todo
      ensures (a, x) in rows <==> Reaches(links, a, x)
    {
      assert x !in TodoIds(before);
      forall c | c in TodoIds(before)
        ensures !Reaches(base, c, x)
      {
        assert (c, x) in rows ==> (c, x).1 in todo;
        assert (c, x) in rows <==> Reaches(base, c, x);
      }
      SameAncestors(links, base, TodoIds(before), a, x);
    }
  }

  lemma ItemRoundKeepsExact(links: Edges, rows: set<(Id, Id)>, todo: set<Id>, processing: set<Id>, after: set<(Id, Id)>)
    requires UnmarkedItemsExact(links, rows, todo)
    requires processing == ToProcess(links, todo) && after == RecomputeItemRows(links, rows, processing)
    ensures UnmarkedItemsExact(links, after, todo - processing)
  {
    forall x, a | x !in todo - processing
      ensures (a, x) in after <==> Reaches(links, a, x)
    {
      if x in processing {
        ReachesThroughParent(links, a, x);
        forall p | (p, x) in links
          ensures p !in todo && ItemExact(links, rows, p)
        {
        }
        if p :| (p, x) in links && (a == p || (a, p) in rows) {
          assert a == p || ((a, p).0, (p, x).1) in after;
        }
      } else {
        assert ItemExact(links, rows, x);
      }
    }
  }

  class ItemGraph {
    var links: Edges                      // items_items by (parent, child)
    var ancestors: set<(Id, Id)>          // items_ancestors
    var propagate: map<Id, State>         // items_propagate
    ghost var base: Edges                 // the links the ancestors were last computed for

    ghost predicate Valid()
      reads this
    {
      IsClosure(base, ancestors) && ItemChangesAreMarked(base, links, TodoIds(propagate))
    }

    /** INSERT INTO or DELETE FROM items_items with its trigger, which marks the child. */
    method ChangeLink(parent: Id, child: Id, present: bool)
      requires Valid()
      modifies this`links, this`propagate
      ensures Valid() && propagate == old(propagate)[child := Todo]
      ensures links == if present then old(links) + {(parent, child)} else old(links) - {(parent, child)}
    {
      links := if present then links + {(parent, child)} else links - {(parent, child)};
      propagate := propagate[child := Todo];
      forall e: (Id, Id) | e.1 !in TodoIds(propagate)
        ensures e in links <==> e in base
      {
        assert e.1 !in TodoIds(old(propagate));
      }
    }

    /** The rounds recompute the rows of every marked item and of every cached descendant of one, each at most once,
        except for those on or below a cycle. */
    method CreateNewAncestors() returns (ghost rounds: seq<set<Id>>)
      requires Valid()
      modifies this`ancestors, this`propagate, this`base
      ensures AreAllRounds(links, TodoIds(MarkItemDescendants(old(ancestors), old(propagate))), rounds)
      ensures ancestors == ItemRowsAfter(links, old(ancestors), rounds)
      ensures propagate == MarkAsDone(MarkItemDescendants(old(ancestors), old(propagate)), Processed(rounds))
      ensures UnmarkedItemsExact(links, ancestors, TodoIds(propagate))
      ensures forall x :: x in TodoIds(propagate) ==> OnOrBelowCycle(links, x)
      ensures Acyclic(links) ==> TodoIds(propagate) == {} && IsClosure(links, ancestors) && Valid() && base == links
    {
      hide ToProcess, RecomputeItemRows, MarkAsDone, MarkItemDescendants, TodoIds, Acyclic, ItemRowsAfter, Processed;
      hide AreRounds;
      hide OnOrBelowCycle;
      ghost var marked := MarkItemDescendants(ancestors, propagate);
      propagate := MarkItemDescendants(ancestors, propagate);
      UnmarkedItemsAreExact(base, links, ancestors, old(propagate), TodoIds(propagate));
      rounds := [];
      NoItemRounds(links, TodoIds(marked), ancestors);
      DoneTwice(marked, {}, {});
      while true
        invariant UnmarkedItemsExact(links, ancestors, TodoIds(propagate))
        invariant AreRounds(links, TodoIds(marked), rounds)
        invariant ancestors == ItemRowsAfter(links, old(ancestors), rounds)
        invariant propagate == MarkAsDone(marked, Processed(rounds))
        invariant TodoIds(propagate) == TodoIds(marked) - Processed(rounds)
        decreases TodoIds(propagate)
      {
        ghost var todo := TodoIds(propagate);
        var processing := ToProcess(links, TodoIds(propagate));
        var rows := RecomputeItemRows(links, ancestors, processing);
        ProcessedWereTodo(links, todo);
        DoneTwice(propagate, processing, {});
        DoneTwice(marked, Processed(rounds), processing);
        OneMoreRound(links, TodoIds(marked), rounds, processing);
        ItemRowsAfterOneMore(links, old(ancestors), rounds, processing);
        ItemRoundKeepsExact(links, ancestors, todo, processing, rows);
        ancestors := rows;
        propagate := MarkAsDone(propagate, processing);
        rounds := rounds + [processing];
        if processing == {} {
          WhatIsLeft(links, todo);
          break;
        }
      }
      if Acyclic(links) {
        forall a, x
          ensures (a, x) in ancestors <==> Reaches(links, a, x)
        {
          assert ItemExact(links, ancestors, x);
        }
        base := links;
      }
    }
  }
}
