/** Propagation of item permissions: `permissions_generated` is recomputed for marked (group, item)
    pairs and their descendants until it equals a recursive definition over the item graph. */
module Permissions {
  import opened Collections
  import opened Graph

  /** Position of a permission in its SQL enumeration, which starts from 1 ('none'). */
  type Level = x: nat | 1 <= x witness 1

  datatype Access = Access(view: Level, grantView: Level, watch: Level, edit: Level, owner: bool)

  datatype Right = View | GrantView | Watch | Edit

  const NO_ACCESS := Access(1, 1, 1, 1, false)
  /** 'solution', 'solution_with_grant', 'answer_with_grant', 'all_with_grant' */
  const OWNER_ACCESS := Access(5, 6, 4, 4, true)

  datatype ContentView = AsNone | AsInfo | AsContent

  datatype UpperView = UseContentView | AsContentWithDescendants | AsIs

  datatype ItemItem = ItemItem(parent: Id, child: Id, content: ContentView, upper: UpperView,
                               grantView: bool, watch: bool, edit: bool)

  datatype Grant = Grant(group: Id, item: Id, access: Access)

  /** `permissions_propagate.propagate_to` */
  datatype Mark = Self | Children

  /** (group, item) */
  type Pair = (Id, Id)

  function LevelOf(a: Access, right: Right): Level {
    match right
    case View => a.view
    case GrantView => a.grantView
    case Watch => a.watch
    case Edit => a.edit
  }

  predicate AtMost(a: Access, b: Access) {
    a.view <= b.view && a.grantView <= b.grantView && a.watch <= b.watch && a.edit <= b.edit &&
    (a.owner ==> b.owner)
  }

  function Max(a: Level, b: Level): Level {
    if a < b then b else a
  }

  function Min(a: Level, b: Level): Level {
    if a < b then a else b
  }

  function Join(a: Access, b: Access): Access {
    Access(Max(a.view, b.view), Max(a.grantView, b.grantView), Max(a.watch, b.watch), Max(a.edit, b.edit),
           a.owner || b.owner)
  }

  /** MAX over the rows of `permissions_granted` of the pair. */
  function GrantedTo(granted: seq<Grant>, pair: Pair): Access {
    if granted == [] then NO_ACCESS else
      var rest, row := granted[..|granted| - 1], granted[|granted| - 1];
      if (row.group, row.item) == pair then Join(GrantedTo(rest, pair), row.access) else GrantedTo(rest, pair)
  }

  function PropagatedView(link: ItemItem, view: Level): Level {
    if view <= 2 then 1
    else if view == 3 || link.upper.UseContentView? then
      match link.content
      case AsInfo => 2
      case AsContent => 3
      case AsNone => 1
    else if link.upper.AsContentWithDescendants? then 4
    else view
  }

  /** What a child gets through one `items_items` row; the levels "with grant" are not passed on. */
  function Propagated(link: ItemItem, parent: Access): Access {
    Access(PropagatedView(link, parent.view),
           if link.grantView then Min(parent.grantView, 5) else 1,
           if link.watch then Min(parent.watch, 3) else 1,
           if link.edit then Min(parent.edit, 3) else 1,
           false)
  }

  /** The generated permissions of a pair; a missing row counts as no access. */
  function Generated(generated: map<Pair, Access>, pair: Pair): Access {
    if pair in generated then generated[pair] else NO_ACCESS
  }

  function Inherited(links: seq<ItemItem>, generated: map<Pair, Access>, pair: Pair): Access {
    if links == [] then NO_ACCESS else
      var rest, link := links[..|links| - 1], links[|links| - 1];
      if link.child == pair.1
      then Join(Inherited(rest, generated, pair), Propagated(link, Generated(generated, (pair.0, link.parent))))
      else Inherited(rest, generated, pair)
  }

  /** The row computed for a pair from its grants and the current rows of its parents. */
  function Computed(links: seq<ItemItem>, granted: seq<Grant>, generated: map<Pair, Access>, pair: Pair): Access {
    var direct := GrantedTo(granted, pair);
    if direct.owner then OWNER_ACCESS else Join(direct, Inherited(links, generated, pair))
  }

  function LinkEdges(links: seq<ItemItem>): Edges {
    set link | link in links :: (link.parent, link.child)
  }

  // ---------- The recursive definition ----------

  ghost function Defined(links: seq<ItemItem>, granted: seq<Grant>, pair: Pair): Access
    requires Acyclic(LinkEdges(links))
    decreases Depth(LinkEdges(links), pair.1), |links| + 1
  {
    var direct := GrantedTo(granted, pair);
    if direct.owner then OWNER_ACCESS else Join(direct, DefinedInherited(links, |links|, granted, pair))
  }

  ghost function DefinedInherited(links: seq<ItemItem>, n: nat, granted: seq<Grant>, pair: Pair): Access
    requires Acyclic(LinkEdges(links)) && n <= |links|
    decreases Depth(LinkEdges(links), pair.1), n
  {
    if n == 0 then NO_ACCESS else
      var link := links[n - 1];
      var rest := DefinedInherited(links, n - 1, granted, pair);
      if link.child != pair.1 then rest else
        LinkDeepens(links, n - 1);
        Join(rest, Propagated(link, Defined(links, granted, (pair.0, link.parent))))
  }

  lemma LinkDeepens(links: seq<ItemItem>, k: nat)
    requires Acyclic(LinkEdges(links)) && k < |links|
    ensures (links[k].parent, links[k].child) in LinkEdges(links)
    ensures Depth(LinkEdges(links), links[k].parent) < Depth(LinkEdges(links), links[k].child)
  {
    assert links[k] in links;
    EdgeReaches(LinkEdges(links), links[k].parent, links[k].child);
    DepthGrows(LinkEdges(links), links[k].parent, links[k].child);
  }

  // ---------- A local fixpoint is the recursive definition ----------

  ghost predicate IsFixpoint(links: seq<ItemItem>, granted: seq<Grant>, generated: map<Pair, Access>) {
    forall pair: Pair :: Generated(generated, pair) == Computed(links, granted, generated, pair)
  }

  lemma {:induction false} FixpointIsDefined(links: seq<ItemItem>, granted: seq<Grant>, generated: map<Pair, Access>,
                                             pair: Pair)
    requires Acyclic(LinkEdges(links)) && IsFixpoint(links, granted, generated)
    ensures Generated(generated, pair) == Defined(links, granted, pair)
    decreases Depth(LinkEdges(links), pair.1), |links| + 1
  {
    FixpointInherits(links, |links|, granted, generated, pair);
    assert links[..|links|] == links;
    assert Generated(generated, pair) == Computed(links, granted, generated, pair);
  }

  lemma NothingMarkedIsDefined(links: seq<ItemItem>, granted: seq<Grant>, generated: map<Pair, Access>)
    requires Acyclic(LinkEdges(links)) && Covered(links, granted, generated, map[])
    ensures forall pair: Pair :: Generated(generated, pair) == Defined(links, granted, pair)
  {
    forall pair: Pair
      ensures Generated(generated, pair) == Defined(links, granted, pair)
    {
      forall p: Pair
        ensures Generated(generated, p) == Computed(links, granted, generated, p)
      {
        assert !Awaits(links, generated, map[], p);
      }
      FixpointIsDefined(links, granted, generated, pair);
    }
  }

  lemma NothingMarkedFollowsRules(links: seq<ItemItem>, granted: seq<Grant>, generated: map<Pair, Access>)
    requires Covered(links, granted, generated, map[])
    ensures forall pair: Pair, right: Right :: FollowsRules(links, granted, generated, pair, right)
    ensures forall pair: Pair :: Generated(generated, pair).owner <==>
              exists row :: row in granted && (row.group, row.item) == pair && row.access.owner
  {
    hide Computed, Generated, FollowsRules;
    forall pair: Pair, right: Right
      ensures FollowsRules(links, granted, generated, pair, right)
      ensures Generated(generated, pair).owner <==>
              exists row :: row in granted && (row.group, row.item) == pair && row.access.owner
    {
      assert !Awaits(links, generated, map[], pair);
      FixpointFollowsRules(links, granted, generated, pair, right);
    }
    forall pair: Pair
      ensures Generated(generated, pair).owner <==>
              exists row :: row in granted && (row.group, row.item) == pair && row.access.owner
    {
      assert FollowsRules(links, granted, generated, pair, View);
    }
  }

  lemma {:induction false} FixpointInherits(links: seq<ItemItem>, n: nat, granted: seq<Grant>,
                                            generated: map<Pair, Access>, pair: Pair)
    requires Acyclic(LinkEdges(links)) && IsFixpoint(links, granted, generated) && n <= |links|
    ensures Inherited(links[..n], generated, pair) == DefinedInherited(links, n, granted, pair)
    decreases Depth(LinkEdges(links), pair.1), n
  {
    if n > 0 {
      FixpointInherits(links, n - 1, granted, generated, pair);
      assert links[..n][..n - 1] == links[..n - 1];
      if links[n - 1].child == pair.1 {
        LinkDeepens(links, n - 1);
        FixpointIsDefined(links, granted, generated, (pair.0, links[n - 1].parent));
      }
    }
  }

  // ---------- The statements of one round ----------

  /** INSERT ... 'self' for the children of generated pairs marked 'children' */
  function MarkChildrenAsSelf(links: seq<ItemItem>, generated: map<Pair, Access>,
                              marks: map<Pair, Mark>): map<Pair, Mark> {
    var parents := set p | p in marks && marks[p] == Children && p in generated;
    var found := set p, link | p in parents && link in links && link.parent == p.1 :: (p.0, link.child);
    marks + map q | q in found :: Self
  }

  /** DELETE ... WHERE propagate_to = 'children' */
  function DropChildrenMarks(marks: map<Pair, Mark>): map<Pair, Mark> {
    map q | q in marks && marks[q] != Children :: marks[q]
  }

  /** 'self' pairs that are not descendants of other 'self' pairs of the same group */
  function Processing(ancestors: set<(Id, Id)>, marks: map<Pair, Mark>): set<Pair> {
    set q | q in marks && marks[q] == Self &&
            !exists a :: a in marks && marks[a] == Self && a.0 == q.0 && (a.1, q.1) in ancestors
  }

  function MarkAsChildren(processing: set<Pair>, marks: map<Pair, Mark>): map<Pair, Mark> {
    marks + map q | q in processing :: Children
  }

  function Recompute(links: seq<ItemItem>, granted: seq<Grant>, generated: map<Pair, Access>,
                     processing: set<Pair>): map<Pair, Access> {
    generated + map q | q in processing :: Computed(links, granted, generated, q)
  }

  // ---------- What every round keeps ----------

  predicate Marked(marks: map<Pair, Mark>, pair: Pair, mark: Mark) {
    pair in marks && marks[pair] == mark
  }

  /** A pending mark: 'self', or 'children' on a generated pair (the marking statement joins the generated rows). */
  predicate Pending(generated: map<Pair, Access>, marks: map<Pair, Mark>, m: Pair) {
    Marked(marks, m, Self) || (Marked(marks, m, Children) && m in generated)
  }

  /** The pair is marked 'self' or has a pending ancestor of the same group. */
  ghost predicate Awaits(links: seq<ItemItem>, generated: map<Pair, Access>, marks: map<Pair, Mark>, pair: Pair) {
    Marked(marks, pair, Self) ||
    exists a :: Pending(generated, marks, (pair.0, a)) && Reaches(LinkEdges(links), a, pair.1)
  }

  /** Every pair that differs from what would be computed for it awaits its recomputation. */
  ghost predicate Covered(links: seq<ItemItem>, granted: seq<Grant>, generated: map<Pair, Access>,
                          marks: map<Pair, Mark>) {
    forall pair: Pair {:trigger Awaits(links, generated, marks, pair)} ::
      Generated(generated, pair) != Computed(links, granted, generated, pair) ==> Awaits(links, generated, marks, pair)
  }

  /** Equal rows of the parents give equal inherited permissions. */
  lemma {:induction false} InheritedDependsOnParents(links: seq<ItemItem>, before: map<Pair, Access>,
                                                     after: map<Pair, Access>, pair: Pair)
    requires forall p :: (p, pair.1) in LinkEdges(links) ==>
               Generated(before, (pair.0, p)) == Generated(after, (pair.0, p))
    ensures Inherited(links, before, pair) == Inherited(links, after, pair)
  {
    if links != [] {
      var rest, link := links[..|links| - 1], links[|links| - 1];
      assert link in links && LinkEdges(rest) <= LinkEdges(links);
      assert (link.parent, link.child) in LinkEdges(links);
      InheritedDependsOnParents(rest, before, after, pair);
    }
  }

  /** `pair` is, or lies below, a pair of `start` of the same group. */
  ghost predicate Below(edges: Edges, start: set<Pair>, pair: Pair) {
    pair in start || exists a :: (pair.0, a) in start && Reaches(edges, a, pair.1)
  }

  /** What the two marking statements leave: 'self' marks, the old ones and those for children of 'children' pairs */
  lemma SelfMarks(links: seq<ItemItem>, generated: map<Pair, Access>, marks: map<Pair, Mark>)
    ensures var selfs := DropChildrenMarks(MarkChildrenAsSelf(links, generated, marks));
            && (forall q :: q in selfs ==> selfs[q] == Self)
            && forall q :: Marked(marks, q, Self) ==> q in selfs
  {
  }

  lemma ChildIsMarkedAsSelf(links: seq<ItemItem>, generated: map<Pair, Access>, marks: map<Pair, Mark>, parent: Pair,
                            link: ItemItem)
    requires Marked(marks, parent, Children) && parent in generated && link in links && link.parent == parent.1
    ensures (parent.0, link.child) in DropChildrenMarks(MarkChildrenAsSelf(links, generated, marks))
  {
    assert parent in (set p | p in marks && marks[p] == Children && p in generated);
  }

  /** A child of a generated pair that is marked 'children' */
  ghost predicate IsChildOfMarked(links: seq<ItemItem>, generated: map<Pair, Access>, marks: map<Pair, Mark>, q: Pair) {
    exists link :: link in links && link.child == q.1 && Marked(marks, (q.0, link.parent), Children) &&
                   (q.0, link.parent) in generated
  }

  lemma OnlyChildrenAreMarked(links: seq<ItemItem>, generated: map<Pair, Access>, marks: map<Pair, Mark>, q: Pair)
    ensures q in DropChildrenMarks(MarkChildrenAsSelf(links, generated, marks)) <==>
              Marked(marks, q, Self) || IsChildOfMarked(links, generated, marks, q)
  {
    if link :| link in links && link.child == q.1 && Marked(marks, (q.0, link.parent), Children) &&
               (q.0, link.parent) in generated {
      ChildIsMarkedAsSelf(links, generated, marks, (q.0, link.parent), link);
    }
  }

  /** After the two marking statements only 'self' marks are left and they cover every difference. */
  lemma MarkingKeepsCovered(links: seq<ItemItem>, granted: seq<Grant>, generated: map<Pair, Access>,
                            marks: map<Pair, Mark>)
    requires Covered(links, granted, generated, marks)
    ensures var selfs := DropChildrenMarks(MarkChildrenAsSelf(links, generated, marks));
            && (forall q :: q in selfs ==> selfs[q] == Self)
            && (forall q: Pair :: q in selfs <==> Marked(marks, q, Self) || IsChildOfMarked(links, generated, marks, q))
            && forall pair: Pair :: Generated(generated, pair) != Computed(links, granted, generated, pair) ==>
                                      Below(LinkEdges(links), selfs.Keys, pair)
  {
    hide DropChildrenMarks, MarkChildrenAsSelf, Computed, Generated, Reaches;
    var selfs := DropChildrenMarks(MarkChildrenAsSelf(links, generated, marks));
    SelfMarks(links, generated, marks);
    forall q: Pair
      ensures q in selfs <==> Marked(marks, q, Self) || IsChildOfMarked(links, generated, marks, q)
    {
      OnlyChildrenAreMarked(links, generated, marks, q);
    }
    forall pair: Pair | Generated(generated, pair) != Computed(links, granted, generated, pair)
      ensures Below(LinkEdges(links), selfs.Keys, pair)
    {
      assert Awaits(links, generated, marks, pair);
      if !Marked(marks, pair, Self) {
        var a :| Pending(generated, marks, (pair.0, a)) && Reaches(LinkEdges(links), a, pair.1);
        var parent := (pair.0, a);
        if !Marked(marks, parent, Self) {
          var x := ReachesThroughChild(LinkEdges(links), a, pair.1);
          var link :| link in links && (link.parent, link.child) == (a, x);
          ChildIsMarkedAsSelf(links, generated, marks, parent, link);
        }
      }
    }
  }

  /** No recomputed pair is a parent of another one, so the recomputed rows agree with their parents' new rows too. */
  lemma RecomputingKeepsCovered(links: seq<ItemItem>, granted: seq<Grant>, ancestors: set<(Id, Id)>,
                                generated: map<Pair, Access>, selfs: map<Pair, Mark>)
    requires forall q :: q in selfs ==> selfs[q] == Self
    requires forall pair: Pair :: Generated(generated, pair) != Computed(links, granted, generated, pair) ==>
                                    Below(LinkEdges(links), selfs.Keys, pair)
    ensures var processing := Processing(ancestors, selfs);
            Covered(links, granted, Recompute(links, granted, generated, processing), MarkAsChildren(processing, selfs))
  {
    var edges := LinkEdges(links);
    var processing := Processing(ancestors, selfs);
    var after := Recompute(links, granted, generated, processing);
    var marks := MarkAsChildren(processing, selfs);
    forall pair: Pair | Generated(after, pair) != Computed(links, granted, after, pair)
      ensures Awaits(links, after, marks, pair)
    {
      if a :| Reaches(edges, a, pair.1) && (pair.0, a) in processing {
        assert Pending(after, marks, (pair.0, a));
      } else {
        forall p | (p, pair.1) in edges
          ensures (pair.0, p) !in processing
        {
          EdgeReaches(edges, p, pair.1);
        }
        RecomputedAgain(links, granted, generated, processing, pair);
        assert pair !in processing;
        if pair !in selfs {
          var a :| (pair.0, a) in selfs.Keys && Reaches(edges, a, pair.1);
          assert Pending(after, marks, (pair.0, a));
        }
      }
    }
  }

  lemma RecomputedAgain(links: seq<ItemItem>, granted: seq<Grant>, generated: map<Pair, Access>, processing: set<Pair>,
                        pair: Pair)
    requires forall p :: (p, pair.1) in LinkEdges(links) ==> (pair.0, p) !in processing
    ensures var after := Recompute(links, granted, generated, processing);
            && Computed(links, granted, after, pair) == Computed(links, granted, generated, pair)
            && Generated(after, pair) == if pair in processing then Computed(links, granted, generated, pair)
               else Generated(generated, pair)
  {
    InheritedDependsOnParents(links, generated, Recompute(links, granted, generated, processing), pair);
  }

  /** As long as a pair is marked 'self', some pair is processed. */
  lemma SomePairIsProcessed(edges: Edges, ancestors: set<(Id, Id)>, selfs: map<Pair, Mark>, pair: Pair)
    requires Acyclic(edges) && IsClosure(edges, ancestors)
    requires Marked(selfs, pair, Self)
    ensures Processing(ancestors, selfs) != {}
  {
    var items := set q | q in selfs && selfs[q] == Self && q.0 == pair.0 :: q.1;
    assert pair.1 in items by { assert pair.1 == pair.1 && pair in selfs; }
    var m := MinimalNode(edges, items, pair.1);
    var q :| q in selfs && selfs[q] == Self && q.0 == pair.0 && q.1 == m;
    forall a | a in selfs && selfs[a] == Self && a.0 == q.0
      ensures (a.1, q.1) !in ancestors
    {
      assert a.1 in items;
      assert !Reaches(edges, a.1, m);
    }
    assert q in Processing(ancestors, selfs);
  }

  // ---------- Each pair is recomputed at most once ----------

  /** A mark that will sooner or later mark `q` again as 'self' */
  ghost predicate ComesBack(edges: Edges, marks: map<Pair, Mark>, m: Pair, q: Pair) {
    m in marks && m.0 == q.0 && (Reaches(edges, m.1, q.1) || (marks[m] == Self && m.1 == q.1))
  }

  ghost predicate LeftBehind(edges: Edges, processed: set<Pair>, marks: map<Pair, Mark>) {
    forall q, m {:trigger ComesBack(edges, marks, m, q)} :: q in processed ==> !ComesBack(edges, marks, m, q)
  }

  lemma MarkingKeepsLeftBehind(links: seq<ItemItem>, generated: map<Pair, Access>, processed: set<Pair>,
                               marks: map<Pair, Mark>)
    requires LeftBehind(LinkEdges(links), processed, marks)
    ensures LeftBehind(LinkEdges(links), processed, DropChildrenMarks(MarkChildrenAsSelf(links, generated, marks)))
  {
    var edges := LinkEdges(links);
    var selfs := DropChildrenMarks(MarkChildrenAsSelf(links, generated, marks));
    forall q, m | q in processed
      ensures !ComesBack(edges, selfs, m, q)
    {
      assert !ComesBack(edges, marks, m, q);
      if m in selfs && m.0 == q.0 && !Marked(marks, m, Self) {
        var p, link :| p in marks && marks[p] == Children && link in links && link.parent == p.1 &&
          (p.0, link.child) == m;
        assert (p.1, m.1) in edges;
        assert !ComesBack(edges, marks, p, q);
        EdgeReaches(edges, p.1, m.1);
        if Reaches(edges, m.1, q.1) {
          ReachesTransitive(edges, p.1, m.1, q.1);
        }
      }
    }
  }

  lemma ProcessingKeepsLeftBehind(edges: Edges, ancestors: set<(Id, Id)>, processed: set<Pair>, selfs: map<Pair, Mark>)
    requires Acyclic(edges) && IsClosure(edges, ancestors)
    requires forall q :: q in selfs ==> selfs[q] == Self
    requires LeftBehind(edges, processed, selfs)
    ensures var processing := Processing(ancestors, selfs);
            processed !! processing && LeftBehind(edges, processed + processing, MarkAsChildren(processing, selfs))
  {
    var processing := Processing(ancestors, selfs);
    var left := MarkAsChildren(processing, selfs);
    forall q | q in processed
      ensures q !in processing
    {
      assert !ComesBack(edges, selfs, q, q);
    }
    forall q, m | q in processed + processing
      ensures !ComesBack(edges, left, m, q)
    {
      if q in processed {
        assert !ComesBack(edges, selfs, m, q);
      } else {
        assert Reaches(edges, m.1, q.1) <==> (m.1, q.1) in ancestors;
        assert m.0 == q.0 && m.1 == q.1 ==> m == q;
      }
    }
  }

  lemma MarkingStaysBelow(links: seq<ItemItem>, generated: map<Pair, Access>, start: set<Pair>, marks: map<Pair, Mark>)
    requires forall q :: q in marks ==> Below(LinkEdges(links), start, q)
    ensures forall q :: q in DropChildrenMarks(MarkChildrenAsSelf(links, generated, marks)) ==>
              Below(LinkEdges(links), start, q)
  {
    var edges := LinkEdges(links);
    forall q | q in DropChildrenMarks(MarkChildrenAsSelf(links, generated, marks))
      ensures Below(edges, start, q)
    {
      if q !in marks {
        var p, link :| p in marks && marks[p] == Children && link in links && link.parent == p.1 &&
          (p.0, link.child) == q;
        assert (p.1, q.1) in edges;
        EdgeReaches(edges, p.1, q.1);
        if p in start {
          assert (q.0, p.1) == p;
        } else {
          var a :| (p.0, a) in start && Reaches(edges, a, p.1);
          ReachesTransitive(edges, a, p.1, q.1);
        }
      }
    }
  }

  /** Every pair that a run from `marks` can ever mark. */
  ghost function Universe(links: seq<ItemItem>, marks: map<Pair, Mark>): set<Pair> {
    marks.Keys + set q, link | q in marks && link in links :: (q.0, link.child)
  }

  ghost predicate ClosedUniverse(links: seq<ItemItem>, universe: set<Pair>) {
    forall q, link :: q in universe && link in links ==> (q.0, link.child) in universe
  }

  lemma MarkingStaysInUniverse(links: seq<ItemItem>, generated: map<Pair, Access>, universe: set<Pair>,
                               marks: map<Pair, Mark>)
    requires ClosedUniverse(links, universe) && forall q :: q in marks ==> q in universe
    ensures forall q :: q in DropChildrenMarks(MarkChildrenAsSelf(links, generated, marks)) ==> q in universe
  {
  }

  lemma OnlyProcessedRowsChange(links: seq<ItemItem>, granted: seq<Grant>, generated: map<Pair, Access>,
                                processing: set<Pair>)
    ensures SameOutside(generated, Recompute(links, granted, generated, processing), processing)
  {
  }

  ghost predicate SameOutside(before: map<Pair, Access>, after: map<Pair, Access>, recomputed: set<Pair>) {
    forall pair: Pair :: pair !in recomputed ==> Generated(after, pair) == Generated(before, pair)
  }

  ghost predicate RoundInvariant(links: seq<ItemItem>, granted: seq<Grant>, start: set<Pair>, universe: set<Pair>,
                                 generated: map<Pair, Access>, marks: map<Pair, Mark>, processed: set<Pair>) {
    && Covered(links, granted, generated, marks)
    && LeftBehind(LinkEdges(links), processed, marks)
    && ClosedUniverse(links, universe)
    && (forall q :: q in marks || q in processed ==> q in universe)
    && forall q :: q in marks || q in processed ==> Below(LinkEdges(links), start, q)
  }

  lemma RoundKeepsInvariant(links: seq<ItemItem>, granted: seq<Grant>, ancestors: set<(Id, Id)>, start: set<Pair>,
                            universe: set<Pair>, generated: map<Pair, Access>, marks: map<Pair, Mark>,
                            processed: set<Pair>, selfs: map<Pair, Mark>, processing: set<Pair>,
                            after: map<Pair, Access>, left: map<Pair, Mark>)
    requires Acyclic(LinkEdges(links)) && IsClosure(LinkEdges(links), ancestors)
    requires RoundInvariant(links, granted, start, universe, generated, marks, processed)
    requires selfs == DropChildrenMarks(MarkChildrenAsSelf(links, generated, marks))
    requires processing == Processing(ancestors, selfs)
    requires after == Recompute(links, granted, generated, processing)
    requires left == MarkAsChildren(processing, selfs)
    ensures processed !! processing
    ensures processing == {} ==> left == map[]
    ensures RoundInvariant(links, granted, start, universe, after, left, processed + processing)
    ensures SameOutside(generated, after, processing)
  {
    MarkingKeepsCovered(links, granted, generated, marks);
    MarkingKeepsLeftBehind(links, generated, processed, marks);
    MarkingStaysBelow(links, generated, start, marks);
    MarkingStaysInUniverse(links, generated, universe, marks);
    OnlyProcessedRowsChange(links, granted, generated, processing);
    RecomputingKeepsCovered(links, granted, ancestors, generated, selfs);
    ProcessingKeepsLeftBehind(LinkEdges(links), ancestors, processed, selfs);
    if pair :| pair in selfs {
      SomePairIsProcessed(LinkEdges(links), ancestors, selfs, pair);
    }
  }

  // ---------- What the recursive definition can and cannot give ----------

  /** The levels "with grant" are not passed on. */
  predicate MayBeInherited(right: Right, level: Level) {
    right == View || level <= Cap(right)
  }

  /** A row grants at least `level` of `right`; an owner has every level. */
  predicate Gives(row: Grant, right: Right, level: Level) {
    level <= LevelOf(if row.access.owner then OWNER_ACCESS else row.access, right)
  }

  /** The rows of the group on the item itself or on one of its ancestors that give at least `level`. */
  ghost predicate GivenAtOrAbove(links: seq<ItemItem>, granted: seq<Grant>, pair: Pair, right: Right, level: Level) {
    exists row :: row in granted && row.group == pair.0 && Gives(row, right, level) &&
                  (row.item == pair.1 || Reaches(LinkEdges(links), row.item, pair.1))
  }

  // ---------- What the generated levels are ----------

  const NONE: Level := 1
  const INFO: Level := 2
  const CONTENT: Level := 3
  const CONTENT_WITH_DESCENDANTS: Level := 4
  const SOLUTION: Level := 5

  /** The level that ownership gives: 'solution', 'solution_with_grant', 'answer_with_grant', 'all_with_grant' */
  function OwnerLevel(right: Right): Level {
    match right
    case View => SOLUTION
    case GrantView => 6
    case Watch => 4
    case Edit => 4
  }

  /** The highest level a link passes on: 'solution', 'answer', 'all' */
  function Cap(right: Right): Level {
    match right
    case View => SOLUTION
    case GrantView => 5
    case Watch => 3
    case Edit => 3
  }

  predicate IsSwitchedOn(link: ItemItem, right: Right) {
    match right
    case View => true
    case GrantView => link.grantView
    case Watch => link.watch
    case Edit => link.edit
  }

  /** What the link passes on to the child of what its parent has: for viewing nothing below 'content', 'content' as the
      link says, and the levels above it like 'content', as 'content_with_descendants' or as they are; for the other
      rights nothing, or the level up to the cap. */
  predicate Passes(link: ItemItem, right: Right, from: Level, to: Level) {
    if right == View then
      && (from <= INFO ==> to == NONE)
      && (from == CONTENT || (from > CONTENT && link.upper == UseContentView) ==>
            && (link.content == AsNone ==> to == NONE)
            && (link.content == AsInfo ==> to == INFO)
            && (link.content == AsContent ==> to == CONTENT))
      && (from > CONTENT && link.upper == AsContentWithDescendants ==> to == CONTENT_WITH_DESCENDANTS)
      && (from > CONTENT && link.upper == AsIs ==> to == from)
    else if IsSwitchedOn(link, right) then
      && to <= from && to <= Cap(right) && (to == from || to == Cap(right))
    else to == NONE
  }

  /** The level of the pair is the highest among 'none', those granted to the pair itself, and those that the links from
      the parents pass on of the parents' levels; an owner has the highest levels there are. */
  ghost predicate FollowsRules(links: seq<ItemItem>, granted: seq<Grant>, generated: map<Pair, Access>, pair: Pair,
                               right: Right) {
    var level := LevelOf(Generated(generated, pair), right);
    if exists row :: row in granted && (row.group, row.item) == pair && row.access.owner then level == OwnerLevel(right)
    else
      && (forall row :: row in granted && (row.group, row.item) == pair ==> LevelOf(row.access, right) <= level)
      && (forall link: ItemItem, to: Level :: IsPassed(links, generated, pair, right, link, to) ==> to <= level)
      && (|| level == NONE
          || (exists row :: row in granted && (row.group, row.item) == pair && LevelOf(row.access, right) == level)
          || exists link :: IsPassed(links, generated, pair, right, link, level))
  }

  ghost predicate IsPassed(links: seq<ItemItem>, generated: map<Pair, Access>, pair: Pair, right: Right, link: ItemItem,
                           to: Level) {
    && link in links && link.child == pair.1
    && Passes(link, right, LevelOf(Generated(generated, (pair.0, link.parent)), right), to)
  }

  lemma PropagatedIsPassed(link: ItemItem, parent: Access, right: Right, to: Level)
    ensures Passes(link, right, LevelOf(parent, right), to) <==> to == LevelOf(Propagated(link, parent), right)
  {
  }

  lemma {:induction false} InheritedIsHighest(links: seq<ItemItem>, generated: map<Pair, Access>, pair: Pair,
                                              right: Right)
    ensures var level := LevelOf(Inherited(links, generated, pair), right);
            && (forall link: ItemItem, to: Level :: IsPassed(links, generated, pair, right, link, to) ==> to <= level)
            && (level == NONE || exists link :: IsPassed(links, generated, pair, right, link, level))
    ensures !Inherited(links, generated, pair).owner
  {
    hide Passes;
    if links != [] {
      var rest, last := links[..|links| - 1], links[|links| - 1];
      InheritedIsHighest(rest, generated, pair, right);
      assert forall link :: link in links <==> link in rest || link == last;
      var level := LevelOf(Inherited(links, generated, pair), right);
      var restLevel := LevelOf(Inherited(rest, generated, pair), right);
      var parent := Generated(generated, (pair.0, last.parent));
      forall link: ItemItem, to: Level | IsPassed(links, generated, pair, right, link, to)
        ensures to <= level
      {
        if link == last {
          PropagatedIsPassed(last, parent, right, to);
        } else {
          assert IsPassed(rest, generated, pair, right, link, to);
        }
      }
      if level != NONE {
        if level == restLevel {
          var link :| IsPassed(rest, generated, pair, right, link, level);
          assert IsPassed(links, generated, pair, right, link, level);
        } else {
          PropagatedIsPassed(last, parent, right, level);
          assert IsPassed(links, generated, pair, right, last, level);
        }
      }
    }
  }

  lemma {:induction false} GrantedIsHighest(granted: seq<Grant>, pair: Pair, right: Right)
    ensures var level := LevelOf(GrantedTo(granted, pair), right);
            && (forall row :: row in granted && (row.group, row.item) == pair ==> LevelOf(row.access, right) <= level)
            && (level == NONE ||
                exists row :: row in granted && (row.group, row.item) == pair && LevelOf(row.access, right) == level)
    ensures GrantedTo(granted, pair).owner <==>
            exists row :: row in granted && (row.group, row.item) == pair && row.access.owner
  {
    if granted != [] {
      var rest, last := granted[..|granted| - 1], granted[|granted| - 1];
      GrantedIsHighest(rest, pair, right);
      assert forall row :: row in granted <==> row in rest || row == last;
    }
  }

  /** The row computed for a pair follows the rules, given the rows of its parents. */
  lemma FixpointFollowsRules(links: seq<ItemItem>, granted: seq<Grant>, generated: map<Pair, Access>, pair: Pair,
                             right: Right)
    requires Generated(generated, pair) == Computed(links, granted, generated, pair)
    ensures FollowsRules(links, granted, generated, pair, right)
    ensures Generated(generated, pair).owner <==>
            exists row :: row in granted && (row.group, row.item) == pair && row.access.owner
  {
    hide GrantedTo, Inherited, IsPassed;
    GrantedIsHighest(granted, pair, right);
    InheritedIsHighest(links, generated, pair, right);
  }

  /** No permission is amplified: a generated level above 'none' was granted to the same group
      on the item or on one of its ancestors, at least as high. */
  lemma {:induction false} NothingIsAmplified(links: seq<ItemItem>, granted: seq<Grant>, pair: Pair, right: Right)
    requires Acyclic(LinkEdges(links))
    ensures var level := LevelOf(Defined(links, granted, pair), right);
            level == 1 || GivenAtOrAbove(links, granted, pair, right, level)
    decreases Depth(LinkEdges(links), pair.1), |links| + 1
  {
    GrantedIsHighest(granted, pair, right);
    if GrantedTo(granted, pair).owner {
      var row :| row in granted && (row.group, row.item) == pair && row.access.owner;
      assert Gives(row, right, LevelOf(OWNER_ACCESS, right));
    } else {
      InheritedIsNotAmplified(links, |links|, granted, pair, right);
      if row :| row in granted && (row.group, row.item) == pair &&
                LevelOf(GrantedTo(granted, pair), right) <= LevelOf(row.access, right) {
        assert Gives(row, right, LevelOf(GrantedTo(granted, pair), right));
      }
    }
  }

  lemma {:induction false} InheritedIsNotAmplified(links: seq<ItemItem>, n: nat, granted: seq<Grant>, pair: Pair,
                                                   right: Right)
    requires Acyclic(LinkEdges(links)) && n <= |links|
    ensures var level := LevelOf(DefinedInherited(links, n, granted, pair), right);
            MayBeInherited(right, level) && (level == 1 || GivenAtOrAbove(links, granted, pair, right, level))
    ensures !DefinedInherited(links, n, granted, pair).owner
    decreases Depth(LinkEdges(links), pair.1), n
  {
    if n > 0 {
      InheritedIsNotAmplified(links, n - 1, granted, pair, right);
      var link := links[n - 1];
      if link.child == pair.1 {
        LinkDeepens(links, n - 1);
        var above := (pair.0, link.parent);
        NothingIsAmplified(links, granted, above, right);
        var level := LevelOf(Defined(links, granted, above), right);
        var passed := LevelOf(Propagated(link, Defined(links, granted, above)), right);
        assert passed <= level;
        if passed > 1 {
          var row :| row in granted && row.group == pair.0 && Gives(row, right, level) &&
                     (row.item == link.parent || Reaches(LinkEdges(links), row.item, link.parent));
          EdgeReaches(LinkEdges(links), link.parent, pair.1);
          if row.item != link.parent {
            ReachesTransitive(LinkEdges(links), row.item, link.parent, pair.1);
          }
          assert Gives(row, right, passed);
        }
      }
    }
  }

  /** A level "with grant" is never inherited: the pair has a row of its own that gives it. Ownership likewise. */
  lemma TopLevelsAreGivenDirectly(links: seq<ItemItem>, granted: seq<Grant>, pair: Pair, right: Right)
    requires Acyclic(LinkEdges(links))
    ensures var level := LevelOf(Defined(links, granted, pair), right);
            !MayBeInherited(right, level) ==>
              exists row :: row in granted && (row.group, row.item) == pair && Gives(row, right, level)
    ensures Defined(links, granted, pair).owner <==>
            exists row :: row in granted && (row.group, row.item) == pair && row.access.owner
  {
    GrantedIsHighest(granted, pair, right);
    InheritedIsNotAmplified(links, |links|, granted, pair, right);
    var direct := GrantedTo(granted, pair);
    if direct.owner {
      var row :| row in granted && (row.group, row.item) == pair && row.access.owner;
      assert Gives(row, right, LevelOf(OWNER_ACCESS, right));
    } else if row :|
        row in granted && (row.group, row.item) == pair && LevelOf(direct, right) <= LevelOf(row.access, right) {
      assert Gives(row, right, LevelOf(direct, right));
    }
  }

  /** Every row has a counterpart for the same pair that grants at least as much. */
  ghost predicate GrantsAtMost(less: seq<Grant>, more: seq<Grant>) {
    forall row :: row in less ==>
      exists other :: other in more && (other.group, other.item) == (row.group, row.item) &&
        AtMost(row.access, other.access)
  }

  lemma {:induction false} RowsAreWithinGranted(granted: seq<Grant>, row: Grant)
    requires row in granted
    ensures AtMost(row.access, GrantedTo(granted, (row.group, row.item)))
  {
    if row != granted[|granted| - 1] {
      RowsAreWithinGranted(granted[..|granted| - 1], row);
    }
  }

  lemma {:induction false} GrantedIsMonotone(less: seq<Grant>, more: seq<Grant>, pair: Pair)
    requires GrantsAtMost(less, more)
    ensures AtMost(GrantedTo(less, pair), GrantedTo(more, pair))
  {
    if less != [] {
      var row := less[|less| - 1];
      assert row in less;
      GrantedIsMonotone(less[..|less| - 1], more, pair);
      var other :| other in more && (other.group, other.item) == (row.group, row.item) &&
        AtMost(row.access, other.access);
      RowsAreWithinGranted(more, other);
    }
  }

  /** Levels stay within their enumerations. */
  predicate InRange(a: Access) {
    a.view <= 5 && a.grantView <= 6 && a.watch <= 4 && a.edit <= 4
  }

  /** Raising or adding grants lowers no generated permission. */
  lemma {:induction false} DefinedIsMonotone(links: seq<ItemItem>, less: seq<Grant>, more: seq<Grant>, pair: Pair)
    requires Acyclic(LinkEdges(links)) && GrantsAtMost(less, more)
    requires forall row :: row in less ==> InRange(row.access)
    ensures AtMost(Defined(links, less, pair), Defined(links, more, pair))
    ensures InRange(Defined(links, less, pair))
    decreases Depth(LinkEdges(links), pair.1), |links| + 1
  {
    GrantedIsMonotone(less, more, pair);
    GrantedInRange(less, pair);
    InheritedIsMonotone(links, |links|, less, more, pair);
  }

  lemma {:induction false} GrantedInRange(granted: seq<Grant>, pair: Pair)
    requires forall row :: row in granted ==> InRange(row.access)
    ensures InRange(GrantedTo(granted, pair))
  {
    if granted != [] {
      assert granted[|granted| - 1] in granted;
      GrantedInRange(granted[..|granted| - 1], pair);
    }
  }

  lemma {:induction false} InheritedIsMonotone(links: seq<ItemItem>, n: nat, less: seq<Grant>, more: seq<Grant>,
                                               pair: Pair)
    requires Acyclic(LinkEdges(links)) && GrantsAtMost(less, more) && n <= |links|
    requires forall row :: row in less ==> InRange(row.access)
    ensures var a, b := DefinedInherited(links, n, less, pair), DefinedInherited(links, n, more, pair);
            AtMost(a, b) && InRange(a) && !a.owner
    decreases Depth(LinkEdges(links), pair.1), n
  {
    if n > 0 {
      InheritedIsMonotone(links, n - 1, less, more, pair);
      if links[n - 1].child == pair.1 {
        LinkDeepens(links, n - 1);
        DefinedIsMonotone(links, less, more, (pair.0, links[n - 1].parent));
      }
    }
  }

  // ---------- The store ----------

  class PermissionStore {
    var granted: seq<Grant>                 // permissions_granted
    var itemsItems: seq<ItemItem>           // items_items
    var itemsAncestors: set<(Id, Id)>       // items_ancestors
    var generated: map<Pair, Access>        // permissions_generated
    var propagate: map<Pair, Mark>          // permissions_propagate

    /** The item graph is acyclic, its ancestor table is exact, and every outdated pair has a pending mark at or above
        it. */
    ghost predicate Valid()
      reads this
    {
      && Acyclic(LinkEdges(itemsItems))
      && IsClosure(LinkEdges(itemsItems), itemsAncestors)
      && Covered(itemsItems, granted, generated, propagate)
    }

    constructor ()
      ensures Valid() && granted == [] && itemsItems == [] && generated == map[] && propagate == map[]
    {
      granted, itemsItems, itemsAncestors, generated, propagate := [], [], {}, map[], map[];
      new;
      forall a, b
        ensures !Reaches(LinkEdges(itemsItems), a, b)
      {
        if Reaches(LinkEdges(itemsItems), a, b) {
          var _, _ := ReachesEnds(LinkEdges(itemsItems), a, b);
        }
      }
    }

    /** Recomputes `permissions_generated`. `recomputed` counts how often each pair was recomputed. */
    method ComputeAllAccess() returns (ghost recomputed: multiset<Pair>)
      requires Valid()
      modifies this`generated, this`propagate
      ensures Valid() && propagate == map[]
      ensures forall pair: Pair :: Generated(generated, pair) == Defined(itemsItems, granted, pair)
      ensures forall pair: Pair, right: Right :: FollowsRules(itemsItems, granted, generated, pair, right)
      ensures forall pair: Pair :: Generated(generated, pair).owner <==>
                exists row :: row in granted && (row.group, row.item) == pair && row.access.owner
      ensures forall pair: Pair :: recomputed[pair] <= 1
      ensures forall pair :: pair in recomputed ==> Below(LinkEdges(itemsItems), old(propagate).Keys, pair)
      ensures forall pair: Pair :: pair !in recomputed ==> Generated(generated, pair) == Generated(old(generated), pair)
    {
      recomputed := multiset{};
      ghost var processed: set<Pair> := {};
      ghost var start, universe := propagate.Keys, Universe(itemsItems, propagate);
      var hasChanges := true;
      while hasChanges
        invariant RoundInvariant(itemsItems, granted, start, universe, generated, propagate, processed)
        invariant !hasChanges ==> propagate == map[]
        invariant recomputed == multiset(processed)
        invariant SameOutside(old(generated), generated, processed)
        decreases universe - processed, hasChanges
      {
        ghost var processing;
        hasChanges, processing := ExecuteStatements(start, universe, processed);
        recomputed := recomputed + multiset(processing);
        processed := processed + processing;
      }
      NothingMarkedIsDefined(itemsItems, granted, generated);
      NothingMarkedFollowsRules(itemsItems, granted, generated);
    }

    /** One transaction of the loop. */
    method ExecuteStatements(ghost start: set<Pair>, ghost universe: set<Pair>, ghost processed: set<Pair>)
      returns (hasChanges: bool, ghost processing: set<Pair>)
      requires Acyclic(LinkEdges(itemsItems)) && IsClosure(LinkEdges(itemsItems), itemsAncestors)
      requires RoundInvariant(itemsItems, granted, start, universe, generated, propagate, processed)
      modifies this`generated, this`propagate
      ensures RoundInvariant(itemsItems, granted, start, universe, generated, propagate, processed + processing)
      ensures processed !! processing
      ensures hasChanges <==> processing != {}
      ensures !hasChanges ==> propagate == map[]
      ensures SameOutside(old(generated), generated, processing)
    {
      var marks := MarkChildrenAsSelf(itemsItems, generated, propagate);
      marks := DropChildrenMarks(marks);
      var permissionsPropagateProcessing := Processing(itemsAncestors, marks);
      var rows := Recompute(itemsItems, granted, generated, permissionsPropagateProcessing);
      var left := MarkAsChildren(permissionsPropagateProcessing, marks);
      hasChanges := permissionsPropagateProcessing != {};
      processing := permissionsPropagateProcessing;
      RoundKeepsInvariant(itemsItems, granted, itemsAncestors, start, universe, generated, propagate, processed,
                          marks, processing, rows, left);
      generated := rows;
      propagate := left;
    }

    /** INSERT INTO permissions_granted with its trigger */
    method InsertGrant(row: Grant)
      requires Valid()
      modifies this`granted, this`propagate
      ensures Valid() && granted == old(granted) + [row]
      ensures propagate == old(propagate)[(row.group, row.item) := Self]
    {
      granted := granted + [row];
      propagate := propagate[(row.group, row.item) := Self];
      assert granted[..|granted| - 1] == old(granted);
      MarkingAGrantKeepsCovered(itemsItems, old(granted), granted, generated, old(propagate), (row.group, row.item));
    }

    /** UPDATE permissions_granted with its trigger, which marks the pair only when a permission changes. */
    method UpdateGrant(k: nat, access: Access)
      requires Valid() && k < |granted|
      modifies this`granted, this`propagate
      ensures Valid() && granted == old(granted)[k := old(granted)[k].(access := access)]
      ensures propagate == if old(granted)[k].access == access then old(propagate)
                           else old(propagate)[(old(granted)[k].group, old(granted)[k].item) := Self]
    {
      var row := granted[k];
      var changed := row.access != access;
      granted := granted[k := row.(access := access)];
      if changed {
        forall pair: Pair | pair != (row.group, row.item)
          ensures GrantedTo(granted, pair) == GrantedTo(old(granted), pair)
        {
          OtherPairsKeepGrants(old(granted), granted[k], k, pair);
        }
        propagate := propagate[(row.group, row.item) := Self];
        MarkingAGrantKeepsCovered(itemsItems, old(granted), granted, generated, old(propagate), (row.group, row.item));
      } else {
        assert granted == old(granted);
      }
    }

    /** DELETE FROM permissions_granted with its trigger */
    method DeleteGrant(k: nat)
      requires Valid() && k < |granted|
      modifies this`granted, this`propagate
      ensures Valid() && granted == old(granted)[..k] + old(granted)[k + 1..]
      ensures propagate == old(propagate)[(old(granted)[k].group, old(granted)[k].item) := Self]
    {
      var row := granted[k];
      granted := granted[..k] + granted[k + 1..];
      propagate := propagate[(row.group, row.item) := Self];
      forall pair: Pair | pair != (row.group, row.item)
        ensures GrantedTo(granted, pair) == GrantedTo(old(granted), pair)
      {
        OtherPairsKeepGrantsOnDelete(old(granted), k, pair);
      }
      MarkingAGrantKeepsCovered(itemsItems, old(granted), granted, generated, old(propagate), (row.group, row.item));
    }

    /** INSERT INTO items_items with its trigger: every generated pair of the parent is marked 'children' unless it is
        marked already. The ancestors of the new graph come from their own recomputation. */
    method InsertItemItem(link: ItemItem, ancestors: set<(Id, Id)>)
      requires Valid()
      requires Acyclic(LinkEdges(itemsItems + [link])) && IsClosure(LinkEdges(itemsItems + [link]), ancestors)
      modifies this`itemsItems, this`itemsAncestors, this`propagate
      ensures Valid() && itemsItems == old(itemsItems) + [link] && itemsAncestors == ancestors
      ensures forall q :: q in propagate <==> q in old(propagate) || (q in generated && q.1 == link.parent)
      ensures forall q :: q in propagate ==> propagate[q] == if q in old(propagate) then old(propagate)[q] else Children
    {
      itemsItems := itemsItems + [link];
      itemsAncestors := ancestors;
      propagate := (map q | q in generated && q.1 == link.parent :: Children) + propagate;
      var links, edges := itemsItems, LinkEdges(itemsItems);
      assert links[..|links| - 1] == old(itemsItems) && link in links;
      forall pair: Pair | Generated(generated, pair) != Computed(links, granted, generated, pair)
        ensures Awaits(links, generated, propagate, pair)
      {
        if pair.1 == link.child && (pair.0, link.parent) in generated {
          assert (link.parent, link.child) in edges;
          EdgeReaches(edges, link.parent, link.child);
          assert Pending(generated, propagate, (pair.0, link.parent));
        } else if !Marked(propagate, pair, Self) {
          assert Awaits(old(itemsItems), generated, old(propagate), pair);
          var a :| Pending(generated, old(propagate), (pair.0, a)) && Reaches(LinkEdges(old(itemsItems)), a, pair.1);
          ReachesMonotone(LinkEdges(old(itemsItems)), edges, a, pair.1);
          assert Pending(generated, propagate, (pair.0, a));
        }
      }
    }
  }

  lemma MarkingAGrantKeepsCovered(links: seq<ItemItem>, before: seq<Grant>, after: seq<Grant>,
                                  generated: map<Pair, Access>, marks: map<Pair, Mark>, changed: Pair)
    requires Covered(links, before, generated, marks)
    requires forall pair: Pair :: pair != changed ==> GrantedTo(after, pair) == GrantedTo(before, pair)
    ensures Covered(links, after, generated, marks[changed := Self])
  {
    forall pair: Pair | Generated(generated, pair) != Computed(links, after, generated, pair)
      ensures Awaits(links, generated, marks[changed := Self], pair)
    {
      if !Marked(marks[changed := Self], pair, Self) {
        assert Awaits(links, generated, marks, pair);
        var a :| Pending(generated, marks, (pair.0, a)) && Reaches(LinkEdges(links), a, pair.1);
        assert Pending(generated, marks[changed := Self], (pair.0, a));
      }
    }
  }

  lemma {:induction false} OtherPairsKeepGrants(granted: seq<Grant>, row: Grant, k: nat, pair: Pair)
    requires k < |granted| && (row.group, row.item) == (granted[k].group, granted[k].item) != pair
    ensures GrantedTo(granted[k := row], pair) == GrantedTo(granted, pair)
  {
    var n := |granted| - 1;
    if k < n {
      assert granted[k := row][..n] == granted[..n][k := row];
      OtherPairsKeepGrants(granted[..n], row, k, pair);
    } else {
      assert granted[k := row][..n] == granted[..n];
    }
  }

  lemma {:induction false} OtherPairsKeepGrantsOnDelete(granted: seq<Grant>, k: nat, pair: Pair)
    requires k < |granted| && (granted[k].group, granted[k].item) != pair
    ensures GrantedTo(granted[..k] + granted[k + 1..], pair) == GrantedTo(granted, pair)
  {
    var n := |granted| - 1;
    var after := granted[..k] + granted[k + 1..];
    if k < n {
      assert after[..n - 1] == granted[..n][..k] + granted[..n][k + 1..];
      OtherPairsKeepGrantsOnDelete(granted[..n], k, pair);
    } else {
      assert after == granted[..n];
    }
  }
}
