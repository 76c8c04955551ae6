/** The class lineage: each live class names at most one parent, and updates keep the parent
    graph acyclic with an ancestor walk that stops after MAX_LINEAGE_DEPTH classes. */
module Lineage {
  import opened Options

  type ClassId = nat

  datatype Class = Class(parent: Option<ClassId>, deleted: bool)

  datatype Error = NotFound | BadParent | ParentCycle | BadNext | NextCycle

  datatype Result<+T> = Ok(value: T) | Err(error: Error)

  const MAX_LINEAGE_DEPTH: nat := 50

  predicate Live(cs: seq<Class>, i: ClassId) { i < |cs| && !cs[i].deleted }

  /** The live class i's live parent. */
  function Parent(cs: seq<Class>, i: ClassId): (r: Option<ClassId>)
    ensures r.Some? ==> Live(cs, r.value)
  {
    if Live(cs, i) && cs[i].parent.Some? && Live(cs, cs[i].parent.value) then cs[i].parent else None
  }

  /** The n-th live ancestor; the class itself for n = 0. */
  function Up(cs: seq<Class>, i: ClassId, n: nat): (r: Option<ClassId>)
    ensures r.Some? ==> Live(cs, r.value)
  {
    if n == 0 then (if Live(cs, i) then Some(i) else None)
    else match Up(cs, i, n-1) case None => None case Some(j) => Parent(cs, j)
  }

  ghost predicate Ancestor(cs: seq<Class>, i: ClassId, a: ClassId) { exists n: nat :: Up(cs, i, n) == Some(a) }

  ghost predicate Acyclic(cs: seq<Class>) { forall i: ClassId, n: nat :: n >= 1 ==> Up(cs, i, n) != Some(i) }

  // ----- the capped walk --------------------------------------------------

  /** Is self among the first depth classes of the chain that starts at from? */
  predicate Reaches(cs: seq<Class>, from: ClassId, self: ClassId, depth: nat)
    decreases depth
  {
    depth > 0 && Live(cs, from)
    && (from == self || (Parent(cs, from).Some? && Reaches(cs, Parent(cs, from).value, self, depth - 1)))
  }

  predicate CreatesCycle(cs: seq<Class>, from: ClassId, self: ClassId) { Reaches(cs, from, self, MAX_LINEAGE_DEPTH) }

  /** The recursive query, one level a round. */
  method ParentCreatesCycle(cs: seq<Class>, from: ClassId, self: ClassId) returns (found: bool)
    ensures found == CreatesCycle(cs, from, self)
  {
    if !Live(cs, from) { return false; }
    var at, depth := from, 1;
    while at != self && depth < MAX_LINEAGE_DEPTH && Parent(cs, at).Some?
      invariant 1 <= depth <= MAX_LINEAGE_DEPTH && Live(cs, at)
      invariant CreatesCycle(cs, from, self) == Reaches(cs, at, self, MAX_LINEAGE_DEPTH - depth + 1)
      decreases MAX_LINEAGE_DEPTH - depth
    {
      at, depth := Parent(cs, at).value, depth + 1;
    }
    found := at == self;
    assert !found && depth == MAX_LINEAGE_DEPTH && Parent(cs, at).Some? ==> !Reaches(cs, Parent(cs, at).value, self, 0);
  }

  lemma {:induction false} UpFront(cs: seq<Class>, i: ClassId, n: nat)
    ensures Up(cs, i, n+1) == match Parent(cs, i) case None => None case Some(p) => Up(cs, p, n)
  {
    if n > 0 { UpFront(cs, i, n-1); } else { assert Up(cs, i, 1) == Parent(cs, i); }
  }

  ghost predicate Within(cs: seq<Class>, i: ClassId, a: ClassId, depth: nat) {
    exists n: nat :: n < depth && Up(cs, i, n) == Some(a)
  }

  lemma WithinStep(cs: seq<Class>, i: ClassId, a: ClassId, depth: nat)
    requires depth > 0 && Live(cs, i)
    ensures Within(cs, i, a, depth) <==>
      i == a || (Parent(cs, i).Some? && Within(cs, Parent(cs, i).value, a, depth - 1))
  {
    assert Up(cs, i, 0) == Some(i);
    if Within(cs, i, a, depth) && i != a {
      var n: nat :| n < depth && Up(cs, i, n) == Some(a);
      UpFront(cs, i, n-1);
    }
    if Parent(cs, i).Some? && Within(cs, Parent(cs, i).value, a, depth - 1) {
      var n: nat :| n < depth - 1 && Up(cs, Parent(cs, i).value, n) == Some(a);
      UpFront(cs, i, n);
      assert Up(cs, i, n+1) == Some(a);
    }
  }

  /** The walk finds exactly the ancestors at distance below its cap. */
  lemma {:induction false} ReachesIff(cs: seq<Class>, from: ClassId, self: ClassId, depth: nat)
    ensures Reaches(cs, from, self, depth) <==> Within(cs, from, self, depth)
    decreases depth
  {
    if depth > 0 && Live(cs, from) {
      WithinStep(cs, from, self, depth);
      if Parent(cs, from).Some? { ReachesIff(cs, Parent(cs, from).value, self, depth - 1); }
    } else if depth > 0 {
      forall n: nat | true ensures Up(cs, from, n) == None { UpDead(cs, from, n); }
    }
  }

  lemma {:induction false} UpDead(cs: seq<Class>, i: ClassId, n: nat)
    requires !Live(cs, i)
    ensures Up(cs, i, n) == None
  {
    if n == 0 {
    } else {
      UpDead(cs, i, n-1);
    }
  }

  lemma {:induction false} UpNone(cs: seq<Class>, i: ClassId, n: nat, m: nat)
    requires Up(cs, i, n) == None && n <= m
    ensures Up(cs, i, m) == None
    decreases m
  {
    if n < m { UpNone(cs, i, n, m-1); }
  }

  /** On chains within the cap the walk is true reachability. */
  lemma WalkIsReachability(cs: seq<Class>, from: ClassId, self: ClassId)
    requires Up(cs, from, MAX_LINEAGE_DEPTH) == None
    ensures CreatesCycle(cs, from, self) <==> Ancestor(cs, from, self)
  {
    ReachesIff(cs, from, self, MAX_LINEAGE_DEPTH);
    if Ancestor(cs, from, self) {
      var n: nat :| Up(cs, from, n) == Some(self);
      if n >= MAX_LINEAGE_DEPTH { UpNone(cs, from, MAX_LINEAGE_DEPTH, n); }
    }
  }

  // ----- changing one edge ------------------------------------------------

  function SetParent(cs: seq<Class>, self: ClassId, p: Option<ClassId>): seq<Class>
    requires self < |cs|
  {
    cs[self := cs[self].(parent := p)]
  }

  lemma {:induction false} UpSplit(cs: seq<Class>, i: ClassId, a: nat, b: nat)
    ensures Up(cs, i, a + b) == match Up(cs, i, a) case None => None case Some(j) => Up(cs, j, b)
  {
    if b == 0 {
    } else {
      UpSplit(cs, i, a, b-1);
    }
  }

  /** A chain that does not pass self before step n is the same after self's edge changes. */
  lemma {:induction false} SamePath(cs: seq<Class>, self: ClassId, p: Option<ClassId>, i: ClassId, n: nat)
    requires self < |cs| && forall m: nat :: m < n ==> Up(cs, i, m) != Some(self)
    ensures Up(SetParent(cs, self, p), i, n) == Up(cs, i, n)
  {
    if n == 0 {
    } else {
      SamePath(cs, self, p, i, n-1);
    }
  }

  lemma SelfOffCycle(cs: seq<Class>, self: ClassId, p: ClassId, n: nat)
    requires Live(cs, self) && Live(cs, p) && !Ancestor(cs, p, self) && n >= 1
    ensures Up(SetParent(cs, self, Some(p)), self, n) != Some(self)
  {
    var after := SetParent(cs, self, Some(p));
    UpFront(after, self, n-1);
    SamePath(cs, self, Some(p), p, n-1);
  }

  /** The first step below n at which the chain of i meets self, or n when it meets it nowhere. */
  lemma {:induction false} FirstMeeting(cs: seq<Class>, i: ClassId, self: ClassId, n: nat) returns (m: nat)
    ensures m <= n && (m == n || Up(cs, i, m) == Some(self))
    ensures forall k: nat :: k < m ==> Up(cs, i, k) != Some(self)
  {
    if n == 0 {
      m := 0;
    } else {
      m := FirstMeeting(cs, i, self, n-1);
      if Up(cs, i, m) != Some(self) { m := n; }
    }
  }

  lemma OffSelfNoCycle(cs: seq<Class>, self: ClassId, p: Option<ClassId>, i: ClassId, n: nat)
    requires Acyclic(cs) && self < |cs| && n >= 1
    requires forall k: nat :: k >= 1 ==> Up(SetParent(cs, self, p), self, k) != Some(self)
    ensures Up(SetParent(cs, self, p), i, n) != Some(i)
  {
    var after := SetParent(cs, self, p);
    var m := FirstMeeting(cs, i, self, n);
    SamePath(cs, self, p, i, m);
    if m < n && Up(after, i, n) == Some(i) {
      assert m + (n - m) == n && (n - m) + m == n;
      UpSplit(after, i, m, n - m);
      UpSplit(after, self, n - m, m);
    }
  }

  /** Giving self the parent p keeps the lineage acyclic exactly when self is no ancestor of p. */
  lemma AcyclicAfterIff(cs: seq<Class>, self: ClassId, p: ClassId)
    requires Acyclic(cs) && Live(cs, self) && Live(cs, p)
    ensures Acyclic(SetParent(cs, self, Some(p))) <==> !Ancestor(cs, p, self)
  {
    var after := SetParent(cs, self, Some(p));
    if Ancestor(cs, p, self) {
      var n: nat :| Up(cs, p, n) == Some(self);
      var m := FirstMeeting(cs, p, self, n);
      SamePath(cs, self, Some(p), p, m);
      UpFront(after, self, m);
      assert Up(after, self, m+1) == Some(self);
    } else {
      forall n: nat | n >= 1 ensures Up(after, self, n) != Some(self) { SelfOffCycle(cs, self, p, n); }
      forall i: ClassId, n: nat | n >= 1 ensures Up(after, i, n) != Some(i) { OffSelfNoCycle(cs, self, Some(p), i, n); }
    }
  }

  /** Fewer classes or edges: every chain of the smaller graph is a chain of the larger one. */
  ghost predicate Subgraph(small: seq<Class>, big: seq<Class>) {
    && |small| == |big|
    && forall i: ClassId :: i < |big| ==> (big[i].deleted ==> small[i].deleted)
                                          && (small[i].parent == big[i].parent || small[i].parent == None)
  }

  lemma {:induction false} SubgraphUp(small: seq<Class>, big: seq<Class>, i: ClassId, n: nat)
    requires Subgraph(small, big)
    ensures Up(small, i, n) == None || Up(small, i, n) == Up(big, i, n)
  {
    if n == 0 {
    } else {
      SubgraphUp(small, big, i, n-1);
    }
  }

  lemma SubgraphAcyclic(small: seq<Class>, big: seq<Class>)
    requires Subgraph(small, big) && Acyclic(big)
    ensures Acyclic(small)
  {
    forall i: ClassId, n: nat | n >= 1 ensures Up(small, i, n) != Some(i) { SubgraphUp(small, big, i, n); }
  }

  // ----- linking a next class ---------------------------------------------

  function Unlinked(c: Class, self: ClassId, keep: Option<ClassId>, i: ClassId): Class {
    if c.parent == Some(self) && !c.deleted && keep != Some(i) then c.(parent := None) else c
  }

  function UnlinkChildren(cs: seq<Class>, self: ClassId, keep: Option<ClassId>): (r: seq<Class>)
    ensures |r| == |cs| && forall i :: 0 <= i < |cs| ==> r[i] == Unlinked(cs[i], self, keep, i)
  {
    seq(|cs|, i requires 0 <= i < |cs| => Unlinked(cs[i], self, keep, i))
  }

  /** Every live child but the kept one loses its link; then the child gains it. */
  function LinkNextClass(cs: seq<Class>, self: ClassId, child: Option<ClassId>): seq<Class> {
    var cleared := UnlinkChildren(cs, self, child);
    if child.Some? && Live(cleared, child.value) then SetParent(cleared, child.value, Some(self)) else cleared
  }

  /** The repository's two statements; a child that is not live is refused. */
  method LinkNext(cs: seq<Class>, self: ClassId, child: Option<ClassId>) returns (r: Result<seq<Class>>)
    ensures r == if child.Some? && !Live(cs, child.value) then Err(NotFound) else Ok(LinkNextClass(cs, self, child))
  {
    var out := cs;
    for i := 0 to |cs|
      invariant |out| == |cs|
      invariant forall k :: 0 <= k < i ==> out[k] == Unlinked(cs[k], self, child, k)
      invariant forall k :: i <= k < |cs| ==> out[k] == cs[k]
    {
      if out[i].parent == Some(self) && !out[i].deleted && child != Some(i) {
        out := out[i := out[i].(parent := None)];
      }
    }
    assert out == UnlinkChildren(cs, self, child);
    if child.None? { return Ok(out); }
    if !Live(out, child.value) { return Err(NotFound); }
    return Ok(out[child.value := out[child.value].(parent := Some(self))]);
  }

  /** After linking, the child is the single live child of the class. */
  lemma SingleLiveChild(cs: seq<Class>, self: ClassId, child: Option<ClassId>, i: ClassId)
    requires child.Some? ==> Live(cs, child.value)
    ensures var after := LinkNextClass(cs, self, child);
      |after| == |cs| && (Live(after, i) && after[i].parent == Some(self) <==> child == Some(i))
  {
  }

  /** Unlinking self's children leaves alone every chain that meets self at most at its start. */
  lemma {:induction false} ChainKeptByUnlink(cs: seq<Class>, self: ClassId, keep: Option<ClassId>, i: ClassId, n: nat)
    requires forall m: nat :: 1 <= m <= n ==> Up(cs, i, m) != Some(self)
    ensures Up(UnlinkChildren(cs, self, keep), i, n) == Up(cs, i, n)
  {
    var after := UnlinkChildren(cs, self, keep);
    if n == 0 {
    } else {
      ChainKeptByUnlink(cs, self, keep, i, n-1);
      var before := Up(cs, i, n-1);
      if before.Some? {
        assert after[before.value] == Unlinked(cs[before.value], self, keep, before.value);
        assert Up(cs, i, n) == Parent(cs, before.value);
      }
    }
  }

  lemma UnlinkIsSubgraph(cs: seq<Class>, self: ClassId, keep: Option<ClassId>)
    ensures Subgraph(UnlinkChildren(cs, self, keep), cs)
  {
  }

  lemma AncestorsKeptByUnlink(cs: seq<Class>, self: ClassId, keep: Option<ClassId>, a: ClassId)
    requires Acyclic(cs)
    ensures Ancestor(UnlinkChildren(cs, self, keep), self, a) <==> Ancestor(cs, self, a)
  {
    forall n: nat | true ensures Up(UnlinkChildren(cs, self, keep), self, n) == Up(cs, self, n) {
      ChainKeptByUnlink(cs, self, keep, self, n);
    }
  }

  /** Linking a child keeps the lineage acyclic exactly when the child is no ancestor of the class. */
  lemma LinkAcyclicIff(cs: seq<Class>, self: ClassId, child: ClassId)
    requires Acyclic(cs) && Live(cs, self) && Live(cs, child)
    ensures Acyclic(LinkNextClass(cs, self, Some(child))) <==> !Ancestor(cs, self, child)
  {
    var cleared := UnlinkChildren(cs, self, Some(child));
    UnlinkIsSubgraph(cs, self, Some(child));
    SubgraphAcyclic(cleared, cs);
    assert cleared[self] == Unlinked(cs[self], self, Some(child), self);
    assert cleared[child] == Unlinked(cs[child], self, Some(child), child);
    AcyclicAfterIff(cleared, child, self);
    AncestorsKeptByUnlink(cs, self, Some(child), child);
  }

  // ----- updates ----------------------------------------------------------

  /** A missing field keeps the stored link, a blank one clears it. */
  datatype Link = Keep | Clear | To(id: ClassId)

  function Saved(cs: seq<Class>, self: ClassId, parent: Link): seq<Class>
    requires self < |cs|
  {
    match parent
    case Keep => cs
    case Clear => SetParent(cs, self, None)
    case To(p) => SetParent(cs, self, Some(p))
  }

  function Linked(cs: seq<Class>, self: ClassId, next: Link): seq<Class> {
    match next
    case Keep => cs
    case Clear => LinkNextClass(cs, self, None)
    case To(c) => LinkNextClass(cs, self, Some(c))
  }

  /** Both links are checked against the stored rows, before either is written. */
  function Update(cs: seq<Class>, self: ClassId, parent: Link, next: Link): Result<seq<Class>> {
    if !Live(cs, self) then Err(NotFound)
    else if parent.To? && (parent.id == self || !Live(cs, parent.id)) then Err(BadParent)
    else if parent.To? && CreatesCycle(cs, parent.id, self) then Err(ParentCycle)
    else if next.To? && (next.id == self || !Live(cs, next.id)) then Err(BadNext)
    else if next.To? && CreatesCycle(cs, self, next.id) then Err(NextCycle)
    else Ok(Linked(Saved(cs, self, parent), self, next))
  }

  class Registry {
    var classes: seq<Class>

    constructor ()
      ensures classes == []
    {
      classes := [];
    }

    method UpdateLinks(self: ClassId, parent: Link, next: Link) returns (r: Result<()>)
      modifies this
      ensures match Update(old(classes), self, parent, next)
        case Ok(cs) => r.Ok? && classes == cs
        case Err(e) => r == Err(e) && classes == old(classes)
    {
      if !Live(classes, self) { return Err(NotFound); }
      if parent.To? {
        if parent.id == self || !Live(classes, parent.id) { return Err(BadParent); }
        var cycle := ParentCreatesCycle(classes, parent.id, self);
        if cycle { return Err(ParentCycle); }
      }
      if next.To? {
        if next.id == self || !Live(classes, next.id) { return Err(BadNext); }
        var cycle := ParentCreatesCycle(classes, self, next.id);
        if cycle { return Err(NextCycle); }
      }
      var rows := classes;
      if parent.To? { rows := rows[self := rows[self].(parent := Some(parent.id))]; }
      if parent.Clear? { rows := rows[self := rows[self].(parent := None)]; }
      if next.To? {
        // The child was found live in the same step, so the refusal of LinkNext cannot happen here.
        var linked := LinkNext(rows, self, Some(next.id));
        rows := linked.value;
      }
      if next.Clear? {
        var linked := LinkNext(rows, self, None);
        rows := linked.value;
      }
      classes := rows;
      return Ok(());
    }
  }

  /** a is an ancestor of i further up than the walk looks. */
  ghost predicate BeyondCap(cs: seq<Class>, i: ClassId, a: ClassId) {
    exists n: nat :: n >= MAX_LINEAGE_DEPTH && Up(cs, i, n) == Some(a)
  }

  lemma AncestorSplits(cs: seq<Class>, i: ClassId, a: ClassId)
    ensures Ancestor(cs, i, a) <==> CreatesCycle(cs, i, a) || BeyondCap(cs, i, a)
  {
    ReachesIff(cs, i, a, MAX_LINEAGE_DEPTH);
  }

  /** A parent-only update that is accepted keeps the lineage acyclic exactly when the class is
      not an ancestor of its new parent beyond the walk's cap. */
  lemma ParentUpdateIff(cs: seq<Class>, self: ClassId, p: ClassId)
    requires Acyclic(cs) && Update(cs, self, To(p), Keep).Ok?
    ensures Acyclic(Update(cs, self, To(p), Keep).value) <==> !BeyondCap(cs, p, self)
  {
    AncestorSplits(cs, p, self);
    AcyclicAfterIff(cs, self, p);
  }

  /** A next-only update that is accepted keeps the lineage acyclic exactly when the child is not
      an ancestor of the class beyond the walk's cap, and leaves it the single live child. */
  lemma NextUpdateIff(cs: seq<Class>, self: ClassId, child: ClassId, i: ClassId)
    requires Acyclic(cs) && Update(cs, self, Keep, To(child)).Ok?
    ensures var after := Update(cs, self, Keep, To(child)).value;
      && (Acyclic(after) <==> !BeyondCap(cs, self, child))
      && |after| == |cs| && (Live(after, i) && after[i].parent == Some(self) <==> i == child)
  {
    AncestorSplits(cs, self, child);
    LinkAcyclicIff(cs, self, child);
    SingleLiveChild(cs, self, Some(child), i);
  }

  lemma {:induction false} ChainThroughNewParent(cs: seq<Class>, self: ClassId, p: ClassId, a: ClassId)
    requires Live(cs, self) && Live(cs, p) && !Ancestor(cs, p, self) && a != self
    ensures Ancestor(SetParent(cs, self, Some(p)), self, a) <==> Ancestor(cs, p, a)
  {
    var after := SetParent(cs, self, Some(p));
    forall n: nat | true ensures Up(after, self, n+1) == Up(cs, p, n) {
      UpFront(after, self, n);
      SamePath(cs, self, Some(p), p, n);
    }
    if Ancestor(after, self, a) {
      var n: nat :| Up(after, self, n) == Some(a);
      assert n > 0;
      assert Up(after, self, (n-1)+1) == Up(cs, p, n-1);
    }
    if Ancestor(cs, p, a) {
      var n: nat :| Up(cs, p, n) == Some(a);
      assert Up(after, self, n+1) == Some(a);
    }
  }

  // ----- both links at once -----------------------------------------------

  /** The chain of i meets a before it meets stop. */
  ghost predicate MeetsBefore(cs: seq<Class>, i: ClassId, a: ClassId, stop: ClassId) {
    exists n: nat :: Up(cs, i, n) == Some(a) && Avoids(cs, i, stop, n)
  }

  ghost predicate Avoids(cs: seq<Class>, i: ClassId, stop: ClassId, n: nat) {
    forall m: nat :: m < n ==> Up(cs, i, m) != Some(stop)
  }

  /** The stored rows with self childless and the new child without a parent. */
  function Bare(cs: seq<Class>, self: ClassId, child: ClassId): seq<Class>
    requires child < |cs|
  {
    SetParent(UnlinkChildren(cs, self, Some(child)), child, None)
  }

  lemma BareIsSubgraph(cs: seq<Class>, self: ClassId, child: ClassId)
    requires child < |cs|
    ensures Subgraph(Bare(cs, self, child), cs)
    ensures forall i: ClassId :: Parent(Bare(cs, self, child), i) != Some(self)
  {
    var bare := Bare(cs, self, child);
    forall i: ClassId | i < |cs| && i != child ensures bare[i] == Unlinked(cs[i], self, Some(child), i) {
    }
  }

  /** Up to its first meeting with self or the child a chain is the same on the bare rows. */
  lemma {:induction false} BareChain(cs: seq<Class>, self: ClassId, child: ClassId, i: ClassId, n: nat)
    requires child < |cs| && Avoids(cs, i, self, n) && Avoids(cs, i, child, n) && Up(cs, i, n) != Some(self)
    ensures Up(Bare(cs, self, child), i, n) == Up(cs, i, n)
  {
    var bare := Bare(cs, self, child);
    if n == 0 {
    } else {
      assert Up(cs, i, n-1) != Some(self);
      BareChain(cs, self, child, i, n-1);
      var before := Up(cs, i, n-1);
      if before.Some? {
        assert bare[before.value] == Unlinked(cs[before.value], self, Some(child), before.value);
        assert Up(cs, i, n) == Parent(cs, before.value);
      }
    }
  }

  lemma BareAncestorIff(cs: seq<Class>, self: ClassId, p: ClassId, child: ClassId)
    requires child < |cs| && self != child && p != self
    ensures Ancestor(Bare(cs, self, child), p, child) <==> MeetsBefore(cs, p, child, self)
  {
    var bare := Bare(cs, self, child);
    BareIsSubgraph(cs, self, child);
    if MeetsBefore(cs, p, child, self) {
      var n: nat :| Up(cs, p, n) == Some(child) && Avoids(cs, p, self, n);
      var m := FirstMeeting(cs, p, child, n);
      BareChain(cs, self, child, p, m);
      assert Up(bare, p, m) == Some(child);
    }
    if Ancestor(bare, p, child) {
      var n: nat :| Up(bare, p, n) == Some(child);
      forall m: nat | m < n ensures Up(cs, p, m) != Some(self) { BareAvoids(cs, self, child, p, n, m); }
      SubgraphUp(bare, cs, p, n);
      assert Avoids(cs, p, self, n);
    }
  }

  lemma BareAvoids(cs: seq<Class>, self: ClassId, child: ClassId, p: ClassId, n: nat, m: nat)
    requires child < |cs| && p != self && m < n && Up(Bare(cs, self, child), p, n).Some?
    ensures Up(cs, p, m) != Some(self)
  {
    var bare := Bare(cs, self, child);
    BareIsSubgraph(cs, self, child);
    if Up(bare, p, m) == None { UpNone(bare, p, m, n); }
    SubgraphUp(bare, cs, p, m);
    if m > 0 { assert Up(bare, p, m-1).Some? ==> Parent(bare, Up(bare, p, m-1).value) != Some(self); }
  }

  /** Writing both links is linking them onto the bare rows. */
  lemma BothFromBare(cs: seq<Class>, self: ClassId, p: ClassId, child: ClassId)
    requires Acyclic(cs) && Live(cs, self) && Live(cs, child) && self != child && p != self
    ensures LinkNextClass(SetParent(cs, self, Some(p)), self, Some(child))
      == SetParent(SetParent(Bare(cs, self, child), self, Some(p)), child, Some(self))
  {
    assert Up(cs, self, 1) != Some(self) && Up(cs, self, 0) == Some(self);
    var left := LinkNextClass(SetParent(cs, self, Some(p)), self, Some(child));
    var right := SetParent(SetParent(Bare(cs, self, child), self, Some(p)), child, Some(self));
    forall i | 0 <= i < |cs| ensures left[i] == right[i] {
      if i != self && i != child { assert right[i] == Unlinked(cs[i], self, Some(child), i); }
    }
  }

  /** An accepted update of both links keeps the lineage acyclic exactly when the chain of the new
      parent does not meet the new child before it meets the class: the child is only checked
      against the class's old parent. */
  lemma BothUpdateIff(cs: seq<Class>, self: ClassId, p: ClassId, child: ClassId)
    requires Acyclic(cs) && Update(cs, self, To(p), To(child)).Ok?
    ensures Acyclic(Update(cs, self, To(p), To(child)).value) <==> !MeetsBefore(cs, p, child, self)
  {
    var bare := Bare(cs, self, child);
    var hung := SetParent(bare, self, Some(p));
    BareIsSubgraph(cs, self, child);
    SubgraphAcyclic(bare, cs);
    assert bare[self] == Unlinked(cs[self], self, Some(child), self);
    assert p != child ==> bare[p] == Unlinked(cs[p], self, Some(child), p);
    ChildlessIsNoAncestor(bare, self, p);
    AcyclicAfterIff(bare, self, p);
    BothFromBare(cs, self, p, child);
    AcyclicAfterIff(hung, child, self);
    ChainThroughNewParent(bare, self, p, child);
    BareAncestorIff(cs, self, p, child);
  }

  lemma ChildlessIsNoAncestor(cs: seq<Class>, self: ClassId, p: ClassId)
    requires p != self && forall i: ClassId :: Parent(cs, i) != Some(self)
    ensures !Ancestor(cs, p, self)
  {
    forall n: nat | true ensures Up(cs, p, n) != Some(self) {
      if n > 0 && Up(cs, p, n-1).Some? { assert Parent(cs, Up(cs, p, n-1).value) != Some(self); }
    }
  }

  /** The smallest case: the same class as parent and as next. */
  lemma ParentAndNextCanCycle()
    ensures var cs := [Class(None, false), Class(None, false)];
      Acyclic(cs) && Update(cs, 0, To(1), To(1)).Ok? && !Acyclic(Update(cs, 0, To(1), To(1)).value)
  {
    var cs := [Class(None, false), Class(None, false)];
    forall i: ClassId, n: nat | n >= 1 ensures Up(cs, i, n) == None {
      assert Up(cs, i, 1) == None;
      UpNone(cs, i, 1, n);
    }
    assert !CreatesCycle(cs, 1, 0) && !CreatesCycle(cs, 0, 1);
    assert Up(cs, 1, 0) == Some(1) && Avoids(cs, 1, 0, 0);
    BothUpdateIff(cs, 0, 1, 1);
  }

  // ----- runs -------------------------------------------------------------

  datatype Op = Create | Delete(id: ClassId) | Relink(self: ClassId, parent: Link, next: Link)

  /** New classes stand alone; a class is soft-deleted and never restored. */
  function Step(cs: seq<Class>, op: Op): seq<Class> {
    match op
    case Create => cs + [Class(None, false)]
    case Delete(i) => if Live(cs, i) then cs[i := cs[i].(deleted := true)] else cs
    case Relink(self, parent, next) =>
      var r := Update(cs, self, parent, next);
      if r.Ok? then r.value else cs
  }

  function Run(ops: seq<Op>): seq<Class> {
    if ops == [] then [] else Step(Run(ops[..|ops|-1]), ops[|ops|-1])
  }

  ghost predicate LinksValid(cs: seq<Class>) {
    forall i :: 0 <= i < |cs| && cs[i].parent.Some? ==> cs[i].parent.value < |cs|
  }

  /** What decides whether an accepted update of an acyclic lineage leaves it acyclic, read off the
      rows before the update. Clearing one link makes setting the other harmless. */
  ghost predicate KeepsForest(cs: seq<Class>, op: Op) {
    op.Relink? && Update(cs, op.self, op.parent, op.next).Ok? ==>
      match (op.parent, op.next)
      case (To(p), Keep) => !BeyondCap(cs, p, op.self)
      case (Keep, To(c)) => !BeyondCap(cs, op.self, c)
      case (To(p), To(c)) => !MeetsBefore(cs, p, c, op.self)
      case _ => true
  }

  lemma {:induction false} CreateKeepsChains(cs: seq<Class>, i: ClassId, n: nat)
    requires LinksValid(cs) && n >= 1
    ensures Up(cs + [Class(None, false)], i, n) == Up(cs, i, n)
  {
    var after := cs + [Class(None, false)];
    if n == 1 {
      assert Up(after, i, 0) == if i == |cs| then Some(i) else Up(cs, i, 0);
    } else {
      CreateKeepsChains(cs, i, n-1);
    }
  }

  lemma ClearedNextKeeps(cs: seq<Class>, self: ClassId)
    requires Acyclic(cs)
    ensures Acyclic(LinkNextClass(cs, self, None))
  {
    UnlinkIsSubgraph(cs, self, None);
    SubgraphAcyclic(LinkNextClass(cs, self, None), cs);
  }

  lemma ClearingShortens(cs: seq<Class>, self: ClassId, a: ClassId)
    requires self < |cs| && Ancestor(SetParent(cs, self, None), self, a)
    ensures a == self
  {
    var after := SetParent(cs, self, None);
    var n: nat :| Up(after, self, n) == Some(a);
    if n > 0 { UpFront(after, self, n-1); }
  }

  /** A new parent for a class that loses all its children closes no cycle. */
  lemma ParentWithoutChildren(cs: seq<Class>, self: ClassId, p: ClassId)
    requires Acyclic(cs) && Live(cs, self) && Live(cs, p) && p != self
    ensures Acyclic(LinkNextClass(SetParent(cs, self, Some(p)), self, None))
  {
    var cleared := UnlinkChildren(cs, self, None);
    UnlinkIsSubgraph(cs, self, None);
    SubgraphAcyclic(cleared, cs);
    assert cleared[self] == Unlinked(cs[self], self, None, self) && cleared[p] == Unlinked(cs[p], self, None, p);
    ChildlessIsNoAncestor(cleared, self, p);
    AcyclicAfterIff(cleared, self, p);
    assert Up(cs, self, 1) != Some(self) && Up(cs, self, 0) == Some(self);
    assert LinkNextClass(SetParent(cs, self, Some(p)), self, None) == SetParent(cleared, self, Some(p));
  }

  lemma RelinkIff(cs: seq<Class>, self: ClassId, parent: Link, next: Link)
    requires Acyclic(cs) && Update(cs, self, parent, next).Ok?
    ensures Acyclic(Update(cs, self, parent, next).value) <==> KeepsForest(cs, Relink(self, parent, next))
  {
    if parent.Clear? { SubgraphAcyclic(SetParent(cs, self, None), cs); }
    match (parent, next) {
      case (Keep, Keep) =>
      case (Clear, Keep) =>
      case (To(p), Keep) => ParentUpdateIff(cs, self, p);
      case (Keep, Clear) => ClearedNextKeeps(cs, self);
      case (Clear, Clear) => ClearedNextKeeps(SetParent(cs, self, None), self);
      case (To(p), Clear) => ParentWithoutChildren(cs, self, p);
      case (Keep, To(c)) => NextUpdateIff(cs, self, c, c);
      case (Clear, To(c)) =>
        LinkAcyclicIff(SetParent(cs, self, None), self, c);
        if Ancestor(SetParent(cs, self, None), self, c) { ClearingShortens(cs, self, c); }
      case (To(p), To(c)) => BothUpdateIff(cs, self, p, c);
    }
  }

  lemma StepKeepsLinks(cs: seq<Class>, op: Op)
    requires LinksValid(cs)
    ensures LinksValid(Step(cs, op))
  {
  }

  /** Any call on an acyclic lineage leaves it acyclic exactly when it keeps the forest. */
  lemma StepIff(cs: seq<Class>, op: Op)
    requires Acyclic(cs) && LinksValid(cs)
    ensures Acyclic(Step(cs, op)) <==> KeepsForest(cs, op)
  {
    match op
    case Create =>
      forall i: ClassId, n: nat | n >= 1 ensures Up(Step(cs, op), i, n) != Some(i) { CreateKeepsChains(cs, i, n); }
    case Delete(i) =>
      if Live(cs, i) { SubgraphAcyclic(Step(cs, op), cs); }
    case Relink(self, parent, next) =>
      if Update(cs, self, parent, next).Ok? { RelinkIff(cs, self, parent, next); }
  }

  /** The lineage is acyclic at every moment of the run. */
  ghost predicate AcyclicThroughout(ops: seq<Op>) {
    Acyclic(Run(ops)) && (ops == [] || AcyclicThroughout(ops[..|ops|-1]))
  }

  /** Every call of the run keeps the forest it finds. */
  ghost predicate ForestRun(ops: seq<Op>) {
    ops == [] || (ForestRun(ops[..|ops|-1]) && KeepsForest(Run(ops[..|ops|-1]), ops[|ops|-1]))
  }

  lemma {:induction false} RunKeepsLinks(ops: seq<Op>)
    ensures LinksValid(Run(ops))
  {
    if ops == [] {
    } else {
      RunKeepsLinks(ops[..|ops|-1]);
      StepKeepsLinks(Run(ops[..|ops|-1]), ops[|ops|-1]);
    }
  }

  /** Over every run of creations, deletions and updates the live parent graph is acyclic at every
      moment exactly when each update keeps the forest it finds. */
  lemma {:induction false} LineageStaysAForest(ops: seq<Op>)
    ensures AcyclicThroughout(ops) <==> ForestRun(ops)
  {
    if ops == [] {
      forall i: ClassId, n: nat | true ensures Up([], i, n) == None { UpDead([], i, n); }
    } else {
      var before := ops[..|ops|-1];
      LineageStaysAForest(before);
      if AcyclicThroughout(before) {
        RunKeepsLinks(before);
        StepIff(Run(before), ops[|ops|-1]);
      }
    }
  }

  // ----- the cap ----------------------------------------------------------

  /** n classes, each the child of the one before. */
  function Chain(n: nat): (cs: seq<Class>)
    ensures |cs| == n
    ensures forall i :: 0 <= i < n ==> cs[i] == Class(if i == 0 then None else Some(i-1), false)
  {
    seq(n, i requires 0 <= i < n => Class(if i == 0 then None else Some(i-1), false))
  }

  function ChainOps(n: nat): seq<Op> {
    if n == 0 then [] else ChainOps(n-1) + [Create] + (if n == 1 then [] else [Relink(n-1, To(n-2), Keep)])
  }

  lemma RunSnoc(before: seq<Op>, op: Op)
    ensures Run(before + [op]) == Step(Run(before), op)
  {
    assert (before + [op])[..|before|] == before;
  }

  lemma {:induction false} ChainUp(cs: seq<Class>, n: nat, i: ClassId, k: nat)
    requires n <= |cs| && cs[..n] == Chain(n) && i < n
    ensures Up(cs, i, k) == if k <= i then Some(i - k) else None
  {
    if k == 0 {
      assert cs[..n][i] == cs[i];
    } else {
      ChainUp(cs, n, i, k-1);
      if k - 1 <= i { assert cs[..n][i - (k-1)] == cs[i - (k-1)]; }
      if k <= i { assert cs[..n][i - k] == cs[i - k]; }
    }
  }

  lemma HangBelow(n: nat)
    requires n >= 1
    ensures Step(Chain(n) + [Class(None, false)], Relink(n, To(n-1), Keep)) == Chain(n+1)
  {
    var cs, last := Chain(n) + [Class(None, false)], n-1;
    assert cs[..n] == Chain(n);
    ReachesIff(cs, last, n, MAX_LINEAGE_DEPTH);
    forall k: nat | true ensures Up(cs, last, k) != Some(n) { ChainUp(cs, n, last, k); }
    assert SetParent(cs, n, Some(last)) == Chain(n+1);
  }

  lemma RunSnocTwo(before: seq<Op>, a: Op, b: Op)
    ensures Run(before + [a] + [b]) == Step(Step(Run(before), a), b)
  {
    RunSnoc(before, a);
    RunSnoc(before + [a], b);
  }

  /** Chains of any length are reached: each class is hung below the one before. */
  lemma {:induction false} ChainIsReached(n: nat)
    ensures Run(ChainOps(n)) == Chain(n)
  {
    if n == 0 {
    } else if n == 1 {
      RunSnoc([], Create);
      assert ChainOps(1) == [] + [Create] && Chain(1) == [] + [Class(None, false)];
    } else {
      ChainIsReached(n-1);
      RunSnocTwo(ChainOps(n-1), Create, Relink(n-1, To(n-2), Keep));
      HangBelow(n-1);
    }
  }

  lemma TopFromBottom(n: nat, depth: nat)
    requires n >= 1
    ensures Within(Chain(n), n-1, 0, depth) <==> n <= depth
  {
    var cs, last := Chain(n), n-1;
    assert cs[..n] == cs;
    forall k: nat | true ensures Up(cs, last, k) == Some(0) <==> k == last { ChainUp(cs, n, last, k); }
    assert Up(cs, last, last) == Some(0);
  }

  /** Hanging the top of a chain below its bottom is refused up to the cap's 50 classes; from 51 on
      it is accepted and closes a cycle. */
  lemma DeepChainCanCycle(n: nat)
    requires n >= 2
    ensures Acyclic(Chain(n))
    ensures Update(Chain(n), 0, To(n-1), Keep).Ok? <==> n > MAX_LINEAGE_DEPTH
    ensures n > MAX_LINEAGE_DEPTH ==> !Acyclic(Update(Chain(n), 0, To(n-1), Keep).value)
  {
    var cs := Chain(n);
    assert cs[..n] == cs;
    forall i: ClassId, k: nat | k >= 1 ensures Up(cs, i, k) != Some(i) {
      if i < n { ChainUp(cs, n, i, k); } else { UpDead(cs, i, k); }
    }
    ReachesIff(cs, n-1, 0, MAX_LINEAGE_DEPTH);
    TopFromBottom(n, MAX_LINEAGE_DEPTH);
    if n > MAX_LINEAGE_DEPTH {
      ChainUp(cs, n, n-1, n-1);
      assert BeyondCap(cs, n-1, 0);
      ParentUpdateIff(cs, 0, n-1);
    }
  }
}
