/** What an update of a class's links writes and when it is refused, on the rows themselves. */
module LineageOutcomes {
  import opened Options
  import opened Lineage

  /** Live classes, each the stored parent of the one before. */
  ghost predicate Path(cs: seq<Class>, path: seq<ClassId>) {
    && (forall k :: 0 <= k < |path| ==> path[k] < |cs| && !cs[path[k]].deleted)
    && forall k :: 0 <= k < |path| - 1 ==> cs[path[k]].parent == Some(path[k+1])
  }

  /** A path of that many links from i to a. */
  ghost predicate LinkedBy(cs: seq<Class>, i: ClassId, a: ClassId, links: nat) {
    exists path: seq<ClassId> :: |path| == links + 1 && path[0] == i && path[links] == a && Path(cs, path)
  }

  lemma {:induction false} UpIsPath(cs: seq<Class>, i: ClassId, a: ClassId, n: nat)
    ensures Up(cs, i, n) == Some(a) <==> LinkedBy(cs, i, a, n)
    decreases n
  {
    if n == 0 {
      if Up(cs, i, 0) == Some(a) { assert Path(cs, [i]); }
    } else {
      if Up(cs, i, n) == Some(a) {
        var b := Up(cs, i, n-1).value;
        UpIsPath(cs, i, b, n-1);
        var path: seq<ClassId> :| |path| == n && path[0] == i && path[n-1] == b && Path(cs, path);
        assert Path(cs, path + [a]);
      }
      if LinkedBy(cs, i, a, n) {
        var path: seq<ClassId> :| |path| == n + 1 && path[0] == i && path[n] == a && Path(cs, path);
        var front := path[..n];
        assert Path(cs, front) && front[n-1] == path[n-1] && path[n-1+1] == a;
        UpIsPath(cs, i, path[n-1], n-1);
      }
    }
  }

  /** a is among the first fifty classes of the chain that starts at i. */
  ghost predicate AmongFifty(cs: seq<Class>, i: ClassId, a: ClassId) {
    exists links: nat :: links < 50 && LinkedBy(cs, i, a, links)
  }

  lemma WalkLooksAtFifty(cs: seq<Class>, from: ClassId, self: ClassId)
    ensures CreatesCycle(cs, from, self) <==> AmongFifty(cs, from, self)
  {
    ReachesIff(cs, from, self, 50);
    if AmongFifty(cs, from, self) {
      var links: nat :| links < 50 && LinkedBy(cs, from, self, links);
      UpIsPath(cs, from, self, links);
    }
    if Within(cs, from, self, 50) {
      var n: nat :| n < 50 && Up(cs, from, n) == Some(self);
      UpIsPath(cs, from, self, n);
    }
  }

  /** A class of the center that is not deleted. */
  predicate Exists(cs: seq<Class>, i: ClassId) { i < |cs| && !cs[i].deleted }

  /** The first check that fails, parent before next: both read the stored rows. The class must not be
      among the fifty classes from its new parent up, the new child not among the fifty from the class
      up. */
  lemma UpdateRefusals(cs: seq<Class>, self: ClassId, parent: Link, next: Link)
    ensures var r := Update(cs, self, parent, next);
      if !Exists(cs, self) then r == Err(NotFound)
      else if parent.To? && (parent.id == self || !Exists(cs, parent.id)) then r == Err(BadParent)
      else if parent.To? && AmongFifty(cs, parent.id, self) then r == Err(ParentCycle)
      else if next.To? && (next.id == self || !Exists(cs, next.id)) then r == Err(BadNext)
      else if next.To? && AmongFifty(cs, self, next.id) then r == Err(NextCycle)
      else r.Ok?
  {
    if parent.To? { WalkLooksAtFifty(cs, parent.id, self); }
    if next.To? { WalkLooksAtFifty(cs, self, next.id); }
  }

  /** The parent the class itself is given. */
  function OwnParent(cs: seq<Class>, self: ClassId, parent: Link): Option<ClassId>
    requires self < |cs|
  {
    match parent case Keep => cs[self].parent case Clear => None case To(p) => Some(p)
  }

  /** What an accepted update leaves of every class: the class has the parent it was given; when its next
      class is set or cleared the new child hangs below it and no other live class does any more; all
      else stays. */
  lemma UpdateOutcome(cs: seq<Class>, self: ClassId, parent: Link, next: Link, i: ClassId)
    requires Update(cs, self, parent, next).Ok? && i < |cs|
    ensures var after := Update(cs, self, parent, next).value;
      && |after| == |cs| && self < |cs| && after[i].deleted == cs[i].deleted
      && after[i].parent ==
           if next == To(i) then Some(self)
           else
             var before := if i == self then OwnParent(cs, self, parent) else cs[i].parent;
             if next != Keep && before == Some(self) && !cs[i].deleted then None else before
  {
  }

  /** A deletion marks one live class, a creation adds one that stands alone. */
  lemma OtherCalls(cs: seq<Class>, i: ClassId)
    ensures Step(cs, Create) == cs + [Class(None, false)]
    ensures Step(cs, Delete(i)) == if Exists(cs, i) then cs[i := Class(cs[i].parent, true)] else cs
  {
  }
}
