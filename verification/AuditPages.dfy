/** Paging through the audit trail: the limit clamp, the probe row, the cursor, and what a whole
    walk from the first page returns. */
module AuditPages {
  import opened Options
  import opened Ids
  import opened Keyset
  import opened AuditList

  const DEFAULT_LIMIT: nat := 50
  const MAX_LIMIT: nat := 100

  datatype Query = Query(actor: Option<UserId>, action: string, entityType: string, entityId: string, since: int,
    upTo: int, limit: int)

  datatype Page = Page(rows: seq<Key>, next: Option<Key>)

  function PageSize(limit: int): (n: nat)
    ensures 1 <= n <= MAX_LIMIT
    ensures 1 <= limit <= MAX_LIMIT ==> n == limit
    ensures limit <= 0 ==> n == DEFAULT_LIMIT
    ensures limit > MAX_LIMIT ==> n == MAX_LIMIT
  {
    if limit <= 0 then DEFAULT_LIMIT else if limit > MAX_LIMIT then MAX_LIMIT else limit
  }

  /** A missing cursor and the zero time look the same to the query. */
  function SpecFor(center: CenterId, q: Query, cursor: Option<Key>, limit: nat): Spec {
    Spec(center, q.actor, q.action, q.entityType, q.entityId, q.since, q.upTo,
         match cursor case Some(k) => k case None => Key(ZERO_TIME, 0), limit)
  }

  /** The whole visible, filtered trail, newest first. */
  function View(trail: seq<Log>, ms: seq<Member>, center: CenterId, q: Query): seq<Key> {
    Sort(Select(trail, x => Visible(ms, center, x) && Wanted(SpecFor(center, q, None, 0), x)))
  }

  /** The rows a cursor leaves: those strictly older, or all of them when it carries the zero time. */
  function Below(view: seq<Key>, cursor: Option<Key>): seq<Key> {
    match cursor
    case None => view
    case Some(k) => if k.at == ZERO_TIME then view else Older(view, k)
  }

  function Older(view: seq<Key>, k: Key): seq<Key> {
    if view == [] then [] else if Newer(k, view[0]) then view else Older(view[1..], k)
  }

  function PageOf(view: seq<Key>, size: nat, cursor: Option<Key>): Page
    requires size >= 1
  {
    var rest := Below(view, cursor);
    if |rest| > size then Page(rest[..size], Some(rest[size-1])) else Page(rest, None)
  }

  lemma {:induction false} OlderMembers(view: seq<Key>, k: Key, x: Key)
    requires Desc(view)
    ensures x in Older(view, k) <==> x in view && Newer(k, x)
  {
    if view == [] {
    } else {
      OlderMembers(view[1..], k, x);
      HeadOrTail(view, x);
      if Newer(k, view[0]) && x in view { DescFirst(view, x); }
    }
  }

  lemma {:induction false} OlderDesc(view: seq<Key>, k: Key)
    requires Desc(view)
    ensures Desc(Older(view, k))
  {
    if view != [] && !Newer(k, view[0]) { OlderDesc(view[1..], k); }
  }

  /** What the query sees with a cursor is the part of the view below it. */
  lemma QueryBelow(trail: seq<Log>, ms: seq<Member>, center: CenterId, q: Query, cursor: Option<Key>, limit: nat)
    requires IdsUnique(trail) && MembersUnique(ms)
    ensures AuditList.Query(trail, ms, SpecFor(center, q, cursor, limit)) ==
      Take(Below(View(trail, ms, center, q), cursor), limit)
  {
    var spec := SpecFor(center, q, cursor, limit);
    var all := (x: Log) => Visible(ms, center, x) && Wanted(SpecFor(center, q, None, 0), x);
    var some := (x: Log) => Visible(ms, spec.center, x) && Wanted(spec, x);
    var view := View(trail, ms, center, q);
    QueryIsNaive(trail, ms, spec);
    SelectDistinct(trail, all);
    SelectDistinct(trail, some);
    SortDesc(Select(trail, all));
    var below := Below(view, cursor);
    if cursor.Some? && spec.cursor.at != ZERO_TIME { OlderDesc(view, spec.cursor); }
    forall k: Key | true ensures k in Select(trail, some) <==> k in below {
      SelectMembers(trail, all, k);
      SelectMembers(trail, some, k);
      SortMembers(Select(trail, all), k);
      if cursor.Some? && spec.cursor.at != ZERO_TIME { OlderMembers(view, spec.cursor, k); }
      SelectedBelow(trail, ms, center, q, cursor, limit, k);
    }
    SortUnique(Select(trail, some), below);
  }

  lemma SelectedBelow(trail: seq<Log>, ms: seq<Member>, center: CenterId, q: Query, cursor: Option<Key>,
      limit: nat, k: Key)
    ensures var spec := SpecFor(center, q, cursor, limit);
      Selected(trail, x => Visible(ms, spec.center, x) && Wanted(spec, x), k) <==>
      Selected(trail, x => Visible(ms, center, x) && Wanted(SpecFor(center, q, None, 0), x), k)
      && (spec.cursor.at != ZERO_TIME ==> Newer(spec.cursor, k))
  {
    var spec := SpecFor(center, q, cursor, limit);
    var base := SpecFor(center, q, None, 0);
    if Selected(trail, x => Visible(ms, spec.center, x) && Wanted(spec, x), k) {
      var i :| 0 <= i < |trail| && trail[i].key == k && Visible(ms, spec.center, trail[i]) && Wanted(spec, trail[i]);
      assert Wanted(base, trail[i]);
    }
    if Selected(trail, x => Visible(ms, center, x) && Wanted(base, x), k) &&
      (spec.cursor.at != ZERO_TIME ==> Newer(spec.cursor, k)) {
      var i :| 0 <= i < |trail| && trail[i].key == k && Visible(ms, center, trail[i]) && Wanted(base, trail[i]);
      assert Wanted(spec, trail[i]);
    }
  }

  /** The rows asked for, one more than the page holds, cut to the page. */
  function Cut(probed: seq<Key>, size: nat): Page
    requires size >= 1
  {
    if |probed| > size then Page(probed[..size], Some(probed[size-1])) else Page(probed, None)
  }

  lemma CutIsPage(view: seq<Key>, size: nat, cursor: Option<Key>)
    requires size >= 1
    ensures Cut(Take(Below(view, cursor), size + 1), size) == PageOf(view, size, cursor)
  {
  }

  /** One page: ask for one row more than the page holds, cut it off, and point the cursor at the
      last row kept. */
  method List(trail: seq<Log>, ms: seq<Member>, center: CenterId, q: Query,
      cursor: Option<Key>) returns (rows: seq<Key>, next: Option<Key>)
    requires IdsUnique(trail) && MembersUnique(ms)
    ensures Page(rows, next) == PageOf(View(trail, ms, center, q), PageSize(q.limit), cursor)
  {
    var limit := q.limit;
    if limit <= 0 { limit := DEFAULT_LIMIT; }
    if limit > MAX_LIMIT { limit := MAX_LIMIT; }
    QueryBelow(trail, ms, center, q, cursor, limit + 1);
    CutIsPage(View(trail, ms, center, q), limit, cursor);
    rows := AuditList.Query(trail, ms, SpecFor(center, q, cursor, limit + 1));
    next := None;
    if |rows| > limit {
      rows := rows[..limit];
      next := Some(rows[limit-1]);
    }
  }

  // ----- a walk over the pages of an unchanged trail ----------------------

  datatype Walk = Walk(rows: seq<Key>, cursor: Option<Key>, finished: bool)

  function WalkPages(view: seq<Key>, size: nat, pages: nat): Walk
    requires size >= 1
  {
    if pages == 0 then Walk([], None, false)
    else
      var before := WalkPages(view, size, pages-1);
      if before.finished then before
      else
        var page := PageOf(view, size, before.cursor);
        Walk(before.rows + page.rows, page.next, page.next.None?)
  }

  /** Some page before the last ends on a row whose time is the zero time. */
  ghost predicate ZeroBoundary(view: seq<Key>, size: nat, pages: nat) {
    1 <= pages && 1 <= pages * size < |view| && view[pages * size - 1].at == ZERO_TIME
  }

  lemma {:induction false} OlderIsSuffix(view: seq<Key>, j: nat)
    requires Desc(view) && j < |view|
    ensures Older(view, view[j]) == view[j+1..]
  {
    if j == 0 {
      assert !Newer(view[0], view[0]);
      assert view == [view[0]] + view[1..];
      if |view| > 1 { assert view[1..][0] == view[1]; }
    } else {
      assert Newer(view[0], view[j]);
      assert view[1..][j-1] == view[j];
      OlderIsSuffix(view[1..], j-1);
      assert view[1..][j..] == view[j+1..];
    }
  }

  function BoundaryCursor(view: seq<Key>, start: nat): Option<Key>
    requires start <= |view|
  {
    if start == 0 then None else Some(view[start-1])
  }

  lemma PageAfter(view: seq<Key>, size: nat, start: nat)
    requires size >= 1 && Desc(view) && start <= |view| && (start > 0 ==> view[start-1].at != ZERO_TIME)
    ensures var page := PageOf(view, size, BoundaryCursor(view, start));
      && view[..start] + page.rows == view[..if start + size < |view| then start + size else |view|]
      && page.next == if start + size < |view| then Some(view[start + size - 1]) else None
  {
    if start > 0 { OlderIsSuffix(view, start - 1); }
    assert Below(view, BoundaryCursor(view, start)) == view[start..];
    if start + size < |view| { assert view[start..][..size] == view[start..start+size]; }
  }

  lemma Multiples(p: nat, size: nat)
    requires size >= 1
    ensures p * size >= p && (p+1) * size == p * size + size
  {
  }

  ghost predicate Collected(view: seq<Key>, end: nat, w: Walk) {
    if end == 0 then w == Walk([], None, false)
    else if end < |view| then w == Walk(view[..end], Some(view[end-1]), false)
    else w == Walk(view, None, true)
  }

  lemma CollectOne(view: seq<Key>, size: nat, start: nat, before: Walk)
    requires size >= 1 && Desc(view) && Collected(view, start, before) && !before.finished
    requires 0 < start < |view| ==> view[start-1].at != ZERO_TIME
    ensures var page := PageOf(view, size, before.cursor);
      Collected(view, start + size, Walk(before.rows + page.rows, page.next, page.next.None?))
  {
    assert start < |view| || start == 0;
    PageAfter(view, size, start);
    assert view[..|view|] == view && view[..0] == [];
  }

  /** While no boundary row carries the zero time, the walk has collected exactly the first pages. */
  lemma {:induction false} WalkCollects(view: seq<Key>, size: nat, pages: nat)
    requires size >= 1 && Desc(view)
    requires forall p: nat :: p < pages ==> !ZeroBoundary(view, size, p)
    ensures Collected(view, pages * size, WalkPages(view, size, pages))
  {
    if pages == 0 {
    } else {
      var p := pages - 1;
      WalkCollects(view, size, p);
      Multiples(p, size);
      if !WalkPages(view, size, p).finished {
        if 0 < p * size < |view| { assert !ZeroBoundary(view, size, p); }
        CollectOne(view, size, p * size, WalkPages(view, size, p));
      }
    }
  }

  ghost predicate Finishes(view: seq<Key>, size: nat) {
    size >= 1 && exists n: nat :: WalkPages(view, size, n).finished
  }

  /** The next page starts at page p of the view: after its boundary row, or at the top. */
  ghost predicate StandsAt(view: seq<Key>, size: nat, z: nat, p: nat, cursor: Option<Key>) {
    && p < z
    && if p == 0 then Below(view, cursor) == view else 1 <= p * size < |view| && cursor == Some(view[p * size - 1])
  }

  lemma StandsOn(view: seq<Key>, size: nat, z: nat, p: nat, cursor: Option<Key>)
    requires size >= 1 && Desc(view) && ZeroBoundary(view, size, z) && StandsAt(view, size, z, p, cursor)
    requires forall p: nat :: p < z ==> !ZeroBoundary(view, size, p)
    ensures PageOf(view, size, cursor).next.Some?
    ensures StandsAt(view, size, z, if p + 1 == z then 0 else p + 1, PageOf(view, size, cursor).next)
  {
    Multiples(p, size);
    MonotoneMultiples(p + 1, z, size);
    var start := p * size;
    if p > 0 { assert !ZeroBoundary(view, size, p); }
    PageAfter(view, size, start);
    assert PageOf(view, size, cursor) == PageOf(view, size, BoundaryCursor(view, start));
    assert PageOf(view, size, cursor).next == Some(view[start + size - 1]);
  }

  /** A zero-time boundary row sends the walk back to the first page, forever. */
  lemma {:induction false} ZeroBoundaryLoops(view: seq<Key>, size: nat, z: nat, pages: nat)
    requires size >= 1 && Desc(view) && ZeroBoundary(view, size, z)
    requires forall p: nat :: p < z ==> !ZeroBoundary(view, size, p)
    ensures !WalkPages(view, size, pages).finished
    ensures exists p: nat :: StandsAt(view, size, z, p, WalkPages(view, size, pages).cursor)
  {
    if pages == 0 {
      assert StandsAt(view, size, z, 0, WalkPages(view, size, 0).cursor);
    } else {
      ZeroBoundaryLoops(view, size, z, pages - 1);
      var cursor := WalkPages(view, size, pages - 1).cursor;
      var p: nat :| StandsAt(view, size, z, p, cursor);
      StandsOn(view, size, z, p, cursor);
      assert WalkPages(view, size, pages).cursor == PageOf(view, size, cursor).next;
    }
  }

  lemma MonotoneMultiples(p: nat, z: nat, size: nat)
    requires p <= z
    ensures p * size <= z * size
  {
  }

  lemma {:induction false} FirstZeroBoundary(view: seq<Key>, size: nat, n: nat) returns (z: nat)
    requires ZeroBoundary(view, size, n)
    ensures z <= n && ZeroBoundary(view, size, z) && forall p: nat :: p < z ==> !ZeroBoundary(view, size, p)
    decreases n
  {
    if p: nat :| p < n && ZeroBoundary(view, size, p) {
      z := FirstZeroBoundary(view, size, p);
    } else {
      z := n;
    }
  }

  /** Following next_cursor to the end returns every visible row exactly once, in order, and
      terminates, exactly when no page before the last ends on a row with the zero time. */
  lemma WalkIsExactIff(trail: seq<Log>, ms: seq<Member>, center: CenterId, q: Query)
    requires IdsUnique(trail) && MembersUnique(ms)
    ensures var view, size := View(trail, ms, center, q), PageSize(q.limit);
      && (Finishes(view, size) <==> forall p: nat :: !ZeroBoundary(view, size, p))
      && forall n: nat :: WalkPages(view, size, n).finished ==> WalkPages(view, size, n).rows == view
  {
    var view, size := View(trail, ms, center, q), PageSize(q.limit);
    var all := (x: Log) => Visible(ms, center, x) && Wanted(SpecFor(center, q, None, 0), x);
    SelectDistinct(trail, all);
    SortDesc(Select(trail, all));
    if p: nat :| ZeroBoundary(view, size, p) {
      var z := FirstZeroBoundary(view, size, p);
      forall n: nat | true ensures !WalkPages(view, size, n).finished { ZeroBoundaryLoops(view, size, z, n); }
    } else {
      var n := |view| + 1;
      Multiples(n, size);
      WalkCollects(view, size, n);
      assert WalkPages(view, size, n).finished;
      forall k: nat | WalkPages(view, size, k).finished ensures WalkPages(view, size, k).rows == view {
        WalkCollects(view, size, k);
      }
    }
  }

  function Untimed(id: nat): Log { Log(Key(ZERO_TIME, id), Some(0), None, "", "", "") }

  const UNFILTERED := Query(None, "", "", "", ZERO_TIME, ZERO_TIME, 1)

  lemma SortTwo(x: Key, y: Key)
    requires Newer(y, x)
    ensures Sort([x, y]) == [y, x]
  {
    assert [x, y][..1] == [x] && [x][..0] == [];
    assert Sort([x]) == [x];
    assert Insert([x], y) == [y] + [x];
  }

  lemma UntimedView(p: Log -> bool, a: Log, b: Log)
    requires p(a) && p(b) && Newer(b.key, a.key)
    ensures Sort(Select([a, b], p)) == [b.key, a.key]
  {
    assert [a, b][..1] == [a] && [a][..0] == [];
    assert Select([a], p) == [a.key];
    SortTwo(a.key, b.key);
  }

  /** Two rows with the zero time, read one a page: the walk never ends. */
  lemma ZeroTimeExample()
    ensures View([Untimed(1), Untimed(2)], [], 0, UNFILTERED) == [Key(ZERO_TIME, 2), Key(ZERO_TIME, 1)]
    ensures !Finishes(View([Untimed(1), Untimed(2)], [], 0, UNFILTERED), PageSize(UNFILTERED.limit))
  {
    var trail, q := [Untimed(1), Untimed(2)], UNFILTERED;
    UntimedView(x => Visible([], 0, x) && Wanted(SpecFor(0, q, None, 0), x), Untimed(1), Untimed(2));
    assert ZeroBoundary(View(trail, [], 0, q), 1, 1);
    WalkIsExactIff(trail, [], 0, q);
  }
}
