/** A class's chat: posting, retracting and paging backwards, with a walk whose pages are read
    while messages are posted and retracted in between. */
module ClassChat {
  import opened Options
  import opened Ids
  import opened Keyset

  type ClassId = nat
  type TeacherId = nat

  const DEFAULT_LIMIT: nat := 20
  const MAX_LIMIT: nat := 50

  datatype Message = Message(key: Key, classId: ClassId, author: TeacherId, deleted: bool)

  datatype Page = Page(rows: seq<Key>, next: Option<nat>)

  function PageSize(limit: int): (n: nat)
    ensures 1 <= n <= MAX_LIMIT
    ensures 1 <= limit <= MAX_LIMIT ==> n == limit
  {
    if limit <= 0 then DEFAULT_LIMIT else if limit > MAX_LIMIT then MAX_LIMIT else limit
  }

  // ----- reading ----------------------------------------------------------

  /** The position of the cursor message, retracted or not, if it belongs to the class. */
  function CursorKey(msgs: seq<Message>, c: ClassId, id: nat): Option<Key> {
    if msgs == [] then None
    else if msgs[|msgs|-1].key.id == id && msgs[|msgs|-1].classId == c then Some(msgs[|msgs|-1].key)
    else CursorKey(msgs[..|msgs|-1], c, id)
  }

  predicate Listed(m: Message, c: ClassId, bound: Option<Key>) {
    m.classId == c && !m.deleted && (bound.Some? ==> Newer(bound.value, m.key))
  }

  function Matching(msgs: seq<Message>, c: ClassId, bound: Option<Key>): seq<Key> {
    if msgs == [] then []
    else Matching(msgs[..|msgs|-1], c, bound) + (if Listed(msgs[|msgs|-1], c, bound) then [msgs[|msgs|-1].key] else [])
  }

  /** Live messages older than the cursor, newest first; a cursor foreign to the class matches nothing. */
  function Rows(msgs: seq<Message>, c: ClassId, before: Option<nat>, limit: nat): seq<Key> {
    match before
    case None => Take(Sort(Matching(msgs, c, None)), limit)
    case Some(id) =>
      match CursorKey(msgs, c, id)
      case None => []
      case Some(k) => Take(Sort(Matching(msgs, c, Some(k))), limit)
  }

  function PageOf(msgs: seq<Message>, c: ClassId, before: Option<nat>, size: nat): Page
    requires size >= 1
  {
    var rows := Rows(msgs, c, before, size + 1);
    if |rows| > size then Page(rows[..size], Some(rows[size-1].id)) else Page(rows, None)
  }

  // ----- writing ----------------------------------------------------------

  ghost predicate IdsUnique(msgs: seq<Message>) {
    forall i, j :: 0 <= i < j < |msgs| ==> msgs[i].key.id != msgs[j].key.id
  }

  datatype Retraction = Retracted | NotFound | NotAuthor

  /** A live message of the class. */
  predicate Readable(m: Message, c: ClassId, id: nat) { m.key.id == id && m.classId == c && !m.deleted }

  predicate MayRetract(m: Message, caller: TeacherId, isOwner: bool) { isOwner || m.author == caller }

  /** Between two reads messages are only appended or retracted. */
  predicate Later(a: Message, b: Message) {
    a.key == b.key && a.classId == b.classId && a.author == b.author && (a.deleted ==> b.deleted)
  }

  ghost predicate Evolves(a: seq<Message>, b: seq<Message>) {
    |a| <= |b| && forall i :: 0 <= i < |a| ==> Later(a[i], b[i])
  }

  class Chat {
    var messages: seq<Message>

    constructor ()
      ensures messages == []
    {
      messages := [];
    }

    method List(c: ClassId, before: Option<nat>, limitParam: int) returns (rows: seq<Key>, next: Option<nat>)
      ensures Page(rows, next) == PageOf(messages, c, before, PageSize(limitParam))
    {
      var limit := limitParam;
      if limit <= 0 { limit := DEFAULT_LIMIT; }
      if limit > MAX_LIMIT { limit := MAX_LIMIT; }
      rows, next := Rows(messages, c, before, limit + 1), None;
      if |rows| > limit {
        rows := rows[..limit];
        next := Some(rows[limit-1].id);
      }
    }

    method Post(c: ClassId, author: TeacherId, id: nat, at: int)
      requires IdsUnique(messages) && forall i :: 0 <= i < |messages| ==> messages[i].key.id != id
      modifies this
      ensures messages == old(messages) + [Message(Key(at, id), c, author, false)]
      ensures IdsUnique(messages) && Evolves(old(messages), messages)
    {
      messages := messages + [Message(Key(at, id), c, author, false)];
    }

    /** A retracted or foreign message is not found; of the others only the author or the owner may
        retract, and exactly that message becomes deleted. */
    method Delete(c: ClassId, id: nat, caller: TeacherId, isOwner: bool) returns (r: Retraction)
      requires IdsUnique(messages)
      modifies this
      ensures r == NotFound <==> forall i :: 0 <= i < |old(messages)| ==>
        !(old(messages)[i].key.id == id && old(messages)[i].classId == c && !old(messages)[i].deleted)
      ensures r == NotAuthor <==>
        exists i ::
          0 <= i < |old(messages)| && old(messages)[i].key.id == id && old(messages)[i].classId == c
          && !old(messages)[i].deleted && !isOwner && old(messages)[i].author != caller
      ensures |messages| == |old(messages)| && IdsUnique(messages) && Evolves(old(messages), messages)
      ensures forall i :: 0 <= i < |messages| ==>
        var was := old(messages)[i];
        messages[i] ==
          if was.key.id == id && was.classId == c && (isOwner || was.author == caller) then was.(deleted := true)
          else was
    {
      for i := 0 to |messages|
        invariant messages == old(messages)
        invariant forall k :: 0 <= k < i ==> !Readable(messages[k], c, id)
      {
        if Readable(messages[i], c, id) {
          if !MayRetract(messages[i], caller, isOwner) { return NotAuthor; }
          messages := messages[i := messages[i].(deleted := true)];
          return Retracted;
        }
      }
      return NotFound;
    }
  }

  // ----- what a page holds ------------------------------------------------

  ghost predicate InMatching(msgs: seq<Message>, c: ClassId, bound: Option<Key>, k: Key) {
    exists i :: 0 <= i < |msgs| && msgs[i].key == k && Listed(msgs[i], c, bound)
  }

  lemma {:induction false} MatchingMembers(msgs: seq<Message>, c: ClassId, bound: Option<Key>, k: Key)
    ensures k in Matching(msgs, c, bound) <==> InMatching(msgs, c, bound, k)
  {
    if msgs == [] {
    } else {
      var before := msgs[..|msgs|-1];
      MatchingMembers(before, c, bound, k);
      if InMatching(before, c, bound, k) {
        var i :| 0 <= i < |before| && before[i].key == k && Listed(before[i], c, bound);
        assert msgs[i] == before[i];
      }
      if InMatching(msgs, c, bound, k) {
        var i :| 0 <= i < |msgs| && msgs[i].key == k && Listed(msgs[i], c, bound);
        if i < |before| { assert before[i] == msgs[i]; }
      }
    }
  }

  lemma {:induction false} MatchingDistinct(msgs: seq<Message>, c: ClassId, bound: Option<Key>)
    requires IdsUnique(msgs)
    ensures Distinct(Matching(msgs, c, bound))
  {
    if msgs == [] {
    } else {
      var before, last := msgs[..|msgs|-1], msgs[|msgs|-1];
      MatchingDistinct(before, c, bound);
      MatchingMembers(before, c, bound, last.key);
      DistinctConcat(Matching(before, c, bound), if Listed(last, c, bound) then [last.key] else []);
    }
  }

  lemma {:induction false} CursorKeyFound(msgs: seq<Message>, c: ClassId, i: nat)
    requires IdsUnique(msgs) && i < |msgs| && msgs[i].classId == c
    ensures CursorKey(msgs, c, msgs[i].key.id) == Some(msgs[i].key)
  {
    if i < |msgs|-1 {
      assert msgs[..|msgs|-1][i] == msgs[i];
      CursorKeyFound(msgs[..|msgs|-1], c, i);
    }
  }

  function Below(msgs: seq<Message>, c: ClassId, bound: Option<Key>): seq<Key> { Sort(Matching(msgs, c, bound)) }

  lemma BelowFacts(msgs: seq<Message>, c: ClassId, bound: Option<Key>, k: Key)
    requires IdsUnique(msgs)
    ensures Desc(Below(msgs, c, bound)) && (k in Below(msgs, c, bound) <==> InMatching(msgs, c, bound, k))
  {
    MatchingDistinct(msgs, c, bound);
    SortDesc(Matching(msgs, c, bound));
    MatchingMembers(msgs, c, bound, k);
    SortMembers(Matching(msgs, c, bound), k);
  }

  // ----- walks ------------------------------------------------------------

  datatype Walk = Walk(rows: seq<Key>, cursor: Option<nat>, finished: bool)

  /** Page i is read from the i-th state of the chat. */
  function WalkPages(history: seq<seq<Message>>, c: ClassId, size: nat, pages: nat): Walk
    requires size >= 1 && pages <= |history|
  {
    if pages == 0 then Walk([], None, false)
    else
      var before := WalkPages(history, c, size, pages-1);
      if before.finished then before else Next(history[pages-1], c, size, before)
  }

  ghost predicate History(history: seq<seq<Message>>) {
    && (forall i :: 0 <= i < |history| ==> IdsUnique(history[i]))
    && (forall i :: 0 <= i < |history|-1 ==> Evolves(history[i], history[i+1]))
  }

  /** Message m, present at the first read, is still live at every later one. */
  ghost predicate LiveThroughout(history: seq<seq<Message>>, c: ClassId, m: nat) {
    && |history| > 0 && m < |history[0]|
    && forall i :: 0 <= i < |history| ==> m < |history[i]| && history[i][m].key == history[0][m].key
                                          && history[i][m].classId == c && !history[i][m].deleted
  }

  /** Where the walk stands after its last page: nothing yet, or just below a row of the class. */
  ghost predicate StandsBelow(msgs: seq<Message>, c: ClassId, w: Walk) {
    if w.rows == [] then w.cursor == None
    else w.cursor == Some(w.rows[|w.rows|-1].id)
         && exists i :: 0 <= i < |msgs| && msgs[i].key == w.rows[|w.rows|-1] && msgs[i].classId == c
  }

  function Bound(w: Walk): Option<Key> { if w.rows == [] then None else Some(w.rows[|w.rows|-1]) }

  /** The page at the walk's cursor is the top of what lies below its last row. */
  lemma PageIsTop(msgs: seq<Message>, c: ClassId, w: Walk, size: nat)
    requires IdsUnique(msgs) && StandsBelow(msgs, c, w) && size >= 1
    ensures var below, page := Below(msgs, c, Bound(w)), PageOf(msgs, c, w.cursor, size);
      page.rows == Take(below, size) && page.next == if |below| > size then Some(below[size-1].id) else None
  {
    if w.rows != [] {
      var i :| 0 <= i < |msgs| && msgs[i].key == w.rows[|w.rows|-1] && msgs[i].classId == c;
      CursorKeyFound(msgs, c, i);
    }
    assert Rows(msgs, c, w.cursor, size + 1) == Take(Below(msgs, c, Bound(w)), size + 1);
  }

  lemma EvolvesKeepsPlace(a: seq<Message>, b: seq<Message>, c: ClassId, w: Walk)
    requires Evolves(a, b) && StandsBelow(a, c, w)
    ensures StandsBelow(b, c, w)
  {
    if w.rows != [] {
      var i :| 0 <= i < |a| && a[i].key == w.rows[|w.rows|-1] && a[i].classId == c;
      assert Later(a[i], b[i]);
    }
  }

  function Next(msgs: seq<Message>, c: ClassId, size: nat, w: Walk): Walk
    requires size >= 1
  {
    var page := PageOf(msgs, c, w.cursor, size);
    Walk(w.rows + page.rows, page.next, page.next.None?)
  }

  lemma NextDesc(msgs: seq<Message>, c: ClassId, size: nat, w: Walk)
    requires IdsUnique(msgs) && size >= 1 && Desc(w.rows) && StandsBelow(msgs, c, w)
    ensures Desc(Next(msgs, c, size, w).rows)
  {
    PageIsTop(msgs, c, w, size);
    var below := Below(msgs, c, Bound(w));
    BelowFacts(msgs, c, Bound(w), Key(0, 0));
    TakeFacts(below, size, Key(0, 0));
    var rows := Take(below, size);
    forall i | 0 <= i < |rows| ensures w.rows != [] ==> Newer(w.rows[|w.rows|-1], rows[i]) {
      BelowFacts(msgs, c, Bound(w), rows[i]);
      assert rows[i] in below;
    }
    DescConcat(w.rows, rows);
  }

  lemma NextPlace(msgs: seq<Message>, c: ClassId, size: nat, w: Walk)
    requires IdsUnique(msgs) && size >= 1 && StandsBelow(msgs, c, w) && !Next(msgs, c, size, w).finished
    ensures Next(msgs, c, size, w).rows != [] && StandsBelow(msgs, c, Next(msgs, c, size, w))
    ensures |Below(msgs, c, Bound(w))| > size
    ensures Next(msgs, c, size, w).rows[|Next(msgs, c, size, w).rows|-1] == Below(msgs, c, Bound(w))[size-1]
  {
    PageIsTop(msgs, c, w, size);
    var below := Below(msgs, c, Bound(w));
    BelowFacts(msgs, c, Bound(w), below[size-1]);
    assert below[size-1] in below;
    var i :| 0 <= i < |msgs| && msgs[i].key == below[size-1] && Listed(msgs[i], c, Bound(w));
    assert (w.rows + Take(below, size))[|w.rows| + size - 1] == below[size-1];
  }

  /** A matching row not yet returned is returned by the next page or lies below its new cursor. */
  lemma NextCovers(msgs: seq<Message>, c: ClassId, size: nat, w: Walk, k: Key)
    requires IdsUnique(msgs) && size >= 1 && StandsBelow(msgs, c, w) && InMatching(msgs, c, Bound(w), k)
    ensures var next := Next(msgs, c, size, w);
      k in next.rows || (!next.finished && next.rows != [] && Newer(next.rows[|next.rows|-1], k))
  {
    PageIsTop(msgs, c, w, size);
    BelowFacts(msgs, c, Bound(w), k);
    TakeFacts(Below(msgs, c, Bound(w)), size, k);
    if !Next(msgs, c, size, w).finished { NextPlace(msgs, c, size, w); }
  }

  lemma DescConcat(a: seq<Key>, b: seq<Key>)
    requires Desc(a) && Desc(b) && (a != [] ==> forall i :: 0 <= i < |b| ==> Newer(a[|a|-1], b[i]))
    ensures Desc(a + b)
  {
    forall i, j | 0 <= i < |a| && 0 <= j < |b| ensures Newer(a[i], b[j]) {
      if i < |a|-1 { assert Newer(a[i], a[|a|-1]); }
    }
  }

  ghost predicate Standing(msgs: seq<Message>, c: ClassId, w: Walk) {
    Desc(w.rows) && (w.finished || StandsBelow(msgs, c, w))
  }

  lemma NextStands(msgs: seq<Message>, c: ClassId, size: nat, w: Walk)
    requires IdsUnique(msgs) && size >= 1 && !w.finished && Standing(msgs, c, w)
    ensures Standing(msgs, c, Next(msgs, c, size, w))
  {
    NextDesc(msgs, c, size, w);
    if !Next(msgs, c, size, w).finished { NextPlace(msgs, c, size, w); }
  }

  /** The collected rows are descending, and an unfinished walk stands at a row of the class. */
  lemma {:induction false} WalkStands(history: seq<seq<Message>>, c: ClassId, size: nat, pages: nat)
    requires size >= 1 && pages < |history| && History(history)
    ensures Standing(history[pages], c, WalkPages(history, c, size, pages))
  {
    if pages == 0 {
    } else {
      var before, msgs := WalkPages(history, c, size, pages-1), history[pages-1];
      WalkStands(history, c, size, pages-1);
      assert Evolves(history[pages-1], history[pages-1+1]);
      if !before.finished {
        NextStands(msgs, c, size, before);
        var w := Next(msgs, c, size, before);
        if !w.finished { EvolvesKeepsPlace(msgs, history[pages], c, w); }
      }
    }
  }

  lemma WalkDesc(history: seq<seq<Message>>, c: ClassId, size: nat)
    requires size >= 1 && History(history)
    ensures Desc(WalkPages(history, c, size, |history|).rows)
  {
    if history != [] {
      var last := |history|-1;
      WalkStands(history, c, size, last);
      var before := WalkPages(history, c, size, last);
      if !before.finished { NextStands(history[last], c, size, before); }
    }
  }

  ghost predicate Accounted(w: Walk, k: Key) {
    k in w.rows || (!w.finished && (w.rows == [] || Newer(w.rows[|w.rows|-1], k)))
  }

  lemma {:induction false} WalkAccounts(history: seq<seq<Message>>, c: ClassId, size: nat, pages: nat, m: nat)
    requires size >= 1 && pages <= |history| && History(history) && LiveThroughout(history, c, m)
    ensures Accounted(WalkPages(history, c, size, pages), history[0][m].key)
  {
    if pages == 0 {
    } else {
      WalkAccounts(history, c, size, pages-1, m);
      var w, k, msgs := WalkPages(history, c, size, pages-1), history[0][m].key, history[pages-1];
      if !w.finished && k !in w.rows {
        WalkStands(history, c, size, pages-1);
        assert msgs[m].key == k && Listed(msgs[m], c, Bound(w));
        NextCovers(msgs, c, size, w, k);
      }
    }
  }

  function CountOf(s: seq<Key>, k: Key): nat {
    if s == [] then 0 else CountOf(s[..|s|-1], k) + (if s[|s|-1] == k then 1 else 0)
  }

  lemma {:induction false} DescCountsOnce(s: seq<Key>, k: Key)
    requires Desc(s)
    ensures CountOf(s, k) == if k in s then 1 else 0
  {
    if s == [] {
    } else {
      DescCountsOnce(s[..|s|-1], k);
      LastOrBefore(s, k);
      if k in s[..|s|-1] {
        var i :| 0 <= i < |s|-1 && s[..|s|-1][i] == k;
        assert Newer(s[i], s[|s|-1]);
      }
    }
  }

  /** However many messages are posted or retracted between the pages, the cursor's own included,
      no walk returns a message twice. */
  lemma WalkReturnsNothingTwice(history: seq<seq<Message>>, c: ClassId, size: nat, k: Key)
    requires size >= 1 && History(history)
    ensures CountOf(WalkPages(history, c, size, |history|).rows, k) <= 1
  {
    WalkDesc(history, c, size);
    DescCountsOnce(WalkPages(history, c, size, |history|).rows, k);
  }

  /** And a finished walk has returned every message that was there at the start and stayed live
      exactly once. */
  lemma WalkReturnsLiveMessagesOnce(history: seq<seq<Message>>, c: ClassId, size: nat, m: nat)
    requires size >= 1 && History(history) && LiveThroughout(history, c, m)
    requires WalkPages(history, c, size, |history|).finished
    ensures CountOf(WalkPages(history, c, size, |history|).rows, history[0][m].key) == 1
  {
    WalkAccounts(history, c, size, |history|, m);
    WalkDesc(history, c, size);
    DescCountsOnce(WalkPages(history, c, size, |history|).rows, history[0][m].key);
  }

  // ----- walks end --------------------------------------------------------

  ghost predicate KeyOf(msgs: seq<Message>, k: Key) { exists i :: 0 <= i < |msgs| && msgs[i].key == k }

  function Keys(msgs: seq<Message>): set<Key> { set m | m in msgs :: m.key }

  lemma {:induction false} KeysAtMost(msgs: seq<Message>)
    ensures |Keys(msgs)| <= |msgs|
  {
    if msgs == [] {
    } else {
      var before, last := msgs[..|msgs|-1], msgs[|msgs|-1];
      KeysAtMost(before);
      assert msgs == before + [last];
      assert Keys(msgs) == Keys(before) + {last.key};
    }
  }

  lemma {:induction false} DescFits(rows: seq<Key>, keys: set<Key>)
    requires Desc(rows) && forall k :: k in rows ==> k in keys
    ensures |rows| <= |keys|
  {
    if rows == [] {
    } else {
      var before, last := rows[..|rows|-1], rows[|rows|-1];
      forall k | k in before ensures k in keys - {last} {
        var i :| 0 <= i < |before| && before[i] == k;
        assert Newer(rows[i], last) && rows[i] in rows;
      }
      DescFits(before, keys - {last});
      assert last in rows;
    }
  }

  ghost predicate RowsKnown(msgs: seq<Message>, w: Walk) { forall k :: k in w.rows ==> KeyOf(msgs, k) }

  lemma NextKnown(msgs: seq<Message>, c: ClassId, size: nat, w: Walk)
    requires IdsUnique(msgs) && size >= 1 && StandsBelow(msgs, c, w) && RowsKnown(msgs, w)
    ensures RowsKnown(msgs, Next(msgs, c, size, w))
    ensures !Next(msgs, c, size, w).finished ==> |Next(msgs, c, size, w).rows| == |w.rows| + size
  {
    PageIsTop(msgs, c, w, size);
    var below := Below(msgs, c, Bound(w));
    var rows := Take(below, size);
    forall k | k in w.rows + rows ensures KeyOf(msgs, k) {
      if k in rows {
        BelowFacts(msgs, c, Bound(w), k);
        TakeFacts(below, size, k);
      }
    }
  }

  lemma KnownEvolves(a: seq<Message>, b: seq<Message>, w: Walk)
    requires Evolves(a, b) && RowsKnown(a, w)
    ensures RowsKnown(b, w)
  {
    forall k | k in w.rows ensures KeyOf(b, k) {
      var i :| 0 <= i < |a| && a[i].key == k;
      assert Later(a[i], b[i]);
    }
  }

  /** Every page but the last is full. */
  ghost predicate FullSoFar(msgs: seq<Message>, w: Walk, rows: nat) {
    RowsKnown(msgs, w) && (!w.finished ==> |w.rows| == rows)
  }

  lemma NextFills(before: seq<Message>, msgs: seq<Message>, c: ClassId, size: nat, w: Walk, filled: nat)
    requires Evolves(before, msgs) && FullSoFar(before, w, filled) && !w.finished
    requires IdsUnique(msgs) && size >= 1 && StandsBelow(msgs, c, w)
    ensures FullSoFar(msgs, Next(msgs, c, size, w), filled + size)
  {
    KnownEvolves(before, msgs, w);
    NextKnown(msgs, c, size, w);
  }

  lemma OneMore(pages: nat, size: nat)
    requires pages >= 1
    ensures (pages - 1) * size + size == pages * size
  {
  }

  lemma {:induction false} WalkFills(history: seq<seq<Message>>, c: ClassId, size: nat, pages: nat)
    requires size >= 1 && 1 <= pages <= |history| && History(history)
    ensures FullSoFar(history[pages-1], WalkPages(history, c, size, pages), pages * size)
  {
    var before, msgs := WalkPages(history, c, size, pages-1), history[pages-1];
    WalkStands(history, c, size, pages-1);
    OneMore(pages, size);
    if pages == 1 {
      NextFills(msgs, msgs, c, size, before, 0);
    } else {
      WalkFills(history, c, size, pages-1);
      assert Evolves(history[pages-2], history[pages-2+1]);
      if before.finished {
        KnownEvolves(history[pages-2], msgs, before);
      } else {
        NextFills(history[pages-2], msgs, c, size, before, (pages-1) * size);
      }
    }
  }

  lemma KnownRowsFit(msgs: seq<Message>, w: Walk)
    requires RowsKnown(msgs, w) && Desc(w.rows)
    ensures |w.rows| <= |msgs|
  {
    forall k | k in w.rows ensures k in Keys(msgs) {
      assert KeyOf(msgs, k);
      var i :| 0 <= i < |msgs| && msgs[i].key == k;
      assert msgs[i] in msgs;
    }
    DescFits(w.rows, Keys(msgs));
    KeysAtMost(msgs);
  }

  /** A walk ends: once its pages could hold more rows than there are messages it is finished. */
  lemma WalkEnds(history: seq<seq<Message>>, c: ClassId, size: nat)
    requires size >= 1 && History(history) && history != []
    requires |history| * size > |history[|history|-1]|
    ensures WalkPages(history, c, size, |history|).finished
  {
    WalkFills(history, c, size, |history|);
    WalkDesc(history, c, size);
    KnownRowsFit(history[|history|-1], WalkPages(history, c, size, |history|));
  }

  /** Messages posted during the walk are newer than those it started from. */
  ghost predicate PostsAreNewer(history: seq<seq<Message>>) {
    history != [] && forall i :: 0 <= i < |history| ==> NewerPosts(history[0], history[i])
  }

  ghost predicate NewerPosts(start: seq<Message>, msgs: seq<Message>) {
    forall x, y :: 0 <= y < |start| <= x < |msgs| ==> Newer(msgs[x].key, start[y].key)
  }

  lemma {:induction false} EvolvesFromStart(history: seq<seq<Message>>, i: nat)
    requires History(history) && i < |history|
    ensures Evolves(history[0], history[i])
  {
    if i == 0 {
    } else {
      EvolvesFromStart(history, i-1);
      assert Evolves(history[i-1], history[i-1+1]);
      forall x | 0 <= x < |history[0]| ensures Later(history[0][x], history[i][x]) {
        assert Later(history[0][x], history[i-1][x]) && Later(history[i-1][x], history[i][x]);
      }
    }
  }

  lemma PostNotOlder(start: seq<Message>, msgs: seq<Message>, x: nat, y: nat)
    requires NewerPosts(start, msgs) && y < |start| <= x < |msgs|
    ensures !Newer(start[y].key, msgs[x].key)
  {
    assert Newer(msgs[x].key, start[y].key);
  }

  lemma OldBelowOld(start: seq<Message>, msgs: seq<Message>, c: ClassId, bound: Key, k: Key)
    requires Evolves(start, msgs) && NewerPosts(start, msgs) && KeyOf(start, bound) &&
      InMatching(msgs, c, Some(bound), k)
    ensures KeyOf(start, k)
  {
    var y :| 0 <= y < |start| && start[y].key == bound;
    var x :| 0 <= x < |msgs| && msgs[x].key == k && Listed(msgs[x], c, Some(bound));
    if x < |start| {
      assert Later(start[x], msgs[x]);
    } else {
      PostNotOlder(start, msgs, x, y);
    }
  }

  lemma NextOld(start: seq<Message>, msgs: seq<Message>, c: ClassId, size: nat, w: Walk)
    requires Evolves(start, msgs) && NewerPosts(start, msgs) && RowsKnown(start, w) && w.rows != []
    requires IdsUnique(msgs) && size >= 1 && StandsBelow(msgs, c, w)
    ensures RowsKnown(start, Next(msgs, c, size, w))
  {
    PageIsTop(msgs, c, w, size);
    var bound := w.rows[|w.rows|-1];
    assert bound in w.rows;
    var below := Below(msgs, c, Some(bound));
    forall k | k in w.rows + Take(below, size) ensures KeyOf(start, k) {
      if k in Take(below, size) {
        BelowFacts(msgs, c, Some(bound), k);
        TakeFacts(below, size, k);
        OldBelowOld(start, msgs, c, bound, k);
      }
    }
  }

  lemma {:induction false} WalkStaysOld(history: seq<seq<Message>>, c: ClassId, size: nat, pages: nat)
    requires size >= 1 && 1 <= pages <= |history| && History(history) && PostsAreNewer(history)
    ensures RowsKnown(history[0], WalkPages(history, c, size, pages))
  {
    var before := WalkPages(history, c, size, pages-1);
    WalkStands(history, c, size, pages-1);
    if pages == 1 {
      NextKnown(history[0], c, size, before);
    } else {
      WalkStaysOld(history, c, size, pages-1);
      WalkFills(history, c, size, pages-1);
      EvolvesFromStart(history, pages-1);
      if !before.finished {
        assert |before.rows| == (pages-1) * size;
        NextOld(history[0], history[pages-1], c, size, before);
      }
    }
  }

  /** While posts are newer than what the walk started from, it ends after as many pages as those
      messages fill, however fast messages are posted. */
  lemma WalkOutrunsPosts(history: seq<seq<Message>>, c: ClassId, size: nat)
    requires size >= 1 && History(history) && PostsAreNewer(history)
    requires |history| * size > |history[0]|
    ensures WalkPages(history, c, size, |history|).finished
  {
    WalkFills(history, c, size, |history|);
    WalkStaysOld(history, c, size, |history|);
    WalkDesc(history, c, size);
    KnownRowsFit(history[0], WalkPages(history, c, size, |history|));
  }

  lemma {:induction false} CursorKeyForeign(msgs: seq<Message>, c: ClassId, id: nat)
    requires forall i :: 0 <= i < |msgs| && msgs[i].key.id == id ==> msgs[i].classId != c
    ensures CursorKey(msgs, c, id) == None
  {
    if msgs == [] {
    } else {
      CursorKeyForeign(msgs[..|msgs|-1], c, id);
    }
  }

  /** A cursor that is no message of the class yields an empty last page. */
  lemma ForeignCursorMatchesNothing(msgs: seq<Message>, c: ClassId, id: nat, size: nat)
    requires size >= 1 && forall i :: 0 <= i < |msgs| && msgs[i].key.id == id ==> msgs[i].classId != c
    ensures PageOf(msgs, c, Some(id), size) == Page([], None)
  {
    CursorKeyForeign(msgs, c, id);
  }
}
