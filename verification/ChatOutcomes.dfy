/** What one page of a class's chat holds, written out on the columns of the messages. */
module ChatOutcomes {
  import opened Options
  import opened Ids
  import opened Keyset
  import opened ClassChat

  predicate OlderKey(k: Key, than: Key) { k.at < than.at || (k.at == than.at && k.id < than.id) }

  /** The message is live, of the class, and older than the cursor message of that class, if a cursor is
      given. The cursor message may have been retracted. */
  ghost predicate Readable(msgs: seq<Message>, c: ClassId, before: Option<nat>, i: nat) {
    && i < |msgs| && msgs[i].classId == c && !msgs[i].deleted
    && (before.Some? ==> exists j :: 0 <= j < |msgs| && msgs[j].classId == c && msgs[j].key.id == before.value
                           && OlderKey(msgs[i].key, msgs[j].key))
  }

  /** The bound the cursor sets, when its message belongs to the class. */
  lemma BoundOf(msgs: seq<Message>, c: ClassId, id: nat)
    requires IdsUnique(msgs)
    ensures match CursorKey(msgs, c, id)
      case Some(k) => exists j :: 0 <= j < |msgs| && msgs[j].classId == c && msgs[j].key == k && k.id == id
      case None => forall j :: 0 <= j < |msgs| && msgs[j].classId == c ==> msgs[j].key.id != id
  {
    if CursorKey(msgs, c, id).Some? { CursorKeyIsThere(msgs, c, id); }
    forall j | 0 <= j < |msgs| && msgs[j].classId == c && msgs[j].key.id == id
      ensures CursorKey(msgs, c, id) == Some(msgs[j].key)
    {
      CursorKeyFound(msgs, c, j);
    }
  }

  lemma {:induction false} CursorKeyIsThere(msgs: seq<Message>, c: ClassId, id: nat)
    requires CursorKey(msgs, c, id).Some?
    ensures exists j :: 0 <= j < |msgs| && msgs[j].classId == c && msgs[j].key == CursorKey(msgs, c, id).value
                          && msgs[j].key.id == id
  {
    var n := |msgs|;
    if msgs[n-1].key.id == id && msgs[n-1].classId == c {
    } else {
      CursorKeyIsThere(msgs[..n-1], c, id);
      var j :| 0 <= j < n-1 && msgs[..n-1][j].classId == c && msgs[..n-1][j].key == CursorKey(msgs, c, id).value
        && msgs[..n-1][j].key.id == id;
      assert msgs[j] == msgs[..n-1][j];
    }
  }

  /** Everything the page is cut from. */
  function Candidates(msgs: seq<Message>, c: ClassId, before: Option<nat>): seq<Key> {
    match before
    case None => Below(msgs, c, None)
    case Some(id) => match CursorKey(msgs, c, id) case None => [] case Some(k) => Below(msgs, c, Some(k))
  }

  lemma CandidatesAreReadable(msgs: seq<Message>, c: ClassId, before: Option<nat>, k: Key)
    requires IdsUnique(msgs)
    ensures Desc(Candidates(msgs, c, before))
    ensures k in Candidates(msgs, c, before) <==> exists i: nat :: Readable(msgs, c, before, i) && msgs[i].key == k
  {
    var bound := match before case None => None case Some(id) => CursorKey(msgs, c, id);
    BelowFacts(msgs, c, bound, k);
    if before.Some? { BoundOf(msgs, c, before.value); }
    if before.None? || bound.Some? {
      forall i: nat | i < |msgs| ensures Listed(msgs[i], c, bound) <==> Readable(msgs, c, before, i) {
        if before.Some? { OneCursor(msgs, c, before.value, i); }
      }
      if InMatching(msgs, c, bound, k) {
        var i: nat :| i < |msgs| && msgs[i].key == k && Listed(msgs[i], c, bound);
        assert Readable(msgs, c, before, i);
      }
    }
  }

  /** The cursor names one message of the class. */
  lemma OneCursor(msgs: seq<Message>, c: ClassId, id: nat, i: nat)
    requires IdsUnique(msgs) && i < |msgs| && CursorKey(msgs, c, id).Some?
    ensures (exists j :: 0 <= j < |msgs| && msgs[j].classId == c && msgs[j].key.id == id
                           && OlderKey(msgs[i].key, msgs[j].key)) <==>
      OlderKey(msgs[i].key, CursorKey(msgs, c, id).value)
  {
    BoundOf(msgs, c, id);
  }

  /** A page holds readable messages, newest first, each once, no more than its size. One is missing only
      when the page is full of newer ones, and exactly then the page names its last message as cursor. */
  lemma PageAnswers(msgs: seq<Message>, c: ClassId, before: Option<nat>, size: nat)
    requires IdsUnique(msgs) && size >= 1
    ensures var page := PageOf(msgs, c, before, size);
      && |page.rows| <= size
      && (forall i, j :: 0 <= i < j < |page.rows| ==> OlderKey(page.rows[j], page.rows[i]))
      && (forall k :: k in page.rows ==> exists i: nat :: Readable(msgs, c, before, i) && msgs[i].key == k)
      && (forall i: nat :: Readable(msgs, c, before, i) && msgs[i].key !in page.rows ==>
            |page.rows| == size && forall k :: k in page.rows ==> OlderKey(msgs[i].key, k))
      && (page.next != None <==> exists i: nat :: Readable(msgs, c, before, i) && msgs[i].key !in page.rows)
      && (page.next != None ==> page.rows != [] && page.next == Some(page.rows[|page.rows|-1].id))
  {
    var all, page := Candidates(msgs, c, before), PageOf(msgs, c, before, size);
    PageIsCut(msgs, c, before, size);
    forall k | k in page.rows ensures exists i: nat :: Readable(msgs, c, before, i) && msgs[i].key == k {
      CandidatesAreReadable(msgs, c, before, k);
    }
    forall i: nat | Readable(msgs, c, before, i) && msgs[i].key !in page.rows
      ensures |page.rows| == size && page.next != None && forall k :: k in page.rows ==> OlderKey(msgs[i].key, k)
    {
      CandidatesAreReadable(msgs, c, before, msgs[i].key);
      var j :| 0 <= j < |all| && all[j] == msgs[i].key;
      assert j >= size;
    }
    if page.next != None { OneIsMissing(msgs, c, before, size); }
  }

  lemma OneIsMissing(msgs: seq<Message>, c: ClassId, before: Option<nat>, size: nat)
    requires IdsUnique(msgs) && size >= 1 && |Candidates(msgs, c, before)| > size
    ensures exists i: nat :: Readable(msgs, c, before, i) && msgs[i].key !in Candidates(msgs, c, before)[..size]
  {
    var all := Candidates(msgs, c, before);
    CandidatesAreReadable(msgs, c, before, all[size]);
  }

  lemma PageIsCut(msgs: seq<Message>, c: ClassId, before: Option<nat>, size: nat)
    requires IdsUnique(msgs) && size >= 1
    ensures var all, page := Candidates(msgs, c, before), PageOf(msgs, c, before, size);
      && Desc(all)
      && page.rows == (if |all| > size then all[..size] else all)
      && page.next == (if |all| > size then Some(all[size-1].id) else None)
  {
    CandidatesAreReadable(msgs, c, before, Key(0, 0));
  }

  /** Twenty messages a page unless asked for between one and fifty. */
  lemma PageSizes(limit: int)
    ensures PageSize(limit) == if limit <= 0 then 20 else if limit > 50 then 50 else limit
  {
  }
}
