/** What one audit query returns, written out on the columns of the trail and the memberships. */
module AuditOutcomes {
  import opened Options
  import opened Ids
  import opened Keyset
  import opened AuditList
  import opened AuditPages

  /** The row carries the center, or it carries none and its actor was a member of the center then:
      from the moment of joining until, and not at, the moment of leaving. */
  ghost predicate InTrailOf(ms: seq<Member>, center: CenterId, x: Log) {
    || x.center == Some(center)
    || (x.center == None
        && exists j :: 0 <= j < |ms| && ms[j].center == center && x.actor == Some(ms[j].teacher)
             && ms[j].joinedAt <= x.key.at && (ms[j].leftAt == None || x.key.at < ms[j].leftAt.value))
  }

  predicate OlderKey(k: Key, than: Key) { k.at < than.at || (k.at == than.at && k.id < than.id) }

  /** The row passes every filter that was given; a zero time gives none. */
  ghost predicate Passes(spec: Spec, x: Log) {
    && (spec.actor == None || x.actor == spec.actor)
    && |spec.actionPrefix| <= |x.action| && x.action[..|spec.actionPrefix|] == spec.actionPrefix
    && (spec.entityType == "" || x.entityType == spec.entityType)
    && (spec.entityId == "" || x.entityId == spec.entityId)
    && (spec.since == 0 || spec.since <= x.key.at)
    && (spec.upTo == 0 || x.key.at <= spec.upTo)
    && (spec.cursor.at == 0 || OlderKey(x.key, spec.cursor))
  }

  ghost predicate Matching(trail: seq<Log>, ms: seq<Member>, spec: Spec, i: nat) {
    i < |trail| && InTrailOf(ms, spec.center, trail[i]) && Passes(spec, trail[i])
  }

  lemma MatchingIff(trail: seq<Log>, ms: seq<Member>, spec: Spec, i: nat)
    requires i < |trail|
    ensures Matching(trail, ms, spec, i) <==> Visible(ms, spec.center, trail[i]) && Wanted(spec, trail[i])
  {
    var x := trail[i];
    if InTrailOf(ms, spec.center, x) && x.center != Some(spec.center) {
      var j :| 0 <= j < |ms| && ms[j].center == spec.center && x.actor == Some(ms[j].teacher)
             && ms[j].joinedAt <= x.key.at && (ms[j].leftAt == None || x.key.at < ms[j].leftAt.value);
      assert During(ms[j], x);
    }
  }

  /** The rows of an answer are matching rows, newest first, each once, no more than the limit; a matching
      row is missing only when the answer is full of newer ones. */
  lemma QueryAnswers(trail: seq<Log>, ms: seq<Member>, spec: Spec)
    requires IdsUnique(trail) && MembersUnique(ms)
    ensures var rows := AuditList.Query(trail, ms, spec);
      && |rows| <= spec.limit
      && (forall i, j :: 0 <= i < j < |rows| ==> OlderKey(rows[j], rows[i]))
      && (forall k :: k in rows ==> exists i: nat :: Matching(trail, ms, spec, i) && trail[i].key == k)
      && (forall i: nat :: Matching(trail, ms, spec, i) && trail[i].key !in rows ==>
            |rows| == spec.limit && forall k :: k in rows ==> OlderKey(trail[i].key, k))
  {
    var p := (x: Log) => Visible(ms, spec.center, x) && Wanted(spec, x);
    var sorted, rows := Sort(Select(trail, p)), AuditList.Query(trail, ms, spec);
    QueryIsNaive(trail, ms, spec);
    SelectDistinct(trail, p);
    SortDesc(Select(trail, p));
    forall k | k in rows ensures exists i: nat :: Matching(trail, ms, spec, i) && trail[i].key == k {
      SortMembers(Select(trail, p), k);
      SelectMembers(trail, p, k);
      var i: nat :| i < |trail| && trail[i].key == k && p(trail[i]);
      MatchingIff(trail, ms, spec, i);
    }
    forall i: nat | Matching(trail, ms, spec, i) && trail[i].key !in rows
      ensures |rows| == spec.limit && forall k :: k in rows ==> OlderKey(trail[i].key, k)
    {
      MatchingIff(trail, ms, spec, i);
      SelectMembers(trail, p, trail[i].key);
      SortMembers(Select(trail, p), trail[i].key);
      DroppedIsOlder(sorted, spec.limit, trail[i].key);
    }
  }

  lemma DroppedIsOlder(s: seq<Key>, n: nat, dropped: Key)
    requires Desc(s) && dropped in s && dropped !in Take(s, n)
    ensures |Take(s, n)| == n && forall k :: k in Take(s, n) ==> OlderKey(dropped, k)
  {
    var j :| 0 <= j < |s| && s[j] == dropped;
    assert j >= n;
  }

  ghost function MatchingKeys(trail: seq<Log>, ms: seq<Member>, spec: Spec): set<Key> {
    set i: nat | i < |trail| && Matching(trail, ms, spec, i) :: trail[i].key
  }

  lemma {:induction false} DescCount(s: seq<Key>)
    requires forall i, j :: 0 <= i < j < |s| ==> OlderKey(s[j], s[i])
    ensures |set k | k in s| == |s|
  {
    if s == [] {
    } else {
      var before, last := s[..|s|-1], s[|s|-1];
      DescCount(before);
      assert s == before + [last];
      assert (set k | k in s) == (set k | k in before) + {last};
    }
  }

  /** With room for every matching row the answer is exactly the matching rows. */
  lemma RoomyQueryIsComplete(trail: seq<Log>, ms: seq<Member>, spec: Spec, k: Key)
    requires IdsUnique(trail) && MembersUnique(ms) && |MatchingKeys(trail, ms, spec)| <= spec.limit
    ensures k in AuditList.Query(trail, ms, spec) <==> k in MatchingKeys(trail, ms, spec)
  {
    QueryAnswers(trail, ms, spec);
    var rows := AuditList.Query(trail, ms, spec);
    var found := set x | x in rows;
    var all := MatchingKeys(trail, ms, spec);
    assert found <= all;
    DescCount(rows);
    if |rows| == spec.limit { SubsetSizes(found, all); }
  }

  /** A subset as large as the set is the set. */
  lemma SubsetSizes(a: set<Key>, b: set<Key>)
    requires a <= b && |b| <= |a|
    ensures a == b
  {
    assert b == a + (b - a);
    assert |b| == |a| + |b - a|;
  }

  /** The view whose pages List returns: every matching row once, newest first. */
  lemma ViewIsTheTrail(trail: seq<Log>, ms: seq<Member>, center: CenterId, q: AuditPages.Query, k: Key)
    requires IdsUnique(trail)
    ensures var view := View(trail, ms, center, q);
      var all := Spec(center, q.actor, q.action, q.entityType, q.entityId, q.since, q.upTo, Key(0, 0), 0);
      && (k in view <==> k in MatchingKeys(trail, ms, all))
      && forall i, j :: 0 <= i < j < |view| ==> OlderKey(view[j], view[i])
  {
    var all := Spec(center, q.actor, q.action, q.entityType, q.entityId, q.since, q.upTo, Key(0, 0), 0);
    assert SpecFor(center, q, None, 0) == all;
    var p := (x: Log) => Visible(ms, center, x) && Wanted(SpecFor(center, q, None, 0), x);
    SelectMembers(trail, p, k);
    SelectDistinct(trail, p);
    SortDesc(Select(trail, p));
    SortMembers(Select(trail, p), k);
    forall i: nat | i < |trail| ensures Matching(trail, ms, all, i) <==> p(trail[i]) { MatchingIff(trail, ms, all, i); }
    if Selected(trail, p, k) {
      var i: nat :| i < |trail| && trail[i].key == k && p(trail[i]);
      assert Matching(trail, ms, all, i);
    }
  }

  /** Fifty rows a page unless asked for between one and a hundred. */
  lemma PageSizes(limit: int)
    ensures PageSize(limit) == if limit <= 0 then 50 else if limit > 100 then 100 else limit
  {
  }
}
