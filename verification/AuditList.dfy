/** The audit trail query: two visibility legs, each limited on its own, against the plain
    filter-sort-limit it must equal. A page is the list of row keys, newest first. */
module AuditList {
  import opened Options
  import opened Ids
  import opened Keyset
  import opened LikePattern

  type CenterId = nat
  type UserId = nat

  const ZERO_TIME: int := 0

  datatype Log = Log(key: Key, center: Option<CenterId>, actor: Option<UserId>, action: string, entityType: string,
    entityId: string)

  datatype Member = Member(teacher: UserId, center: CenterId, joinedAt: int, leftAt: Option<int>)

  /** An empty text, a missing actor and a zero time mean "no such filter". */
  datatype Spec = Spec(
    center: CenterId, actor: Option<UserId>, actionPrefix: string, entityType: string, entityId: string,
    since: int, upTo: int, cursor: Key, limit: nat)

  // ----- the conditions the query text is built from ----------------------

  datatype Cond =
    | ActorIs(actor: UserId) | ActionLike(pattern: string) | EntityTypeIs(text: string) | EntityIdIs(text: string)
    | NotBefore(at: int) | NotAfter(at: int) | OlderThan(key: Key)

  predicate Holds(c: Cond, x: Log) {
    match c
    case ActorIs(u) => x.actor == Some(u)
    case ActionLike(p) => Like(p, x.action)
    case EntityTypeIs(t) => x.entityType == t
    case EntityIdIs(t) => x.entityId == t
    case NotBefore(t) => x.key.at >= t
    case NotAfter(t) => x.key.at <= t
    case OlderThan(k) => Newer(k, x.key)
  }

  predicate AllHold(cs: seq<Cond>, x: Log) { forall i :: 0 <= i < |cs| ==> Holds(cs[i], x) }

  /** What the caller asked for, the cursor included. */
  predicate Wanted(spec: Spec, x: Log) {
    && (spec.actor.Some? ==> x.actor == spec.actor)
    && spec.actionPrefix <= x.action
    && (spec.entityType != "" ==> x.entityType == spec.entityType)
    && (spec.entityId != "" ==> x.entityId == spec.entityId)
    && (spec.since != ZERO_TIME ==> x.key.at >= spec.since)
    && (spec.upTo != ZERO_TIME ==> x.key.at <= spec.upTo)
    && (spec.cursor.at != ZERO_TIME ==> Newer(spec.cursor, x.key))
  }

  function When(wanted: bool, c: Cond): seq<Cond> { if wanted then [c] else [] }

  /** One condition per filter that was supplied. */
  function Conditions(spec: Spec): seq<Cond> {
    When(spec.actor.Some?, if spec.actor.Some? then ActorIs(spec.actor.value) else ActorIs(0))
    + When(spec.actionPrefix != "", ActionLike(Prefix(spec.actionPrefix)))
    + When(spec.entityType != "", EntityTypeIs(spec.entityType))
    + When(spec.entityId != "", EntityIdIs(spec.entityId))
    + When(spec.since != ZERO_TIME, NotBefore(spec.since))
    + When(spec.upTo != ZERO_TIME, NotAfter(spec.upTo))
    + When(spec.cursor.at != ZERO_TIME, OlderThan(spec.cursor))
  }

  method ListConditions(spec: Spec) returns (cs: seq<Cond>)
    ensures cs == Conditions(spec)
  {
    cs := [];
    if spec.actor.Some? { cs := cs + [ActorIs(spec.actor.value)]; }
    ghost var c1 := When(spec.actor.Some?, if spec.actor.Some? then ActorIs(spec.actor.value) else ActorIs(0));
    assert cs == c1;
    if spec.actionPrefix != "" {
      var escaped := Replace(spec.actionPrefix);
      cs := cs + [ActionLike(escaped + "%")];
    }
    ghost var c2 := c1 + When(spec.actionPrefix != "", ActionLike(Prefix(spec.actionPrefix)));
    assert cs == c2;
    if spec.entityType != "" { cs := cs + [EntityTypeIs(spec.entityType)]; }
    if spec.entityId != "" { cs := cs + [EntityIdIs(spec.entityId)]; }
    ghost var c4 :=
      c2 + When(spec.entityType != "", EntityTypeIs(spec.entityType))
      + When(spec.entityId != "", EntityIdIs(spec.entityId));
    assert cs == c4;
    if spec.since != ZERO_TIME { cs := cs + [NotBefore(spec.since)]; }
    if spec.upTo != ZERO_TIME { cs := cs + [NotAfter(spec.upTo)]; }
    ghost var c6 :=
      c4 + When(spec.since != ZERO_TIME, NotBefore(spec.since)) + When(spec.upTo != ZERO_TIME, NotAfter(spec.upTo));
    assert cs == c6;
    if spec.cursor.at != ZERO_TIME { cs := cs + [OlderThan(spec.cursor)]; }
  }

  lemma AppendWhen(cs: seq<Cond>, wanted: bool, c: Cond, x: Log)
    ensures AllHold(cs + When(wanted, c), x) <==> AllHold(cs, x) && (wanted ==> Holds(c, x))
  {
    var all := cs + When(wanted, c);
    if AllHold(all, x) {
      forall i | 0 <= i < |cs| ensures Holds(cs[i], x) { assert all[i] == cs[i]; }
      assert wanted ==> all[|cs|] == c;
    }
  }

  /** The built conditions select exactly the rows the caller asked for; in particular the
      escaped LIKE pattern is a literal prefix test. */
  lemma ConditionsMean(spec: Spec, x: Log)
    ensures AllHold(Conditions(spec), x) <==> Wanted(spec, x)
  {
    PrefixMatches(spec.actionPrefix, x.action);
    var c1 := When(spec.actor.Some?, if spec.actor.Some? then ActorIs(spec.actor.value) else ActorIs(0));
    var c2 := c1 + When(spec.actionPrefix != "", ActionLike(Prefix(spec.actionPrefix)));
    var c3 := c2 + When(spec.entityType != "", EntityTypeIs(spec.entityType));
    var c4 := c3 + When(spec.entityId != "", EntityIdIs(spec.entityId));
    var c5 := c4 + When(spec.since != ZERO_TIME, NotBefore(spec.since));
    var c6 := c5 + When(spec.upTo != ZERO_TIME, NotAfter(spec.upTo));
    AppendWhen(c1, spec.actionPrefix != "", ActionLike(Prefix(spec.actionPrefix)), x);
    AppendWhen(c2, spec.entityType != "", EntityTypeIs(spec.entityType), x);
    AppendWhen(c3, spec.entityId != "", EntityIdIs(spec.entityId), x);
    AppendWhen(c4, spec.since != ZERO_TIME, NotBefore(spec.since), x);
    AppendWhen(c5, spec.upTo != ZERO_TIME, NotAfter(spec.upTo), x);
    AppendWhen(c6, spec.cursor.at != ZERO_TIME, OlderThan(spec.cursor), x);
    AppendWhen([], spec.actor.Some?, if spec.actor.Some? then ActorIs(spec.actor.value) else ActorIs(0), x);
    assert [] + c1 == c1;
    assert spec.actionPrefix == "" ==> spec.actionPrefix <= x.action;
  }

  // ----- the query --------------------------------------------------------

  function Select(trail: seq<Log>, p: Log -> bool): seq<Key> {
    if trail == [] then []
    else Select(trail[..|trail|-1], p) + (if p(trail[|trail|-1]) then [trail[|trail|-1].key] else [])
  }

  predicate Stamped(spec: Spec, x: Log) { x.center == Some(spec.center) && AllHold(Conditions(spec), x) }

  /** An auth row of the member, from inside its membership window. */
  predicate During(m: Member, x: Log) {
    && x.actor == Some(m.teacher) && x.center.None?
    && x.key.at >= m.joinedAt && (m.leftAt.None? || x.key.at < m.leftAt.value)
  }

  predicate Through(spec: Spec, m: Member, x: Log) { During(m, x) && AllHold(Conditions(spec), x) }

  function MemberLegs(trail: seq<Log>, ms: seq<Member>, spec: Spec): seq<seq<Key>> {
    if ms == [] then []
    else if ms[0].center == spec.center
      then [Select(trail, x => Through(spec, ms[0], x))] + MemberLegs(trail, ms[1..], spec)
    else MemberLegs(trail, ms[1..], spec)
  }

  function Legs(trail: seq<Log>, ms: seq<Member>, spec: Spec): seq<seq<Key>> {
    [Select(trail, x => Stamped(spec, x))] + MemberLegs(trail, ms, spec)
  }

  /** The query as written: LIMIT inside each leg, UNION ALL, then the outer sort and LIMIT. */
  function Query(trail: seq<Log>, ms: seq<Member>, spec: Spec): seq<Key> {
    Take(Sort(Concat(Limited(Legs(trail, ms, spec), spec.limit))), spec.limit)
  }

  predicate Visible(ms: seq<Member>, center: CenterId, x: Log) {
    x.center == Some(center) || exists j :: 0 <= j < |ms| && ms[j].center == center && During(ms[j], x)
  }

  /** Filter everything, sort, cut. */
  function Naive(trail: seq<Log>, ms: seq<Member>, spec: Spec): seq<Key> {
    Take(Sort(Select(trail, x => Visible(ms, spec.center, x) && Wanted(spec, x))), spec.limit)
  }

  /** Primary key of the trail. */
  ghost predicate IdsUnique(trail: seq<Log>) {
    forall i, j :: 0 <= i < j < |trail| ==> trail[i].key.id != trail[j].key.id
  }

  /** Primary key (center, teacher) of the memberships. */
  ghost predicate MembersUnique(ms: seq<Member>) {
    forall i, j :: 0 <= i < j < |ms| ==> ms[i].center != ms[j].center || ms[i].teacher != ms[j].teacher
  }

  ghost predicate Selected(trail: seq<Log>, p: Log -> bool, k: Key) {
    exists i :: 0 <= i < |trail| && trail[i].key == k && p(trail[i])
  }

  lemma {:induction false} SelectMembers(trail: seq<Log>, p: Log -> bool, k: Key)
    ensures k in Select(trail, p) <==> Selected(trail, p, k)
  {
    if trail == [] {
    } else {
      var before, last := trail[..|trail|-1], trail[|trail|-1];
      SelectMembers(before, p, k);
      if Selected(trail, p, k) {
        var i :| 0 <= i < |trail| && trail[i].key == k && p(trail[i]);
        if i < |before| { assert before[i] == trail[i]; }
      }
      if Selected(before, p, k) {
        var i :| 0 <= i < |before| && before[i].key == k && p(before[i]);
        assert trail[i] == before[i];
      }
    }
  }

  lemma {:induction false} SelectDistinct(trail: seq<Log>, p: Log -> bool)
    requires IdsUnique(trail)
    ensures Distinct(Select(trail, p))
  {
    if trail == [] {
    } else {
      var before, last := trail[..|trail|-1], trail[|trail|-1];
      SelectDistinct(before, p);
      SelectMembers(before, p, last.key);
      DistinctConcat(Select(before, p), if p(last) then [last.key] else []);
    }
  }

  lemma SameRow(trail: seq<Log>, p: Log -> bool, q: Log -> bool, k: Key) returns (x: Log)
    requires IdsUnique(trail) && Selected(trail, p, k) && Selected(trail, q, k)
    ensures x.key == k && p(x) && q(x)
  {
    var i :| 0 <= i < |trail| && trail[i].key == k && p(trail[i]);
    var j :| 0 <= j < |trail| && trail[j].key == k && q(trail[j]);
    x := trail[i];
  }

  /** k is a row some listed member of the center makes visible. */
  ghost predicate SeenBy(trail: seq<Log>, ms: seq<Member>, spec: Spec, j: nat, k: Key) {
    j < |ms| && ms[j].center == spec.center && Selected(trail, x => Through(spec, ms[j], x), k)
  }

  lemma {:induction false} MemberLegsMembers(trail: seq<Log>, ms: seq<Member>, spec: Spec, k: Key)
    ensures k in Concat(MemberLegs(trail, ms, spec)) <==> exists j: nat :: SeenBy(trail, ms, spec, j, k)
  {
    if ms == [] {
    } else {
      var rest := ms[1..];
      MemberLegsMembers(trail, rest, spec, k);
      SelectMembers(trail, x => Through(spec, ms[0], x), k);
      assert ms[0].center == spec.center ==> MemberLegs(trail, ms, spec)[1..] == MemberLegs(trail, rest, spec);
      if exists j: nat :: SeenBy(trail, rest, spec, j, k) {
        var j: nat :| SeenBy(trail, rest, spec, j, k);
        assert SeenBy(trail, ms, spec, j+1, k);
      }
      if exists j: nat :: SeenBy(trail, ms, spec, j, k) {
        var j: nat :| SeenBy(trail, ms, spec, j, k);
        if j > 0 { assert SeenBy(trail, rest, spec, j-1, k); }
      }
      if ms[0].center == spec.center && Selected(trail, x => Through(spec, ms[0], x), k) {
        assert SeenBy(trail, ms, spec, 0, k);
      }
    }
  }

  lemma {:induction false} MemberLegsDistinct(trail: seq<Log>, ms: seq<Member>, spec: Spec)
    requires IdsUnique(trail) && MembersUnique(ms)
    ensures Distinct(Concat(MemberLegs(trail, ms, spec)))
  {
    if ms == [] {
    } else {
      var rest := ms[1..];
      MemberLegsDistinct(trail, rest, spec);
      if ms[0].center == spec.center {
        var leg := Select(trail, x => Through(spec, ms[0], x));
        assert MemberLegs(trail, ms, spec)[1..] == MemberLegs(trail, rest, spec);
        SelectDistinct(trail, x => Through(spec, ms[0], x));
        forall k: Key | k in Concat(MemberLegs(trail, rest, spec)) ensures k !in leg {
          MemberLegsMembers(trail, rest, spec, k);
          var j: nat :| SeenBy(trail, rest, spec, j, k);
          assert rest[j] == ms[j+1];
          SelectMembers(trail, x => Through(spec, ms[0], x), k);
          if k in leg {
            var x := SameRow(trail, x => Through(spec, ms[0], x), x => Through(spec, rest[j], x), k);
          }
        }
        DistinctConcat(leg, Concat(MemberLegs(trail, rest, spec)));
      }
    }
  }

  /** No row reaches the union through two legs. */
  lemma NoRowTwice(trail: seq<Log>, ms: seq<Member>, spec: Spec)
    requires IdsUnique(trail) && MembersUnique(ms)
    ensures Distinct(Concat(Legs(trail, ms, spec)))
  {
    var stamped := Select(trail, x => Stamped(spec, x));
    var legs := Legs(trail, ms, spec);
    assert legs[1..] == MemberLegs(trail, ms, spec);
    SelectDistinct(trail, x => Stamped(spec, x));
    MemberLegsDistinct(trail, ms, spec);
    forall k: Key | k in Concat(MemberLegs(trail, ms, spec)) ensures k !in stamped {
      MemberLegsMembers(trail, ms, spec, k);
      var j: nat :| SeenBy(trail, ms, spec, j, k);
      SelectMembers(trail, x => Stamped(spec, x), k);
      if k in stamped {
        var x := SameRow(trail, x => Stamped(spec, x), x => Through(spec, ms[j], x), k);
      }
    }
    DistinctConcat(stamped, Concat(MemberLegs(trail, ms, spec)));
  }

  lemma LegsCoverVisible(trail: seq<Log>, ms: seq<Member>, spec: Spec, k: Key)
    requires IdsUnique(trail)
    ensures k in Concat(Legs(trail, ms, spec)) <==>
      Selected(trail, x => Visible(ms, spec.center, x) && Wanted(spec, x), k)
  {
    var legs := Legs(trail, ms, spec);
    assert legs[1..] == MemberLegs(trail, ms, spec);
    SelectMembers(trail, x => Stamped(spec, x), k);
    MemberLegsMembers(trail, ms, spec, k);
    forall i | 0 <= i < |trail| ensures AllHold(Conditions(spec), trail[i]) <==> Wanted(spec, trail[i]) {
      ConditionsMean(spec, trail[i]);
    }
    if Selected(trail, x => Stamped(spec, x), k) {
      var i :| 0 <= i < |trail| && trail[i].key == k && Stamped(spec, trail[i]);
    }
    if exists j: nat :: SeenBy(trail, ms, spec, j, k) {
      var j: nat :| SeenBy(trail, ms, spec, j, k);
      var i :| 0 <= i < |trail| && trail[i].key == k && Through(spec, ms[j], trail[i]);
      assert Visible(ms, spec.center, trail[i]);
    }
    if Selected(trail, x => Visible(ms, spec.center, x) && Wanted(spec, x), k) {
      var i :| 0 <= i < |trail| && trail[i].key == k && Visible(ms, spec.center, trail[i]) && Wanted(spec, trail[i]);
      if trail[i].center == Some(spec.center) {
        assert Stamped(spec, trail[i]);
      } else {
        var j :| 0 <= j < |ms| && ms[j].center == spec.center && During(ms[j], trail[i]);
        assert Through(spec, ms[j], trail[i]);
        assert SeenBy(trail, ms, spec, j, k);
      }
    }
  }

  /** For every trail, membership table, filter, cursor and limit the two-leg query returns
      exactly the first rows of the whole visible, filtered trail, newest first. */
  lemma QueryIsNaive(trail: seq<Log>, ms: seq<Member>, spec: Spec)
    requires IdsUnique(trail) && MembersUnique(ms)
    ensures Query(trail, ms, spec) == Naive(trail, ms, spec)
  {
    var p := (x: Log) => Visible(ms, spec.center, x) && Wanted(spec, x);
    var legs := Legs(trail, ms, spec);
    NoRowTwice(trail, ms, spec);
    LimitPushdown(legs, spec.limit);
    SelectDistinct(trail, p);
    SortDesc(Concat(legs));
    forall k: Key | true ensures k in Select(trail, p) <==> k in Sort(Concat(legs)) {
      LegsCoverVisible(trail, ms, spec, k);
      SelectMembers(trail, p, k);
      SortMembers(Concat(legs), k);
    }
    SortUnique(Select(trail, p), Sort(Concat(legs)));
  }
}
