/** The authentication service over its token table. A call that nothing interleaves with is
    the uninterrupted drive of one request of the protocol. */
module AuthService {
  import opened Options
  import opened RefreshTokens
  import opened TokenFamilies

  function Rank(pc: Pc): nat {
    match pc
    case Reading => 7
    case CheckingAccount => 6
    case Rotating => 5
    case CheckingFamily => 4
    case CheckingPeerAccount => 3
    case IssuingPeer => 2
    case PurgingFamily => 1
    case Granted(_) => 0
    case Rejected => 0
  }

  /** All remaining steps of one request, with nothing in between. */
  function Drive(s: Store, cfg: Config, r: Request): (Store, Pc)
    decreases Rank(r.pc)
  {
    if Rank(r.pc) == 0 then (s, r.pc)
    else
      var (after, pc) := Advance(s, cfg, r);
      Drive(after, cfg, r.(pc := pc))
  }

  function Repeat(k: nat, n: nat): seq<Act> { if n == 0 then [] else Repeat(k, n-1) + [Proceed(k)] }

  lemma {:induction false} RepeatFront(k: nat, n: nat)
    requires n > 0
    ensures Repeat(k, n) == [Proceed(k)] + Repeat(k, n-1)
  {
    if n > 1 { RepeatFront(k, n-1); }
  }

  lemma DriveUnfolds(s: Store, cfg: Config, r: Request)
    ensures var (after, pc) := Advance(s, cfg, r);
      (r.token < |s.tokens| ==> Drive(s, cfg, r) == Drive(after, cfg, r.(pc := pc))) &&
        (Rank(r.pc) > 0 ==> Rank(pc) < Rank(r.pc))
      && (Rank(r.pc) == 0 ==> Rank(pc) == 0)
  {
  }

  lemma ProceedDrives(s: State, cfg: Config, k: nat)
    requires k < |s.requests| && s.requests[k].token < |s.store.tokens|
    ensures var next := Step(s, cfg, Proceed(k));
      && k < |next.requests| && next.requests[k].token < |next.store.tokens|
      && Drive(s.store, cfg, s.requests[k]) == Drive(next.store, cfg, next.requests[k])
      && (Rank(s.requests[k].pc) > 0 ==> Rank(next.requests[k].pc) < Rank(s.requests[k].pc))
      && (Rank(s.requests[k].pc) == 0 ==> Rank(next.requests[k].pc) == 0)
  {
    DriveUnfolds(s.store, cfg, s.requests[k]);
    StepGrows(s, cfg, Proceed(k));
  }

  lemma RunFront(s: State, cfg: Config, k: nat, n: nat)
    requires n > 0
    ensures Run(s, cfg, Repeat(k, n)) == Run(Step(s, cfg, Proceed(k)), cfg, Repeat(k, n-1))
  {
    RepeatFront(k, n);
    RunConcat(s, cfg, [Proceed(k)], Repeat(k, n-1));
    assert [Proceed(k)][..0] == [];
    assert Run(s, cfg, [Proceed(k)]) == Step(Run(s, cfg, []), cfg, Proceed(k));
  }

  ghost predicate DrivesTo(s: State, cfg: Config, k: nat, after: State) {
    && k < |s.requests| && k < |after.requests|
    && (after.store, after.requests[k].pc) == Drive(s.store, cfg, s.requests[k])
  }

  /** Driving a request is the protocol run that schedules nothing but that request. */
  lemma {:induction false} DriveIsARun(s: State, cfg: Config, k: nat, n: nat)
    requires k < |s.requests| && Rank(s.requests[k].pc) <= n && s.requests[k].token < |s.store.tokens|
    ensures DrivesTo(s, cfg, k, Run(s, cfg, Repeat(k, n)))
    decreases n
  {
    if n == 0 {
      assert Run(s, cfg, Repeat(k, 0)) == s;
    } else {
      RunFront(s, cfg, k, n);
      ProceedDrives(s, cfg, k);
      DriveIsARun(Step(s, cfg, Proceed(k)), cfg, k, n-1);
    }
  }

  /** Refreshing with a live token not past its expiry, of an active account: the token is revoked by
      the rotation, one new live token with a full lifetime joins its family, and nothing else
      changes. */
  lemma RefreshRotates(s: Store, cfg: Config, t: TokenId, now: Time)
    requires t < |s.tokens| && s.tokens[t].revoked == None
    requires now <= s.tokens[t].expiresAt && s.tokens[t].user in s.active
    ensures var (after, pc) := Drive(s, cfg, Request(t, now, Reading));
      var was, next := s.tokens[t], |s.tokens|;
      && pc == Granted(next)
      && after.tokens == s.tokens[t := was.(revoked := Some(Revocation(now, Rotation)))] +
           [Token(was.user, was.family, s.clock + cfg.ttl, RotatedFrom(t), None)]
      && after.families == s.families && after.active == s.active && after.clock == s.clock
  {
    assert Drive(s, cfg, Request(t, now, Rotating)) == (Rotate(s, cfg, t, now), Granted(|s.tokens|));
    assert Drive(s, cfg, Request(t, now, CheckingAccount)) == Drive(s, cfg, Request(t, now, Rotating));
  }

  /** A live token is refused exactly when it is past its expiry or its account is not active, and a
      refusal touches nothing. */
  lemma RefreshOfLiveRefusedIff(s: Store, cfg: Config, t: TokenId, now: Time)
    requires t < |s.tokens| && s.tokens[t].revoked == None
    ensures var (after, pc) := Drive(s, cfg, Request(t, now, Reading));
      && (pc == Rejected <==> now > s.tokens[t].expiresAt || s.tokens[t].user !in s.active)
      && (pc == Rejected ==> after == s)
  {
    if now <= s.tokens[t].expiresAt {
      assert Drive(s, cfg, Request(t, now, Reading)) == Drive(s, cfg, Request(t, now, CheckingAccount));
      if s.tokens[t].user in s.active { RefreshRotates(s, cfg, t, now); }
      else { assert Drive(s, cfg, Request(t, now, CheckingAccount)) == (s, Rejected); }
    }
  }

  /** Some token of the family is not revoked. */
  ghost predicate Alive(tokens: seq<Token>, f: FamilyId) {
    exists i :: 0 <= i < |tokens| && tokens[i].family == f && tokens[i].revoked == None
  }

  /** From before to after exactly the live tokens of the family are revoked, at that time. */
  ghost predicate FamilyRevoked(before: seq<Token>, after: seq<Token>, f: FamilyId, at: Time) {
    && |after| == |before|
    && forall i :: 0 <= i < |before| ==>
         after[i] == if before[i].family == f && before[i].revoked == None
                     then before[i].(revoked := Some(Revocation(at, Purge))) else before[i]
  }

  /** What an already revoked token is answered, once its reuse counts as within the grace or not. */
  ghost predicate ReuseAnswered(s: Store, cfg: Config, t: TokenId, now: Time, within: bool, after: Store, pc: Pc)
    requires t < |s.tokens|
  {
    var was := s.tokens[t];
    && after.families == s.families && after.active == s.active && after.clock == s.clock
    && if within && Alive(s.tokens, was.family) && was.user in s.active then
         && pc == Granted(|s.tokens|)
         && after.tokens == s.tokens + [Token(was.user, was.family, s.clock + cfg.ttl, SiblingOf(t), None)]
       else pc == Rejected && FamilyRevoked(s.tokens, after.tokens, was.family, now)
  }

  lemma ReuseIsAnswered(s: Store, cfg: Config, t: TokenId, now: Time, within: bool)
    requires t < |s.tokens|
    ensures var (after, pc) := Drive(s, cfg, Request(t, now, if within then CheckingFamily else PurgingFamily));
      ReuseAnswered(s, cfg, t, now, within, after, pc)
  {
    var f := s.tokens[t].family;
    assert Drive(s, cfg, Request(t, now, PurgingFamily)) == (s.(tokens := RevokeFamily(s.tokens, f, now)), Rejected);
    assert Drive(s, cfg, Request(t, now, IssuingPeer)) ==
      (Issue(s, cfg, s.tokens[t].user, f, SiblingOf(t)), Granted(|s.tokens|));
    assert Drive(s, cfg, Request(t, now, CheckingPeerAccount)) ==
      Drive(s, cfg, Request(t, now, if s.tokens[t].user in s.active then IssuingPeer else PurgingFamily));
    assert Drive(s, cfg, Request(t, now, CheckingFamily)) ==
      Drive(s, cfg, Request(t, now, if FamilyHasLive(s.tokens, f) then CheckingPeerAccount else PurgingFamily));
    assert FamilyHasLive(s.tokens, f) <==> Alive(s.tokens, f);
  }

  /** Presenting an already revoked token. With a grace and no more than it gone by since the
      revocation, while the family has a token that is not revoked and the account is active, one
      sibling token joins the family; otherwise the call is refused and every live token of the family
      is revoked. Nothing else changes. */
  lemma RefreshOfRevoked(s: Store, cfg: Config, t: TokenId, now: Time)
    requires t < |s.tokens| && s.tokens[t].revoked.Some?
    ensures var (after, pc) := Drive(s, cfg, Request(t, now, Reading));
      var within := cfg.grace > 0 && now - s.tokens[t].revoked.value.at <= cfg.grace;
      ReuseAnswered(s, cfg, t, now, within, after, pc)
  {
    ReuseIsAnswered(s, cfg, t, now, cfg.grace > 0 && now - s.tokens[t].revoked.value.at <= cfg.grace);
  }

  /** The loser of a race for one token, which read it live and finds it revoked when it rotates, is
      within the grace whenever there is one, however long its own steps took. */
  lemma RaceLoserOutcome(s: Store, cfg: Config, t: TokenId, now: Time)
    requires t < |s.tokens| && s.tokens[t].revoked.Some?
    ensures var (after, pc) := Drive(s, cfg, Request(t, now, Rotating));
      ReuseAnswered(s, cfg, t, now, cfg.grace > 0, after, pc)
  {
    ReuseIsAnswered(s, cfg, t, now, cfg.grace > 0);
  }

  /** A token nobody issued is refused without a trace. */
  lemma UnknownTokenIsRefused(s: Store, cfg: Config, t: TokenId, now: Time)
    requires t >= |s.tokens|
    ensures Drive(s, cfg, Request(t, now, Reading)) == (s, Rejected)
  {
  }

  // ----- the other calls --------------------------------------------------

  /** A login opens a family of its own with one live token of full lifetime. */
  lemma LoginOutcome(s: State, cfg: Config, u: UserId)
    ensures var k := Step(s, cfg, OpenSession(u)).store;
      && k.tokens == s.store.tokens + [Token(u, s.store.families, s.store.clock + cfg.ttl, Opened, None)]
      && k.families == s.store.families + 1 && k.active == s.store.active && k.clock == s.store.clock
  {
  }

  /** A logout revokes every live token of the presented token's family and no token of another one;
      with an unknown token it changes nothing. */
  lemma LogoutOutcome(s: State, cfg: Config, t: TokenId)
    ensures var k := Step(s, cfg, Logout(t));
      if t >= |s.store.tokens| then k == s
      else
        && FamilyRevoked(s.store.tokens, k.store.tokens, s.store.tokens[t].family, s.store.clock)
        && !Alive(k.store.tokens, s.store.tokens[t].family)
        && k == s.(store := s.store.(tokens := k.store.tokens))
  {
  }

  /** A request starts by reading, at the time it arrives; time only goes on. */
  lemma ArrivalOutcome(s: State, cfg: Config, t: TokenId, d: nat)
    ensures Step(s, cfg, Arrive(t)) == s.(requests := s.requests + [Request(t, s.store.clock, Reading)])
    ensures Step(s, cfg, Tick(d)) == s.(store := s.store.(clock := s.store.clock + d))
  {
  }

  /** From before to after exactly the account's live tokens are revoked, at that time. */
  ghost predicate AccountRevoked(before: seq<Token>, after: seq<Token>, u: UserId, at: Time) {
    && |after| == |before|
    && forall i :: 0 <= i < |before| ==>
         after[i] == if before[i].user == u && before[i].revoked == None
                     then before[i].(revoked := Some(Revocation(at, Purge))) else before[i]
  }

  /** No token of the account is left unrevoked. */
  ghost predicate LoggedOut(tokens: seq<Token>, u: UserId) {
    forall i :: 0 <= i < |tokens| && tokens[i].user == u ==> tokens[i].revoked.Some?
  }

  /** Disabling an account leaves none of its tokens live and touches no other account's. */
  lemma DisableOutcome(s: State, cfg: Config, u: UserId)
    ensures var k := Step(s, cfg, Disable(u));
      && AccountRevoked(s.store.tokens, k.store.tokens, u, s.store.clock) && LoggedOut(k.store.tokens, u)
      && u !in k.store.active && (forall v :: v != u ==> (v in k.store.active <==> v in s.store.active))
      && k == s.(store := s.store.(tokens := k.store.tokens, active := k.store.active))
    ensures var k := Step(s, cfg, RevokeSessions(u));
      && AccountRevoked(s.store.tokens, k.store.tokens, u, s.store.clock) && LoggedOut(k.store.tokens, u)
      && k == s.(store := s.store.(tokens := k.store.tokens))
  {
  }

  class Service {
    const cfg: Config
    var tokens: seq<Token>
    var families: nat
    var active: set<UserId>
    var clock: Time

    function View(): Store
      reads this
    {
      Store(tokens, families, active, clock)
    }

    constructor (cfg: Config)
      ensures this.cfg == cfg && View() == INITIAL.store
    {
      this.cfg := cfg;
      tokens, families, active, clock := [], 0, {}, 0;
    }

    // ----- the token repository -------------------------------------------

    /** Conditional update: no row when another request revoked the token first. */
    method RevokeOne(id: TokenId, at: Time) returns (won: bool)
      requires id < |tokens|
      modifies this`tokens
      ensures won == old(tokens)[id].Live()
      ensures tokens == old(tokens)[id := RefreshTokens.Revoke(old(tokens)[id], at, Rotation)]
    {
      won := tokens[id].Live();
      if won {
        tokens := tokens[id := tokens[id].(revoked := Some(Revocation(at, Rotation)))];
      }
    }

    method PurgeFamily(f: FamilyId, at: Time)
      modifies this`tokens
      ensures tokens == RevokeFamily(old(tokens), f, at)
    {
      for i := 0 to |tokens|
        invariant |tokens| == |old(tokens)|
        invariant forall k :: 0 <= k < i ==>
          tokens[k] ==
            if old(tokens)[k].family == f then RefreshTokens.Revoke(old(tokens)[k], at, Purge) else old(tokens)[k]
        invariant forall k :: i <= k < |tokens| ==> tokens[k] == old(tokens)[k]
      {
        if tokens[i].family == f && tokens[i].Live() {
          tokens := tokens[i := tokens[i].(revoked := Some(Revocation(at, Purge)))];
        }
      }
    }

    method PurgeUser(u: UserId, at: Time)
      modifies this`tokens
      ensures tokens == RevokeAllForUser(old(tokens), u, at)
    {
      for i := 0 to |tokens|
        invariant |tokens| == |old(tokens)|
        invariant forall k :: 0 <= k < i ==>
          tokens[k] ==
            if old(tokens)[k].user == u then RefreshTokens.Revoke(old(tokens)[k], at, Purge) else old(tokens)[k]
        invariant forall k :: i <= k < |tokens| ==> tokens[k] == old(tokens)[k]
      {
        if tokens[i].user == u && tokens[i].Live() {
          tokens := tokens[i := tokens[i].(revoked := Some(Revocation(at, Purge)))];
        }
      }
    }

    method HasLive(f: FamilyId) returns (alive: bool)
      ensures alive == FamilyHasLive(tokens, f)
    {
      for i := 0 to |tokens|
        invariant forall k :: 0 <= k < i ==> !(tokens[k].family == f && tokens[k].Live())
      {
        if tokens[i].family == f && tokens[i].Live() { return true; }
      }
      return false;
    }

    method IssueSession(user: UserId, family: FamilyId, born: Birth) returns (id: TokenId)
      modifies this`tokens
      ensures View() == Issue(old(View()), cfg, user, family, born) && id == |old(tokens)|
    {
      id := |tokens|;
      tokens := tokens + [Token(user, family, clock + cfg.ttl, born, None)];
    }

    // ----- flows ----------------------------------------------------------

    method OpenSession(user: UserId) returns (id: TokenId)
      modifies this`tokens, this`families
      ensures View() == Step(State(old(View()), []), cfg, Act.OpenSession(user)).store
    {
      id := IssueSession(user, families, Opened);
      families := families + 1;
    }

    method ReuseAfterRotation(id: TokenId, now: Time, within: bool) returns (granted: Option<TokenId>)
      requires id < |tokens|
      modifies this`tokens
      ensures var (after, pc) :=
        Drive(old(View()), cfg, Request(id, now, if within then CheckingFamily else PurgingFamily));
        View() == after && pc == match granted { case Some(t) => Granted(t) case None => Rejected }
    {
      ghost var s := View();
      var t := tokens[id];
      if within {
        var alive := HasLive(t.family);
        if alive {
          assert Drive(s, cfg, Request(id, now, CheckingFamily)) ==
            Drive(s, cfg, Request(id, now, CheckingPeerAccount));
          if t.user in active {
            assert Drive(s, cfg, Request(id, now, CheckingPeerAccount)) == Drive(s, cfg, Request(id, now, IssuingPeer));
            assert Drive(s, cfg, Request(id, now, IssuingPeer)) ==
              (Issue(s, cfg, t.user, t.family, SiblingOf(id)), Granted(|s.tokens|));
            var peer := IssueSession(t.user, t.family, SiblingOf(id));
            return Some(peer);
          }
        }
      }
      assert within ==>
        Drive(s, cfg, Request(id, now, CheckingFamily)) == Drive(s, cfg, Request(id, now, PurgingFamily));
      assert Drive(s, cfg, Request(id, now, PurgingFamily)) ==
        (s.(tokens := RevokeFamily(s.tokens, t.family, now)), Rejected);
      PurgeFamily(t.family, now);
      return None;
    }

    method Refresh(id: TokenId) returns (granted: Option<TokenId>)
      modifies this`tokens
      ensures var (after, pc) := Drive(old(View()), cfg, Request(id, clock, Reading));
        View() == after && pc == match granted { case Some(t) => Granted(t) case None => Rejected }
    {
      ghost var s := View();
      var now := clock;
      if id >= |tokens| { return None; }
      var t := tokens[id];
      if t.revoked.Some? {
        granted := ReuseAfterRotation(id, now, Within(cfg, now, t.revoked.value.at));
        return;
      }
      if t.Expired(now) { return None; }
      assert Drive(s, cfg, Request(id, now, Reading)) == Drive(s, cfg, Request(id, now, CheckingAccount));
      if t.user !in active {
        assert Drive(s, cfg, Request(id, now, CheckingAccount)) == (s, Rejected);
        return None;
      }
      assert Drive(s, cfg, Request(id, now, CheckingAccount)) == Drive(s, cfg, Request(id, now, Rotating));
      var won := RevokeOne(id, now);
      assert won;  // nothing ran since the read; the lost race is a step of RefreshTokens.Advance
      assert Drive(s, cfg, Request(id, now, Rotating)) == (Rotate(s, cfg, id, now), Granted(|s.tokens|));
      var next := IssueSession(t.user, t.family, RotatedFrom(id));
      return Some(next);
    }

    method Logout(id: TokenId)
      modifies this`tokens
      ensures View() == Step(State(old(View()), []), cfg, Act.Logout(id)).store
    {
      if id < |tokens| { PurgeFamily(tokens[id].family, clock); }
    }

    method Disable(user: UserId)
      modifies this`tokens, this`active
      ensures View() == Step(State(old(View()), []), cfg, Act.Disable(user)).store
    {
      active := active - {user};
      PurgeUser(user, clock);
    }
  }
}
