/** Refresh-token rotation as a protocol: every database statement or transaction is one step,
    and the steps of concurrent requests interleave freely. A token's id is its index. */
module RefreshTokens {
  import opened Options

  type UserId = nat
  type FamilyId = nat
  type TokenId = nat
  type Time = int

  /** How a token came to be, and what revoked it: history only, no step reads it. */
  datatype Birth = Opened | RotatedFrom(parent: TokenId) | SiblingOf(peer: TokenId)
  datatype Revoker = Rotation | Purge
  datatype Revocation = Revocation(at: Time, how: Revoker)

  datatype Token = Token(user: UserId, family: FamilyId, expiresAt: Time, born: Birth, revoked: Option<Revocation>) {
    predicate Live() { revoked.None? }
    predicate Expired(now: Time) { now > expiresAt }
    predicate Rotated() { revoked.Some? && revoked.value.how == Rotation }
    predicate Purged() { revoked.Some? && revoked.value.how == Purge }
  }

  datatype Config = Config(grace: nat, ttl: nat)

  datatype Store = Store(tokens: seq<Token>, families: nat, active: set<UserId>, clock: Time)

  /** What a refresh request does next. */
  datatype Pc =
    | Reading | CheckingAccount | Rotating
    | CheckingFamily | CheckingPeerAccount | IssuingPeer | PurgingFamily
    | Granted(token: TokenId) | Rejected

  datatype Request = Request(token: TokenId, now: Time, pc: Pc)

  datatype State = State(store: Store, requests: seq<Request>)

  // ----- statements on the token table ------------------------------------

  function Revoke(t: Token, at: Time, how: Revoker): Token {
    if t.Live() then t.(revoked := Some(Revocation(at, how))) else t
  }

  predicate FamilyHasLive(tokens: seq<Token>, f: FamilyId) {
    exists i :: 0 <= i < |tokens| && tokens[i].family == f && tokens[i].Live()
  }

  function RevokeFamily(tokens: seq<Token>, f: FamilyId, at: Time): (r: seq<Token>)
    ensures |r| == |tokens|
    ensures forall i :: 0 <= i < |tokens| ==>
      r[i] == if tokens[i].family == f then Revoke(tokens[i], at, Purge) else tokens[i]
  {
    seq(|tokens|, i requires 0 <= i < |tokens| =>
      if tokens[i].family == f then Revoke(tokens[i], at, Purge) else tokens[i])
  }

  function RevokeAllForUser(tokens: seq<Token>, u: UserId, at: Time): (r: seq<Token>)
    ensures |r| == |tokens|
    ensures forall i :: 0 <= i < |tokens| ==>
      r[i] == if tokens[i].user == u then Revoke(tokens[i], at, Purge) else tokens[i]
  {
    seq(|tokens|, i requires 0 <= i < |tokens| =>
      if tokens[i].user == u then Revoke(tokens[i], at, Purge) else tokens[i])
  }

  function Issue(s: Store, cfg: Config, user: UserId, family: FamilyId, born: Birth): Store {
    s.(tokens := s.tokens + [Token(user, family, s.clock + cfg.ttl, born, None)])
  }

  /** One transaction: compare-and-set the old token, then insert its successor. */
  function Rotate(s: Store, cfg: Config, t: TokenId, now: Time): Store
    requires t < |s.tokens|
  {
    Issue(s.(tokens := s.tokens[t := Revoke(s.tokens[t], now, Rotation)]), cfg, s.tokens[t].user, s.tokens[t].family,
      RotatedFrom(t))
  }

  // ----- steps ------------------------------------------------------------

  predicate Within(cfg: Config, now: Time, revokedAt: Time) { cfg.grace > 0 && now - revokedAt <= cfg.grace }

  /** The next step of one request: the new store and where the request stands. */
  function Advance(s: Store, cfg: Config, r: Request): (Store, Pc) {
    if r.token >= |s.tokens| then (s, Rejected)
    else
      var t := s.tokens[r.token];
      match r.pc
      case Reading =>
        if t.revoked.Some? then (s, if Within(cfg, r.now, t.revoked.value.at) then CheckingFamily else PurgingFamily)
        else if t.Expired(r.now) then (s, Rejected)
        else (s, CheckingAccount)
      case CheckingAccount => (s, if t.user in s.active then Rotating else Rejected)
      case Rotating =>
        if t.Live() then (Rotate(s, cfg, r.token, r.now), Granted(|s.tokens|))
        else (s, if cfg.grace > 0 then CheckingFamily else PurgingFamily)
      case CheckingFamily => (s, if FamilyHasLive(s.tokens, t.family) then CheckingPeerAccount else PurgingFamily)
      case CheckingPeerAccount => (s, if t.user in s.active then IssuingPeer else PurgingFamily)
      case IssuingPeer => (Issue(s, cfg, t.user, t.family, SiblingOf(r.token)), Granted(|s.tokens|))
      case PurgingFamily => (s.(tokens := RevokeFamily(s.tokens, t.family, r.now)), Rejected)
      case Granted(_) => (s, r.pc)
      case Rejected => (s, r.pc)
  }

  datatype Act =
    | Tick(d: nat)
    | OpenSession(user: UserId)
    | Arrive(token: TokenId)
    | Proceed(request: nat)
    | Logout(token: TokenId)
    | Disable(user: UserId)
    | RevokeSessions(user: UserId)
    | Activate(user: UserId)

  function Step(s: State, cfg: Config, a: Act): State {
    match a
    case Tick(d) => s.(store := s.store.(clock := s.store.clock + d))
    case OpenSession(u) =>
      s.(store := Issue(s.store, cfg, u, s.store.families, Opened).(families := s.store.families + 1))
    case Arrive(t) => s.(requests := s.requests + [Request(t, s.store.clock, Reading)])
    case Proceed(i) =>
      if i >= |s.requests| then s
      else
        var (store, pc) := Advance(s.store, cfg, s.requests[i]);
        State(store, s.requests[i := s.requests[i].(pc := pc)])
    case Logout(t) =>
      if t >= |s.store.tokens| then s
      else s.(store := s.store.(tokens := RevokeFamily(s.store.tokens, s.store.tokens[t].family, s.store.clock)))
    case Disable(u) =>
      s.(store := s.store.(
        active := s.store.active - {u}, tokens := RevokeAllForUser(s.store.tokens, u, s.store.clock)))
    case RevokeSessions(u) => s.(store := s.store.(tokens := RevokeAllForUser(s.store.tokens, u, s.store.clock)))
    case Activate(u) => s.(store := s.store.(active := s.store.active + {u}))
  }

  const INITIAL := State(Store([], 0, {}, 0), [])

  function Run(s: State, cfg: Config, acts: seq<Act>): State {
    if acts == [] then s else Step(Run(s, cfg, acts[..|acts|-1]), cfg, acts[|acts|-1])
  }

  // ----- invariants of every run ------------------------------------------

  predicate Started(pc: Pc) { pc != Reading && pc != Rejected }

  predicate InGracePath(pc: Pc) { pc == CheckingFamily || pc == CheckingPeerAccount || pc == IssuingPeer }

  ghost predicate RequestsValid(s: State, cfg: Config) {
    forall i :: 0 <= i < |s.requests| ==>
      && (Started(s.requests[i].pc) ==> s.requests[i].token < |s.store.tokens|)
      && (InGracePath(s.requests[i].pc) ==> cfg.grace > 0)
  }

  predicate ParentRotated(tokens: seq<Token>, t: Token) {
    match t.born
    case RotatedFrom(p) => p < |tokens| && tokens[p].Rotated() && tokens[p].family == t.family
    case _ => true
  }

  predicate SameOwner(a: Token, b: Token) { a.family == b.family ==> a.user == b.user }

  ghost predicate Lineage(s: State) {
    && (forall i :: 0 <= i < |s.store.tokens| ==> s.store.tokens[i].family < s.store.families)
    && (forall i :: 0 <= i < |s.store.tokens| ==> ParentRotated(s.store.tokens, s.store.tokens[i]))
    && (forall i, j :: 0 <= i < j < |s.store.tokens| ==> SameOwner(s.store.tokens[i], s.store.tokens[j]))
  }

  /** No token has two successors by rotation. */
  ghost predicate RotatedOnce(tokens: seq<Token>) {
    forall i, j :: 0 <= i < j < |tokens| && tokens[i].born.RotatedFrom? ==> tokens[i].born != tokens[j].born
  }

  ghost predicate Inv(s: State, cfg: Config) {
    RequestsValid(s, cfg) && Lineage(s) && RotatedOnce(s.store.tokens)
  }

  /** Tokens only ever change by being revoked, and keep their identity. */
  predicate Grown(before: Token, after: Token) {
    && after.user == before.user && after.family == before.family
    && after.born == before.born && after.expiresAt == before.expiresAt
    && (before.revoked.Some? ==> after.revoked == before.revoked)
  }

  ghost predicate TableGrows(before: seq<Token>, after: seq<Token>) {
    && |before| <= |after| <= |before| + 1
    && forall i :: 0 <= i < |before| ==> Grown(before[i], after[i])
  }

  lemma StepGrows(s: State, cfg: Config, a: Act)
    ensures TableGrows(s.store.tokens, Step(s, cfg, a).store.tokens)
    ensures Step(s, cfg, a).store.families >= s.store.families
  {
  }

  lemma StepKeepsRequests(s: State, cfg: Config, a: Act)
    requires RequestsValid(s, cfg)
    ensures RequestsValid(Step(s, cfg, a), cfg)
  {
    StepGrows(s, cfg, a);
    var after := Step(s, cfg, a);
    if a.Proceed? && a.request < |s.requests| {
      forall i | 0 <= i < |after.requests| && i != a.request ensures after.requests[i] == s.requests[i] {}
    }
  }

  lemma StepKeepsLineage(s: State, cfg: Config, a: Act)
    requires Lineage(s)
    ensures Lineage(Step(s, cfg, a))
  {
    StepGrows(s, cfg, a);
    var before, after := s.store.tokens, Step(s, cfg, a).store.tokens;
    forall i | 0 <= i < |after| ensures ParentRotated(after, after[i]) {
      if i < |before| { assert ParentRotated(before, before[i]); }
    }
  }

  lemma StepKeepsRotatedOnce(s: State, cfg: Config, a: Act)
    requires Lineage(s) && RotatedOnce(s.store.tokens)
    ensures RotatedOnce(Step(s, cfg, a).store.tokens)
  {
    StepGrows(s, cfg, a);
    var before, after := s.store.tokens, Step(s, cfg, a).store.tokens;
    forall i, j | 0 <= i < j < |after| && after[i].born.RotatedFrom? ensures after[i].born != after[j].born {
      assert ParentRotated(before, before[i]);
      if j < |before| { assert before[i].born != before[j].born; }
    }
  }

  lemma {:induction false} RunKeepsInv(cfg: Config, acts: seq<Act>)
    ensures Inv(Run(INITIAL, cfg, acts), cfg)
  {
    if acts == [] {
    } else {
      RunKeepsInv(cfg, acts[..|acts|-1]);
      var before, a := Run(INITIAL, cfg, acts[..|acts|-1]), acts[|acts|-1];
      StepKeepsRequests(before, cfg, a);
      StepKeepsLineage(before, cfg, a);
      StepKeepsRotatedOnce(before, cfg, a);
    }
  }

  /** Under every interleaving no token is rotated twice: two tokens never name the same parent. */
  lemma NoTokenIsRotatedTwice(cfg: Config, acts: seq<Act>, i: nat, j: nat)
    requires i < j < |Run(INITIAL, cfg, acts).store.tokens|
    requires Run(INITIAL, cfg, acts).store.tokens[i].born.RotatedFrom?
    ensures Run(INITIAL, cfg, acts).store.tokens[i].born != Run(INITIAL, cfg, acts).store.tokens[j].born
  {
    RunKeepsInv(cfg, acts);
  }

  // ----- a dead family ----------------------------------------------------

  /** The family exists and none of its tokens is live. */
  predicate Dead(s: Store, f: FamilyId) {
    f < s.families && forall i :: 0 <= i < |s.tokens| && s.tokens[i].family == f ==> s.tokens[i].revoked.Some?
  }

  predicate PendingPeer(r: Request) { r.pc == CheckingPeerAccount || r.pc == IssuingPeer }

  predicate PeerPendingAt(s: State, f: FamilyId, i: nat) {
    i < |s.requests| && PendingPeer(s.requests[i]) && s.requests[i].token < |s.store.tokens|
    && s.store.tokens[s.requests[i].token].family == f
  }

  /** Some request has seen the family alive and not yet issued its sibling token. */
  ghost predicate PeerPending(s: State, f: FamilyId) { exists i: nat :: PeerPendingAt(s, f, i) }

  lemma ProceedKeepsDead(s: State, cfg: Config, k: nat, f: FamilyId)
    requires k < |s.requests| && Dead(s.store, f) && !PeerPendingAt(s, f, k)
    ensures Dead(Step(s, cfg, Proceed(k)).store, f) && !PeerPendingAt(Step(s, cfg, Proceed(k)), f, k)
  {
    var before, after := s.store.tokens, Step(s, cfg, Proceed(k)).store.tokens;
    forall i | 0 <= i < |after| && after[i].family == f ensures !after[i].Live() {
      if i < |before| { assert before[i].family == f ==> !before[i].Live(); }
    }
  }

  lemma DeadStaysDeadOneStep(s: State, cfg: Config, a: Act, f: FamilyId)
    requires RequestsValid(s, cfg) && Dead(s.store, f) && !PeerPending(s, f)
    ensures Dead(Step(s, cfg, a).store, f) && !PeerPending(Step(s, cfg, a), f)
  {
    var after := Step(s, cfg, a);
    if a.Proceed? && a.request < |s.requests| {
      ProceedKeepsDead(s, cfg, a.request, f);
    } else {
      forall i | 0 <= i < |after.store.tokens| && after.store.tokens[i].family == f
        ensures !after.store.tokens[i].Live()
      {
        if i < |s.store.tokens| { assert s.store.tokens[i].family == f ==> !s.store.tokens[i].Live(); }
      }
    }
    StepGrows(s, cfg, a);
    forall i: nat | i < |after.requests| ensures !PeerPendingAt(after, f, i) {
      if !(a.Proceed? && i == a.request) && i < |s.requests| {
        assert after.requests[i] == s.requests[i];
        assert !PeerPendingAt(s, f, i);
      }
    }
  }
}
