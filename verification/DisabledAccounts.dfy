/** Whether a disabled account stays logged out while other requests are under way. */
module DisabledAccounts {
  import opened Options
  import opened RefreshTokens
  import opened TokenFamilies
  import opened AuthService

  /** The request has passed every check and inserts a sibling token for the account next. */
  predicate AboutToIssue(s: State, u: UserId, k: nat) {
    && k < |s.requests| && s.requests[k].pc == IssuingPeer
    && s.requests[k].token < |s.store.tokens| && s.store.tokens[s.requests[k].token].user == u
  }

  ghost predicate NobodyIssues(s: State, u: UserId) { forall k: nat :: !AboutToIssue(s, u, k) }

  /** Disabled, logged out, and no request is past the account check. */
  ghost predicate LockedOut(s: State, u: UserId) {
    u !in s.store.active && LoggedOut(s.store.tokens, u) && NobodyIssues(s, u)
  }

  /** No login and no reactivation of the account. */
  predicate Uninvited(acts: seq<Act>, u: UserId) {
    forall i :: 0 <= i < |acts| ==> acts[i] != OpenSession(u) && acts[i] != Activate(u)
  }

  lemma ProceedKeepsLoggedOut(s: State, cfg: Config, k: nat, u: UserId)
    requires LockedOut(s, u) && k < |s.requests|
    ensures LoggedOut(Step(s, cfg, Proceed(k)).store.tokens, u)
  {
    var before, after := s.store.tokens, Step(s, cfg, Proceed(k)).store.tokens;
    assert !AboutToIssue(s, u, k);
    forall i | 0 <= i < |after| && after[i].user == u ensures after[i].revoked.Some? {
      if i < |before| { assert before[i].user == u ==> before[i].revoked.Some?; }
    }
  }

  lemma StepKeepsLockedOut(s: State, cfg: Config, a: Act, u: UserId)
    requires RequestsValid(s, cfg) && LockedOut(s, u) && a != OpenSession(u) && a != Activate(u)
    ensures LockedOut(Step(s, cfg, a), u)
  {
    var after := Step(s, cfg, a);
    StepGrows(s, cfg, a);
    if a.Proceed? && a.request < |s.requests| {
      ProceedKeepsLoggedOut(s, cfg, a.request, u);
    } else {
      forall i | 0 <= i < |after.store.tokens| && after.store.tokens[i].user == u
        ensures after.store.tokens[i].revoked.Some?
      {
        if i < |s.store.tokens| { assert s.store.tokens[i].user == u ==> s.store.tokens[i].revoked.Some?; }
      }
    }
    forall k: nat | true ensures !AboutToIssue(after, u, k) {
      assert !AboutToIssue(s, u, k);
    }
  }

  lemma {:induction false} RunKeepsLockedOut(s: State, cfg: Config, acts: seq<Act>, u: UserId)
    requires RequestsValid(s, cfg) && LockedOut(s, u) && Uninvited(acts, u)
    ensures LockedOut(Run(s, cfg, acts), u)
  {
    if acts == [] {
    } else {
      var before := acts[..|acts|-1];
      RunKeepsLockedOut(s, cfg, before, u);
      RunFromKeepsRequests(s, cfg, before);
      StepKeepsLockedOut(Run(s, cfg, before), cfg, acts[|acts|-1], u);
    }
  }

  ghost predicate StaysLoggedOut(s: State, cfg: Config, u: UserId) {
    forall acts: seq<Act> :: Uninvited(acts, u) ==> LoggedOut(Run(s, cfg, acts).store.tokens, u)
  }

  lemma IssuesAnyway(s: State, cfg: Config, u: UserId, k: nat)
    requires AboutToIssue(s, u, k)
    ensures !StaysLoggedOut(s, cfg, u)
  {
    var acts := [Proceed(k)];
    assert acts[..0] == [];
    assert Run(s, cfg, []) == s;
    var after := Run(s, cfg, acts).store.tokens;
    assert after[|s.store.tokens|].user == u && after[|s.store.tokens|].revoked == None;
    assert Uninvited(acts, u) && !LoggedOut(after, u);
  }

  /** A disabled account has no live token in any interleaving without a login or a reactivation
      exactly when no request had seen it active and was about to insert a sibling token. */
  lemma DisabledStaysLoggedOutIff(cfg: Config, history: seq<Act>, u: UserId)
    ensures var s := Step(Run(INITIAL, cfg, history), cfg, Disable(u));
      StaysLoggedOut(s, cfg, u) <==> NobodyIssues(s, u)
  {
    var s := Step(Run(INITIAL, cfg, history), cfg, Disable(u));
    RunKeepsInv(cfg, history);
    StepKeepsRequests(Run(INITIAL, cfg, history), cfg, Disable(u));
    DisableOutcome(Run(INITIAL, cfg, history), cfg, u);
    if NobodyIssues(s, u) {
      forall acts: seq<Act> | Uninvited(acts, u) ensures LoggedOut(Run(s, cfg, acts).store.tokens, u) {
        RunKeepsLockedOut(s, cfg, acts, u);
      }
    } else {
      var k: nat :| AboutToIssue(s, u, k);
      IssuesAnyway(s, cfg, u, k);
    }
  }

  /** Without a grace period a disabled account is out for good. */
  lemma WithoutGraceDisabledIsOut(cfg: Config, history: seq<Act>, u: UserId)
    requires cfg.grace == 0
    ensures StaysLoggedOut(Step(Run(INITIAL, cfg, history), cfg, Disable(u)), cfg, u)
  {
    RunKeepsInv(cfg, history);
    DisabledStaysLoggedOutIff(cfg, history, u);
  }

  /** With one, the account check and the insert are two statements: after them a disabled account
      still gets a live token. */
  lemma DisableCanBeOutrun(cfg: Config)
    requires cfg.grace > 0
    ensures var history := BOTH_ARRIVE + FIRST_ROTATES + SECOND_CHECKS;
      !StaysLoggedOut(Step(Run(INITIAL, cfg, history), cfg, Disable(0)), cfg, 0)
  {
    SecondSeesLife(cfg);
    var s := Run(INITIAL, cfg, BOTH_ARRIVE + FIRST_ROTATES + SECOND_CHECKS);
    DisableOutcome(s, cfg, 0);
    assert AboutToIssue(Step(s, cfg, Disable(0)), 0, 1);
    IssuesAnyway(Step(s, cfg, Disable(0)), cfg, 0, 1);
  }
}
