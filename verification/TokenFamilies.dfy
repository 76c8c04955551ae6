/** What the refresh protocol promises about token families, over every interleaving. */
module TokenFamilies {
  import opened Options
  import opened RefreshTokens

  lemma {:induction false} RunFromKeepsRequests(s: State, cfg: Config, acts: seq<Act>)
    requires RequestsValid(s, cfg)
    ensures RequestsValid(Run(s, cfg, acts), cfg)
  {
    if acts == [] {
    } else {
      RunFromKeepsRequests(s, cfg, acts[..|acts|-1]);
      StepKeepsRequests(Run(s, cfg, acts[..|acts|-1]), cfg, acts[|acts|-1]);
    }
  }

  // ----- dead families ----------------------------------------------------

  lemma {:induction false} DeadStaysDead(s: State, cfg: Config, acts: seq<Act>, f: FamilyId)
    requires RequestsValid(s, cfg) && Dead(s.store, f) && !PeerPending(s, f)
    ensures Dead(Run(s, cfg, acts).store, f) && !PeerPending(Run(s, cfg, acts), f)
  {
    if acts == [] {
    } else {
      DeadStaysDead(s, cfg, acts[..|acts|-1], f);
      RunFromKeepsRequests(s, cfg, acts[..|acts|-1]);
      DeadStaysDeadOneStep(Run(s, cfg, acts[..|acts|-1]), cfg, acts[|acts|-1], f);
    }
  }

  ghost predicate CanRevive(s: State, cfg: Config, f: FamilyId) {
    exists acts: seq<Act> :: FamilyHasLive(Run(s, cfg, acts).store.tokens, f)
  }

  lemma RunTwo(s: State, cfg: Config, a: Act, b: Act)
    ensures Run(s, cfg, [a, b]) == Step(Step(s, cfg, a), cfg, b)
  {
    assert [a, b][..1] == [a] && [a][..0] == [];
    assert Run(s, cfg, [a]) == Step(Run(s, cfg, []), cfg, a);
  }

  lemma RunThree(s: State, cfg: Config, a: Act, b: Act, c: Act)
    ensures Run(s, cfg, [a, b, c]) == Step(Step(Step(s, cfg, a), cfg, b), cfg, c)
  {
    assert [a, b, c][..2] == [a, b];
    RunTwo(s, cfg, a, b);
  }

  lemma PeerRevives(s: State, cfg: Config, f: FamilyId, i: nat)
    requires PeerPendingAt(s, f, i)
    ensures CanRevive(s, cfg, f)
  {
    var t := s.requests[i].token;
    var a := Activate(s.store.tokens[t].user);
    var s1 := Step(s, cfg, a);
    var s2 := Step(s1, cfg, Proceed(i));
    var s3 := Step(s2, cfg, Proceed(i));
    RunThree(s, cfg, a, Proceed(i), Proceed(i));
    var k := |s.store.tokens|;
    assert k < |s3.store.tokens| && s3.store.tokens[k].family == f && s3.store.tokens[k].Live();
    assert FamilyHasLive(Run(s, cfg, [a, Proceed(i), Proceed(i)]).store.tokens, f);
  }

  /** A family without a live token can get one again exactly when some request has already
      seen the family alive and not yet stored its sibling token. */
  lemma DeadFamilyRevivesIff(cfg: Config, history: seq<Act>, f: FamilyId)
    requires Dead(Run(INITIAL, cfg, history).store, f)
    ensures CanRevive(Run(INITIAL, cfg, history), cfg, f) <==> PeerPending(Run(INITIAL, cfg, history), f)
  {
    var s := Run(INITIAL, cfg, history);
    RunKeepsInv(cfg, history);
    if PeerPending(s, f) {
      var i: nat :| PeerPendingAt(s, f, i);
      PeerRevives(s, cfg, f, i);
    } else if CanRevive(s, cfg, f) {
      var acts: seq<Act> :| FamilyHasLive(Run(s, cfg, acts).store.tokens, f);
      DeadStaysDead(s, cfg, acts, f);
    }
  }

  /** Without reuse grace a family with no live token never gets one again. */
  lemma DeadForeverWithoutGrace(cfg: Config, history: seq<Act>, acts: seq<Act>, f: FamilyId)
    requires cfg.grace == 0 && Dead(Run(INITIAL, cfg, history).store, f)
    ensures Dead(Run(Run(INITIAL, cfg, history), cfg, acts).store, f)
  {
    RunKeepsInv(cfg, history);
    assert !PeerPending(Run(INITIAL, cfg, history), f);
    DeadStaysDead(Run(INITIAL, cfg, history), cfg, acts, f);
  }

  // ----- runs whose sibling tokens join a live family ---------------------

  /** A sibling token is stored only while its family is still alive: what issuing it in the
      same transaction as the liveness check would guarantee. */
  predicate Clean(s: State, a: Act) {
    a.Proceed? && a.request < |s.requests| && s.requests[a.request].pc == IssuingPeer
      && s.requests[a.request].token < |s.store.tokens|
    ==> FamilyHasLive(s.store.tokens, s.store.tokens[s.requests[a.request].token].family)
  }

  predicate CleanRun(s: State, cfg: Config, acts: seq<Act>) {
    acts == [] || (CleanRun(s, cfg, acts[..|acts|-1]) && Clean(Run(s, cfg, acts[..|acts|-1]), acts[|acts|-1]))
  }

  /** Without grace no request ever reaches the sibling's insert, from whatever reachable state. */
  lemma {:induction false} WithoutGraceEveryRunIsClean(s: State, cfg: Config, acts: seq<Act>)
    requires cfg.grace == 0 && RequestsValid(s, cfg)
    ensures CleanRun(s, cfg, acts)
  {
    if acts == [] {
    } else {
      WithoutGraceEveryRunIsClean(s, cfg, acts[..|acts|-1]);
      RunFromKeepsRequests(s, cfg, acts[..|acts|-1]);
    }
  }

  /** A purge spares nobody: a purged token has no live relative. */
  ghost predicate PurgeIsTotal(tokens: seq<Token>) {
    forall i, j :: 0 <= i < |tokens| && 0 <= j < |tokens| && tokens[i].family == tokens[j].family && tokens[i].Purged()
      ==> !tokens[j].Live()
  }

  lemma PurgeAllKeeps(before: seq<Token>, f: FamilyId, at: Time)
    requires PurgeIsTotal(before)
    ensures PurgeIsTotal(RevokeFamily(before, f, at))
  {
  }

  lemma PurgeUserKeeps(s: State, u: UserId, at: Time)
    requires PurgeIsTotal(s.store.tokens) && Lineage(s)
    ensures PurgeIsTotal(RevokeAllForUser(s.store.tokens, u, at))
  {
    var before, after := s.store.tokens, RevokeAllForUser(s.store.tokens, u, at);
    forall i, j | 0 <= i < |after| && 0 <= j < |after| && after[i].family == after[j].family && after[i].Purged()
      ensures !after[j].Live()
    {
      if i < j { assert SameOwner(before[i], before[j]); }
      if j < i { assert SameOwner(before[j], before[i]); }
    }
  }

  lemma IssueKeeps(s: Store, cfg: Config, user: UserId, f: FamilyId, born: Birth)
    requires PurgeIsTotal(s.tokens) &&
      (FamilyHasLive(s.tokens, f) || forall i :: 0 <= i < |s.tokens| ==> s.tokens[i].family != f)
    ensures PurgeIsTotal(Issue(s, cfg, user, f, born).tokens)
  {
    var after := Issue(s, cfg, user, f, born).tokens;
    forall i, j | 0 <= i < |after| && 0 <= j < |after| && after[i].family == after[j].family && after[i].Purged()
      ensures !after[j].Live()
    {
    }
  }

  lemma RotateKeeps(s: Store, cfg: Config, t: TokenId, now: Time)
    requires PurgeIsTotal(s.tokens) && t < |s.tokens| && s.tokens[t].Live()
    ensures PurgeIsTotal(Rotate(s, cfg, t, now).tokens)
  {
    var after := Rotate(s, cfg, t, now).tokens;
    forall i, j | 0 <= i < |after| && 0 <= j < |after| && after[i].family == after[j].family && after[i].Purged()
      ensures !after[j].Live()
    {
      assert i < |s.tokens| && s.tokens[i].Purged();
    }
  }

  lemma CleanStepKeepsPurge(s: State, cfg: Config, a: Act)
    requires Lineage(s) && PurgeIsTotal(s.store.tokens) && Clean(s, a)
    ensures PurgeIsTotal(Step(s, cfg, a).store.tokens)
  {
    match a
    case OpenSession(u) => IssueKeeps(s.store, cfg, u, s.store.families, Opened);
    case Logout(t) => if t < |s.store.tokens| {
      PurgeAllKeeps(s.store.tokens, s.store.tokens[t].family, s.store.clock);
    }
    case Disable(u) => PurgeUserKeeps(s, u, s.store.clock);
    case RevokeSessions(u) => PurgeUserKeeps(s, u, s.store.clock);
    case Proceed(k) =>
      if k < |s.requests| && s.requests[k].token < |s.store.tokens| {
        var r := s.requests[k];
        var t := s.store.tokens[r.token];
        if r.pc == Rotating && t.Live() { RotateKeeps(s.store, cfg, r.token, r.now); }
        else if r.pc == IssuingPeer { IssueKeeps(s.store, cfg, t.user, t.family, SiblingOf(r.token)); }
        else if r.pc == PurgingFamily { PurgeAllKeeps(s.store.tokens, t.family, r.now); }
      }
    case _ =>
  }

  lemma {:induction false} CleanRunKeepsPurge(cfg: Config, acts: seq<Act>)
    requires CleanRun(INITIAL, cfg, acts)
    ensures PurgeIsTotal(Run(INITIAL, cfg, acts).store.tokens)
  {
    if acts == [] {
    } else {
      CleanRunKeepsPurge(cfg, acts[..|acts|-1]);
      RunKeepsInv(cfg, acts[..|acts|-1]);
      CleanStepKeepsPurge(Run(INITIAL, cfg, acts[..|acts|-1]), cfg, acts[|acts|-1]);
    }
  }

  /** Every rotated token has a successor in its family. */
  predicate HasSuccessor(tokens: seq<Token>, p: nat) {
    exists c: nat :: p < c < |tokens| && tokens[c].born == RotatedFrom(p)
  }

  ghost predicate RotationsSucceed(tokens: seq<Token>) {
    forall p: nat :: p < |tokens| && tokens[p].Rotated() ==> HasSuccessor(tokens, p)
  }

  lemma StepKeepsSuccessors(s: State, cfg: Config, a: Act)
    requires RotationsSucceed(s.store.tokens)
    ensures RotationsSucceed(Step(s, cfg, a).store.tokens)
  {
    StepGrows(s, cfg, a);
    var before, after := s.store.tokens, Step(s, cfg, a).store.tokens;
    forall p: nat | p < |after| && after[p].Rotated() ensures HasSuccessor(after, p) {
      if p < |before| && before[p].Rotated() {
        var c: nat :| p < c < |before| && before[c].born == RotatedFrom(p);
        assert after[c].born == RotatedFrom(p);
      } else {
        assert a.Proceed? && p == s.requests[a.request].token;
        assert after[|before|].born == RotatedFrom(p);
      }
    }
  }

  lemma {:induction false} RunKeepsSuccessors(cfg: Config, acts: seq<Act>)
    ensures RotationsSucceed(Run(INITIAL, cfg, acts).store.tokens)
  {
    if acts == [] {
    } else {
      RunKeepsSuccessors(cfg, acts[..|acts|-1]);
      StepKeepsSuccessors(Run(INITIAL, cfg, acts[..|acts|-1]), cfg, acts[|acts|-1]);
    }
  }

  /** A family dies by a purge only: following the rotations from any token of a family without a
      live one ends at a purged token. */
  lemma {:induction false} DeadFamilyWasPurged(s: State, t: TokenId) returns (i: TokenId)
    requires Lineage(s) && RotationsSucceed(s.store.tokens)
    requires t < |s.store.tokens| && !FamilyHasLive(s.store.tokens, s.store.tokens[t].family)
    ensures i < |s.store.tokens| && s.store.tokens[i].family == s.store.tokens[t].family && s.store.tokens[i].Purged()
    decreases |s.store.tokens| - t
  {
    var tokens := s.store.tokens;
    assert !tokens[t].Live();
    if tokens[t].Purged() {
      i := t;
    } else {
      assert HasSuccessor(tokens, t);
      var c: nat :| t < c < |tokens| && tokens[c].born == RotatedFrom(t);
      assert ParentRotated(tokens, tokens[c]);
      i := DeadFamilyWasPurged(s, c);
    }
  }

  /** One step keeps purges total exactly when it is clean. */
  lemma StepKeepsPurgeIff(s: State, cfg: Config, a: Act)
    requires Lineage(s) && RotationsSucceed(s.store.tokens) && PurgeIsTotal(s.store.tokens)
    ensures PurgeIsTotal(Step(s, cfg, a).store.tokens) <==> Clean(s, a)
  {
    if Clean(s, a) {
      CleanStepKeepsPurge(s, cfg, a);
    } else {
      var t := s.requests[a.request].token;
      var i := DeadFamilyWasPurged(s, t);
      var after := Step(s, cfg, a).store.tokens;
      assert after[i].Purged() && after[|s.store.tokens|].Live() && after[i].family == after[|s.store.tokens|].family;
    }
  }

  ghost predicate PurgeTotalThroughout(cfg: Config, acts: seq<Act>) {
    && PurgeIsTotal(Run(INITIAL, cfg, acts).store.tokens)
    && (acts == [] || PurgeTotalThroughout(cfg, acts[..|acts|-1]))
  }

  /** Over every interleaving: purges stay total at every moment exactly when no sibling is ever
      stored into a family that died after its liveness check. */
  lemma {:induction false} PurgeTotalIffClean(cfg: Config, acts: seq<Act>)
    ensures PurgeTotalThroughout(cfg, acts) <==> CleanRun(INITIAL, cfg, acts)
  {
    if acts == [] {
    } else {
      var before, a := acts[..|acts|-1], acts[|acts|-1];
      PurgeTotalIffClean(cfg, before);
      if PurgeTotalThroughout(cfg, before) {
        RunKeepsInv(cfg, before);
        RunKeepsSuccessors(cfg, before);
        StepKeepsPurgeIff(Run(INITIAL, cfg, before), cfg, a);
      }
    }
  }

  /** The assumption reuse detection rests on: a revoked token whose family still has a live
      member was revoked by rotation, never by logout, disabling or reuse detection. */
  ghost predicate RevokedMeansRotated(tokens: seq<Token>) {
    forall i: nat :: i < |tokens| && tokens[i].revoked.Some? && FamilyHasLive(tokens, tokens[i].family) ==>
      tokens[i].Rotated()
  }

  lemma RevokedMeansRotatedIff(tokens: seq<Token>)
    ensures RevokedMeansRotated(tokens) <==> PurgeIsTotal(tokens)
  {
    if RevokedMeansRotated(tokens) {
      forall i, j | 0 <= i < |tokens| && 0 <= j < |tokens| && tokens[i].family == tokens[j].family && tokens[i].Purged()
        ensures !tokens[j].Live()
      {
        if tokens[j].Live() { assert FamilyHasLive(tokens, tokens[i].family); }
      }
    }
    if PurgeIsTotal(tokens) {
      forall i: nat | i < |tokens| && tokens[i].revoked.Some? && FamilyHasLive(tokens, tokens[i].family)
        ensures tokens[i].Rotated()
      {
        var j :| 0 <= j < |tokens| && tokens[j].family == tokens[i].family && tokens[j].Live();
      }
    }
  }

  ghost predicate RevokedMeansRotatedThroughout(cfg: Config, acts: seq<Act>) {
    && RevokedMeansRotated(Run(INITIAL, cfg, acts).store.tokens)
    && (acts == [] || RevokedMeansRotatedThroughout(cfg, acts[..|acts|-1]))
  }

  /** It holds at every moment of a run exactly when the run is clean. */
  lemma {:induction false} RevokedInLiveFamilyWasRotated(cfg: Config, acts: seq<Act>)
    ensures RevokedMeansRotatedThroughout(cfg, acts) <==> CleanRun(INITIAL, cfg, acts)
  {
    RevokedMeansRotatedIff(Run(INITIAL, cfg, acts).store.tokens);
    PurgeTotalIffClean(cfg, acts);
    if acts == [] {
    } else {
      RevokedInLiveFamilyWasRotated(cfg, acts[..|acts|-1]);
      PurgeTotalIffClean(cfg, acts[..|acts|-1]);
    }
  }

  // ----- one live token ---------------------------------------------------

  ghost predicate OneLive(tokens: seq<Token>) {
    forall i, j :: 0 <= i < j < |tokens| && tokens[i].family == tokens[j].family ==>
      !(tokens[i].Live() && tokens[j].Live())
  }

  lemma StepKeepsOneLive(s: State, cfg: Config, a: Act)
    requires cfg.grace == 0 && RequestsValid(s, cfg) && Lineage(s) && OneLive(s.store.tokens)
    ensures OneLive(Step(s, cfg, a).store.tokens)
  {
    StepGrows(s, cfg, a);
    var before, after := s.store.tokens, Step(s, cfg, a).store.tokens;
    forall i, j | 0 <= i < j < |after| && after[i].family == after[j].family
      ensures !(after[i].Live() && after[j].Live())
    {
      if j == |before| && a.Proceed? {
        var t := s.requests[a.request].token;
        assert s.requests[a.request].pc == Rotating;
        assert !before[i].Live() || i == t;
      }
    }
  }

  lemma {:induction false} RunKeepsOneLive(cfg: Config, acts: seq<Act>)
    requires cfg.grace == 0
    ensures OneLive(Run(INITIAL, cfg, acts).store.tokens)
  {
    if acts == [] {
    } else {
      RunKeepsOneLive(cfg, acts[..|acts|-1]);
      RunKeepsInv(cfg, acts[..|acts|-1]);
      StepKeepsOneLive(Run(INITIAL, cfg, acts[..|acts|-1]), cfg, acts[|acts|-1]);
    }
  }

  // ----- replay -----------------------------------------------------------

  /** The request presents a token that was revoked too long ago to be a concurrent tab: there is no
      grace, or more of it has gone by since the revocation. */
  predicate Replays(s: State, cfg: Config, k: nat) {
    && k < |s.requests| && s.requests[k].pc == Reading && s.requests[k].token < |s.store.tokens|
    && var t := s.store.tokens[s.requests[k].token];
       t.revoked.Some? && (cfg.grace == 0 || s.requests[k].now - t.revoked.value.at > cfg.grace)
  }

  predicate Doomed(s: State, cfg: Config, k: nat, f: FamilyId) {
    && k < |s.requests| && s.requests[k].token < |s.store.tokens| && s.store.tokens[s.requests[k].token].family == f
    && (Replays(s, cfg, k) || s.requests[k].pc == PurgingFamily || (s.requests[k].pc == Rejected && Dead(s.store, f)))
  }

  lemma CleanStepKeepsDead(s: State, cfg: Config, a: Act, f: FamilyId)
    requires Dead(s.store, f) && Clean(s, a)
    ensures Dead(Step(s, cfg, a).store, f)
  {
    var before, after := s.store.tokens, Step(s, cfg, a).store.tokens;
    forall i | 0 <= i < |after| && after[i].family == f ensures !after[i].Live() {
      if i < |before| { assert before[i].family == f ==> !before[i].Live(); }
    }
  }

  lemma CleanStepKeepsDoom(s: State, cfg: Config, a: Act, k: nat, f: FamilyId)
    requires Lineage(s) && Doomed(s, cfg, k, f) && Clean(s, a)
    ensures Doomed(Step(s, cfg, a), cfg, k, f)
  {
    StepGrows(s, cfg, a);
    var after := Step(s, cfg, a);
    if a == Proceed(k) && s.requests[k].pc == PurgingFamily {
      assert forall i :: 0 <= i < |after.store.tokens| && after.store.tokens[i].family == f ==>
        !after.store.tokens[i].Live();
    } else if a != Proceed(k) {
      assert after.requests[k] == s.requests[k];
      if s.requests[k].pc == Rejected { CleanStepKeepsDead(s, cfg, a, f); }
    } else if s.requests[k].pc == Rejected { CleanStepKeepsDead(s, cfg, a, f); }
  }

  lemma {:induction false} RunKeepsLineage(s: State, cfg: Config, acts: seq<Act>)
    requires Lineage(s)
    ensures Lineage(Run(s, cfg, acts))
  {
    if acts == [] {
    } else {
      RunKeepsLineage(s, cfg, acts[..|acts|-1]);
      StepKeepsLineage(Run(s, cfg, acts[..|acts|-1]), cfg, acts[|acts|-1]);
    }
  }

  lemma {:induction false} CleanRunKeepsDoom(s: State, cfg: Config, acts: seq<Act>, k: nat, f: FamilyId)
    requires Lineage(s) && Doomed(s, cfg, k, f) && CleanRun(s, cfg, acts)
    ensures Doomed(Run(s, cfg, acts), cfg, k, f)
  {
    if acts == [] {
    } else {
      CleanRunKeepsDoom(s, cfg, acts[..|acts|-1], k, f);
      RunKeepsLineage(s, cfg, acts[..|acts|-1]);
      CleanStepKeepsDoom(Run(s, cfg, acts[..|acts|-1]), cfg, acts[|acts|-1], k, f);
    }
  }

  /** The replaying request has not been answered, or was refused. */
  predicate Condemned(s: State, cfg: Config, k: nat, f: FamilyId) {
    && k < |s.requests| && s.requests[k].token < |s.store.tokens| && s.store.tokens[s.requests[k].token].family == f
    && (Replays(s, cfg, k) || s.requests[k].pc == PurgingFamily || s.requests[k].pc == Rejected)
  }

  lemma StepKeepsCondemned(s: State, cfg: Config, a: Act, k: nat, f: FamilyId)
    requires Condemned(s, cfg, k, f)
    ensures Condemned(Step(s, cfg, a), cfg, k, f)
  {
    StepGrows(s, cfg, a);
    if a != Proceed(k) { assert Step(s, cfg, a).requests[k] == s.requests[k]; }
  }

  lemma {:induction false} RunKeepsCondemned(s: State, cfg: Config, acts: seq<Act>, k: nat, f: FamilyId)
    requires Condemned(s, cfg, k, f)
    ensures Condemned(Run(s, cfg, acts), cfg, k, f)
  {
    if acts == [] {
    } else {
      RunKeepsCondemned(s, cfg, acts[..|acts|-1], k, f);
      StepKeepsCondemned(Run(s, cfg, acts[..|acts|-1]), cfg, acts[|acts|-1], k, f);
    }
  }

  lemma AnswerKills(s: State, cfg: Config, a: Act, k: nat, f: FamilyId)
    requires Lineage(s) && Condemned(s, cfg, k, f) && s.requests[k].pc != Rejected
    requires Step(s, cfg, a).requests[k].pc == Rejected
    ensures Dead(Step(s, cfg, a).store, f)
  {
    StepGrows(s, cfg, a);
    var after := Step(s, cfg, a).store.tokens;
    assert forall i :: 0 <= i < |after| && after[i].family == f ==> !after[i].Live();
  }

  /** Replaying a token outside the grace window, in every interleaving: the request is never
      granted, and the step that answers it leaves its whole family dead. */
  lemma ReplayKillsTheFamily(cfg: Config, history: seq<Act>, acts: seq<Act>, a: Act, k: nat)
    requires Replays(Run(INITIAL, cfg, history), cfg, k)
    ensures var s := Run(INITIAL, cfg, history);
      var before, after := Run(s, cfg, acts), Step(Run(s, cfg, acts), cfg, a);
      && k < |before.requests| && k < |after.requests|
      && !before.requests[k].pc.Granted? && !after.requests[k].pc.Granted?
      && (before.requests[k].pc != Rejected && after.requests[k].pc == Rejected ==>
            Dead(after.store, s.store.tokens[s.requests[k].token].family))
  {
    var s := Run(INITIAL, cfg, history);
    var f := s.store.tokens[s.requests[k].token].family;
    RunKeepsInv(cfg, history);
    RunKeepsCondemned(s, cfg, acts, k, f);
    RunKeepsLineage(s, cfg, acts);
    var before := Run(s, cfg, acts);
    StepKeepsCondemned(before, cfg, a, k, f);
    if before.requests[k].pc != Rejected && Step(before, cfg, a).requests[k].pc == Rejected {
      AnswerKills(before, cfg, a, k, f);
    }
  }

  /** Two steps of its own answer the request, so the family does die. */
  lemma ReplayIsAnswered(s: State, cfg: Config, k: nat)
    requires Lineage(s) && Replays(s, cfg, k)
    ensures var after := Run(s, cfg, [Proceed(k), Proceed(k)]);
      k < |after.requests| && after.requests[k].pc == Rejected
      && Dead(after.store, s.store.tokens[s.requests[k].token].family)
  {
    var f := s.store.tokens[s.requests[k].token].family;
    RunTwo(s, cfg, Proceed(k), Proceed(k));
    StepKeepsLineage(s, cfg, Proceed(k));
    StepKeepsCondemned(s, cfg, Proceed(k), k, f);
    AnswerKills(Step(s, cfg, Proceed(k)), cfg, Proceed(k), k, f);
  }

  /** And it stays dead while siblings join live families only. */
  lemma ReplayedFamilyStaysDead(cfg: Config, history: seq<Act>, acts: seq<Act>, k: nat)
    requires Replays(Run(INITIAL, cfg, history), cfg, k)
    requires CleanRun(Run(INITIAL, cfg, history), cfg, acts)
    ensures var s := Run(INITIAL, cfg, history);
      var after := Run(s, cfg, acts);
      k < |after.requests| && !after.requests[k].pc.Granted?
      && (after.requests[k].pc == Rejected ==> Dead(after.store, s.store.tokens[s.requests[k].token].family))
  {
    RunKeepsInv(cfg, history);
    var s := Run(INITIAL, cfg, history);
    CleanRunKeepsDoom(s, cfg, acts, k, s.store.tokens[s.requests[k].token].family);
  }

  /** Without grace every run is clean, so the replayed family is dead for good once the request is
      answered, in every interleaving. */
  lemma ReplayWithoutGraceIsFinal(cfg: Config, history: seq<Act>, acts: seq<Act>, k: nat)
    requires cfg.grace == 0 && Replays(Run(INITIAL, cfg, history), cfg, k)
    ensures var s := Run(INITIAL, cfg, history);
      var after := Run(s, cfg, acts);
      k < |after.requests| && !after.requests[k].pc.Granted?
      && (after.requests[k].pc == Rejected ==> Dead(after.store, s.store.tokens[s.requests[k].token].family))
  {
    RunKeepsInv(cfg, history);
    WithoutGraceEveryRunIsClean(Run(INITIAL, cfg, history), cfg, acts);
    ReplayedFamilyStaysDead(cfg, history, acts, k);
  }

  // ----- with grace the check and the issue are two steps -----------------

  lemma {:induction false} RunConcat(s: State, cfg: Config, xs: seq<Act>, ys: seq<Act>)
    ensures Run(s, cfg, xs + ys) == Run(Run(s, cfg, xs), cfg, ys)
  {
    if ys == [] {
      assert xs + ys == xs;
    } else {
      assert (xs + ys)[..|xs + ys| - 1] == xs + ys[..|ys| - 1];
      RunConcat(s, cfg, xs, ys[..|ys| - 1]);
    }
  }

  const BOTH_ARRIVE: seq<Act> := [Activate(0), OpenSession(0)] + [Arrive(0), Arrive(0)]
  const FIRST_ROTATES: seq<Act> := [Proceed(0), Proceed(0), Proceed(0)]
  const SECOND_CHECKS: seq<Act> := [Proceed(1), Proceed(1), Proceed(1)]
  const LOGOUT_SLIPS_IN: seq<Act> := [Logout(0), Proceed(1)]

  function Rotated(cfg: Config): seq<Token> {
    [Token(0, 0, cfg.ttl, Opened, Some(Revocation(0, Rotation))), Token(0, 0, cfg.ttl, RotatedFrom(0), None)]
  }

  lemma FirstRotates(cfg: Config)
    ensures var s := Run(INITIAL, cfg, BOTH_ARRIVE + FIRST_ROTATES);
      s.store == Store(Rotated(cfg), 1, {0}, 0) && |s.requests| == 2 && s.requests[1] == Request(0, 0, Reading)
  {
    RunTwo(INITIAL, cfg, Activate(0), OpenSession(0));
    var s2 := Run(INITIAL, cfg, [Activate(0), OpenSession(0)]);
    RunConcat(INITIAL, cfg, [Activate(0), OpenSession(0)], [Arrive(0), Arrive(0)]);
    RunTwo(s2, cfg, Arrive(0), Arrive(0));
    var s4 := Run(INITIAL, cfg, BOTH_ARRIVE);
    assert s4.store == Store([Token(0, 0, cfg.ttl, Opened, None)], 1, {0}, 0);
    assert s4.requests == [Request(0, 0, Reading), Request(0, 0, Reading)];
    RunConcat(INITIAL, cfg, BOTH_ARRIVE, FIRST_ROTATES);
    RunThree(s4, cfg, Proceed(0), Proceed(0), Proceed(0));
  }

  lemma SecondSeesLife(cfg: Config)
    requires cfg.grace > 0
    ensures var s := Run(INITIAL, cfg, BOTH_ARRIVE + FIRST_ROTATES + SECOND_CHECKS);
      s.store == Store(Rotated(cfg), 1, {0}, 0) && |s.requests| == 2 && s.requests[1] == Request(0, 0, IssuingPeer)
  {
    FirstRotates(cfg);
    var s7 := Run(INITIAL, cfg, BOTH_ARRIVE + FIRST_ROTATES);
    RunConcat(INITIAL, cfg, BOTH_ARRIVE + FIRST_ROTATES, SECOND_CHECKS);
    RunThree(s7, cfg, Proceed(1), Proceed(1), Proceed(1));
    assert s7.store.tokens[1].Live();
    assert FamilyHasLive(s7.store.tokens, 0);
  }

  /** With any positive grace a logout between a request's liveness check and its issue leaves
      the family alive again, next to a purged token. */
  lemma LogoutCanBeOutrun(cfg: Config)
    requires cfg.grace > 0
    ensures var tokens := Run(INITIAL, cfg, BOTH_ARRIVE + FIRST_ROTATES + SECOND_CHECKS + LOGOUT_SLIPS_IN).store.tokens;
      |tokens| == 3 && tokens[1].family == tokens[2].family && tokens[1].Purged() && tokens[2].Live()
  {
    SecondSeesLife(cfg);
    var acts := BOTH_ARRIVE + FIRST_ROTATES + SECOND_CHECKS;
    RunConcat(INITIAL, cfg, acts, LOGOUT_SLIPS_IN);
    RunTwo(Run(INITIAL, cfg, acts), cfg, Logout(0), Proceed(1));
  }

  lemma PeerDoublesLive(cfg: Config)
    requires cfg.grace > 0
    ensures var tokens := Run(INITIAL, cfg, BOTH_ARRIVE + FIRST_ROTATES + SECOND_CHECKS + [Proceed(1)]).store.tokens;
      |tokens| == 3 && tokens[1].family == tokens[2].family && tokens[1].Live() && tokens[2].Live()
  {
    SecondSeesLife(cfg);
    var acts := BOTH_ARRIVE + FIRST_ROTATES + SECOND_CHECKS;
    assert (acts + [Proceed(1)])[..|acts|] == acts;
  }

  ghost predicate AlwaysPurgeIsTotal(cfg: Config) {
    forall acts: seq<Act> :: PurgeIsTotal(Run(INITIAL, cfg, acts).store.tokens)
  }

  ghost predicate AlwaysOneLive(cfg: Config) {
    forall acts: seq<Act> :: OneLive(Run(INITIAL, cfg, acts).store.tokens)
  }

  /** Logout, disabling and reuse detection are final in every interleaving, and each family has
      at most one live token in every interleaving, exactly when there is no reuse grace. */
  lemma FinalAndSingleIffNoGrace(cfg: Config)
    ensures AlwaysPurgeIsTotal(cfg) <==> cfg.grace == 0
    ensures AlwaysOneLive(cfg) <==> cfg.grace == 0
  {
    if cfg.grace > 0 {
      LogoutCanBeOutrun(cfg);
      PeerDoublesLive(cfg);
      assert !PurgeIsTotal(Run(INITIAL, cfg, BOTH_ARRIVE + FIRST_ROTATES + SECOND_CHECKS +
        LOGOUT_SLIPS_IN).store.tokens);
      assert !OneLive(Run(INITIAL, cfg, BOTH_ARRIVE + FIRST_ROTATES + SECOND_CHECKS + [Proceed(1)]).store.tokens);
    } else {
      forall acts: seq<Act> | true ensures PurgeIsTotal(Run(INITIAL, cfg, acts).store.tokens) {
        WithoutGraceEveryRunIsClean(INITIAL, cfg, acts);
        CleanRunKeepsPurge(cfg, acts);
      }
      forall acts: seq<Act> | true ensures OneLive(Run(INITIAL, cfg, acts).store.tokens) { RunKeepsOneLive(cfg, acts); }
    }
  }
}
