/** The fixed-window limiter with its lazy sweep, and the plain limiter that never evicts. */
module RateLimit {
  import opened Options

  datatype Window = Window(count: int, start: int)

  datatype State = State(windows: map<string, Window>, lastSweep: Option<int>)

  datatype Config = Config(limit: int, period: int)

  datatype Call = Call(key: string, now: int)

  // ----- one call ---------------------------------------------------------

  predicate Expired(w: Window, cfg: Config, now: int) { now - w.start >= cfg.period }

  /** The verdict and the key's new window. */
  function Judge(windows: map<string, Window>, cfg: Config, c: Call): (bool, Window) {
    if c.key !in windows || Expired(windows[c.key], cfg, c.now) then (true, Window(1, c.now))
    else if windows[c.key].count >= cfg.limit then (false, windows[c.key])
    else (true, windows[c.key].(count := windows[c.key].count + 1))
  }

  function Swept(s: State, cfg: Config, now: int): State {
    if s.lastSweep.Some? && now - s.lastSweep.value < cfg.period then s
    else State(map k | k in s.windows && !Expired(s.windows[k], cfg, now) :: s.windows[k], Some(now))
  }

  function Allow(s: State, cfg: Config, c: Call): (bool, State) {
    var swept := Swept(s, cfg, c.now);
    var (ok, w) := Judge(swept.windows, cfg, c);
    (ok, swept.(windows := swept.windows[c.key := w]))
  }

  function PlainAllow(windows: map<string, Window>, cfg: Config, c: Call): (bool, map<string, Window>) {
    var (ok, w) := Judge(windows, cfg, c);
    (ok, windows[c.key := w])
  }

  class Limiter {
    const limit: int
    const period: int
    var windows: map<string, Window>
    var lastSweep: Option<int>

    function View(): State
      reads this
    {
      State(windows, lastSweep)
    }

    constructor (limit: int, period: int)
      ensures View() == State(map[], None) && this.limit == limit && this.period == period
    {
      this.limit, this.period := limit, period;
      windows, lastSweep := map[], None;
    }

    method Sweep(now: int)
      modifies this
      ensures View() == Swept(old(View()), Config(limit, period), now)
    {
      if lastSweep.Some? && now - lastSweep.value < period { return; }
      lastSweep := Some(now);
      var pending := windows.Keys;
      while pending != {}
        invariant pending <= old(windows).Keys
        invariant lastSweep == Some(now)
        invariant forall k :: k in windows <==>
          k in old(windows) && (k in pending || !Expired(old(windows)[k], Config(limit, period), now))
        invariant forall k :: k in windows ==> windows[k] == old(windows)[k]
        decreases |pending|
      {
        var k :| k in pending;
        pending := pending - {k};
        if now - windows[k].start >= period { windows := windows - {k}; }
      }
    }

    method AllowKey(key: string, now: int) returns (ok: bool)
      modifies this
      ensures (ok, View()) == Allow(old(View()), Config(limit, period), Call(key, now))
    {
      Sweep(now);
      if key !in windows || now - windows[key].start >= period {
        windows := windows[key := Window(1, now)];
        return true;
      }
      if windows[key].count >= limit {
        assert windows == windows[key := windows[key]];
        return false;
      }
      windows := windows[key := windows[key].(count := windows[key].count + 1)];
      return true;
    }
  }

  // ----- runs -------------------------------------------------------------

  ghost predicate Monotone(calls: seq<Call>) { forall i, j :: 0 <= i < j < |calls| ==> calls[i].now <= calls[j].now }

  function Run(cfg: Config, calls: seq<Call>): State {
    if calls == [] then State(map[], None) else Allow(Run(cfg, calls[..|calls|-1]), cfg, calls[|calls|-1]).1
  }

  function Verdict(cfg: Config, calls: seq<Call>, i: nat): bool
    requires i < |calls|
  {
    Allow(Run(cfg, calls[..i]), cfg, calls[i]).0
  }

  function PlainRun(cfg: Config, calls: seq<Call>): map<string, Window> {
    if calls == [] then map[] else PlainAllow(PlainRun(cfg, calls[..|calls|-1]), cfg, calls[|calls|-1]).1
  }

  function PlainVerdict(cfg: Config, calls: seq<Call>, i: nat): bool
    requires i < |calls|
  {
    PlainAllow(PlainRun(cfg, calls[..i]), cfg, calls[i]).0
  }

  // ----- eviction is invisible --------------------------------------------

  /** The swept table is the plain one minus windows that have already expired at now. */
  ghost predicate Agrees(s: map<string, Window>, p: map<string, Window>, cfg: Config, now: int) {
    && (forall k :: k in s ==> k in p && s[k] == p[k])
    && (forall k :: k in p && k !in s ==> Expired(p[k], cfg, now))
  }

  lemma AllowAgrees(s: State, p: map<string, Window>, cfg: Config, before: int, c: Call)
    requires Agrees(s.windows, p, cfg, before) && before <= c.now
    ensures Allow(s, cfg, c).0 == PlainAllow(p, cfg, c).0
    ensures Agrees(Allow(s, cfg, c).1.windows, PlainAllow(p, cfg, c).1, cfg, c.now)
  {
  }

  lemma {:induction false} RunsAgree(cfg: Config, calls: seq<Call>, now: int)
    requires Monotone(calls) && (calls != [] ==> calls[|calls|-1].now <= now)
    ensures Agrees(Run(cfg, calls).windows, PlainRun(cfg, calls), cfg, now)
  {
    if calls == [] {
    } else {
      var last := calls[|calls|-1];
      RunsAgree(cfg, calls[..|calls|-1], last.now);
      AllowAgrees(Run(cfg, calls[..|calls|-1]), PlainRun(cfg, calls[..|calls|-1]), cfg, last.now, last);
    }
  }

  /** Under a monotone clock lazy eviction never changes a verdict. */
  lemma SweepIsInvisible(cfg: Config, calls: seq<Call>, i: nat)
    requires Monotone(calls) && i < |calls|
    ensures Verdict(cfg, calls, i) == PlainVerdict(cfg, calls, i)
  {
    RunsAgree(cfg, calls[..i], calls[i].now);
    AllowAgrees(Run(cfg, calls[..i]), PlainRun(cfg, calls[..i]), cfg, calls[i].now, calls[i]);
  }

  // ----- what stays stored ------------------------------------------------

  ghost predicate Recent(s: State, cfg: Config, now: int) {
    && s.lastSweep.Some? && s.lastSweep.value <= now < s.lastSweep.value + cfg.period
    && forall k :: k in s.windows ==> s.lastSweep.value - cfg.period < s.windows[k].start <= now
  }

  lemma {:induction false} RunIsRecent(cfg: Config, calls: seq<Call>)
    requires cfg.period > 0 && Monotone(calls) && calls != []
    ensures Recent(Run(cfg, calls), cfg, calls[|calls|-1].now)
  {
    if |calls| > 1 {
      RunIsRecent(cfg, calls[..|calls|-1]);
      assert calls[|calls|-2].now <= calls[|calls|-1].now;
    }
  }

  /** After every call each stored window started less than two periods ago. */
  lemma StoredWindowsAreYoung(cfg: Config, calls: seq<Call>, k: string)
    requires cfg.period > 0 && Monotone(calls) && calls != [] && k in Run(cfg, calls).windows
    ensures calls[|calls|-1].now - 2 * cfg.period < Run(cfg, calls).windows[k].start <= calls[|calls|-1].now
  {
    RunIsRecent(cfg, calls);
  }

  // ----- how many get through ---------------------------------------------

  function Max1(n: int): nat { if n < 1 then 1 else n }

  /** Calls for the key admitted by the plain limiter within [from, from + period). */
  function PlainAdmitted(cfg: Config, calls: seq<Call>, key: string, from: int): nat {
    if calls == [] then 0
    else
      var before, c := calls[..|calls|-1], calls[|calls|-1];
      PlainAdmitted(cfg, before, key, from)
      + (if c.key == key && from <= c.now < from + cfg.period && PlainAllow(PlainRun(cfg, before), cfg, c).0
         then 1 else 0)
  }

  predicate Tallied(p: map<string, Window>, cfg: Config, key: string, from: int, n: nat) {
    var top := Max1(cfg.limit);
    if key !in p then n == 0
    else
      var w := p[key];
      && 1 <= w.count <= top
      && if w.start < from then n <= w.count - 1
         else if w.start < from + cfg.period then n <= top - 1 + w.count
         else n <= 2 * top - 1
  }

  predicate StartsBy(p: map<string, Window>, key: string, now: int) { key in p ==> p[key].start <= now }

  lemma TallyStep(p: map<string, Window>, cfg: Config, c: Call, key: string, from: int, n: nat)
    requires cfg.period > 0 && Tallied(p, cfg, key, from, n) && StartsBy(p, key, c.now) && (n > 0 ==> from <= c.now)
    ensures var (ok, after) := PlainAllow(p, cfg, c);
      Tallied(after, cfg, key, from, n + if c.key == key && from <= c.now < from + cfg.period && ok then 1 else 0)
      && StartsBy(after, key, c.now)
  {
  }

  lemma {:induction false} RunTallies(cfg: Config, calls: seq<Call>, key: string, from: int)
    requires cfg.period > 0 && Monotone(calls)
    ensures Tallied(PlainRun(cfg, calls), cfg, key, from, PlainAdmitted(cfg, calls, key, from))
    ensures calls != [] ==> StartsBy(PlainRun(cfg, calls), key, calls[|calls|-1].now)
    ensures PlainAdmitted(cfg, calls, key, from) > 0 ==> calls != [] && from <= calls[|calls|-1].now
  {
    if calls == [] {
    } else {
      var before, c := calls[..|calls|-1], calls[|calls|-1];
      RunTallies(cfg, before, key, from);
      if before != [] { assert calls[|calls|-2].now <= c.now; }
      TallyStep(PlainRun(cfg, before), cfg, c, key, from, PlainAdmitted(cfg, before, key, from));
    }
  }

  /** Calls for the key the limiter itself admits within [from, from + period). */
  function Admitted(cfg: Config, calls: seq<Call>, key: string, from: int): nat {
    if calls == [] then 0
    else
      var before, c := calls[..|calls|-1], calls[|calls|-1];
      Admitted(cfg, before, key, from)
      + (if c.key == key && from <= c.now < from + cfg.period && Allow(Run(cfg, before), cfg, c).0 then 1 else 0)
  }

  lemma {:induction false} SweepAdmitsTheSame(cfg: Config, calls: seq<Call>, key: string, from: int)
    requires Monotone(calls)
    ensures Admitted(cfg, calls, key, from) == PlainAdmitted(cfg, calls, key, from)
  {
    if calls == [] {
    } else {
      SweepAdmitsTheSame(cfg, calls[..|calls|-1], key, from);
      SweepIsInvisible(cfg, calls, |calls|-1);
    }
  }

  /** Whatever the traffic, any half-open interval of one period admits at most twice the limit
      minus one requests of a key; a limit below one still counts as one. */
  lemma AtMostTwiceLessOne(cfg: Config, calls: seq<Call>, key: string, from: int)
    requires cfg.period > 0 && Monotone(calls)
    ensures Admitted(cfg, calls, key, from) <= 2 * Max1(cfg.limit) - 1
  {
    RunTallies(cfg, calls, key, from);
    SweepAdmitsTheSame(cfg, calls, key, from);
  }

  lemma JudgeBelowOne(windows: map<string, Window>, cfg: Config, c: Call)
    requires cfg.limit < 1 && forall k :: k in windows ==> windows[k].count == 1
    ensures Judge(windows, cfg, c) == Judge(windows, cfg.(limit := 1), c) && Judge(windows, cfg, c).1.count == 1
  {
  }

  lemma {:induction false} PlainLimitBelowOneActsAsOne(cfg: Config, calls: seq<Call>)
    requires cfg.limit < 1
    ensures PlainRun(cfg, calls) == PlainRun(cfg.(limit := 1), calls)
    ensures forall k :: k in PlainRun(cfg, calls) ==> PlainRun(cfg, calls)[k].count == 1
    ensures calls != [] ==> PlainVerdict(cfg, calls, |calls|-1) == PlainVerdict(cfg.(limit := 1), calls, |calls|-1)
  {
    if calls == [] {
    } else {
      PlainLimitBelowOneActsAsOne(cfg, calls[..|calls|-1]);
    }
  }

  lemma SweptBelowOne(s: State, cfg: Config, now: int)
    ensures Swept(s, cfg, now) == Swept(s, cfg.(limit := 1), now)
  {
    assert Swept(s, cfg, now).windows == Swept(s, cfg.(limit := 1), now).windows;
  }

  lemma AllowBelowOne(s: State, cfg: Config, c: Call)
    requires cfg.limit < 1 && forall k :: k in s.windows ==> s.windows[k].count == 1
    ensures Allow(s, cfg, c) == Allow(s, cfg.(limit := 1), c)
    ensures forall k :: k in Allow(s, cfg, c).1.windows ==> Allow(s, cfg, c).1.windows[k].count == 1
  {
    SweptBelowOne(s, cfg, c.now);
    JudgeBelowOne(Swept(s, cfg, c.now).windows, cfg, c);
  }

  /** A limit of zero or less behaves as a limit of one, whatever the clock does: the tables and the
      verdicts agree, so it still admits one request per window. */
  lemma {:induction false} LimitBelowOneActsAsOne(cfg: Config, calls: seq<Call>)
    requires cfg.limit < 1
    ensures Run(cfg, calls) == Run(cfg.(limit := 1), calls)
    ensures forall k :: k in Run(cfg, calls).windows ==> Run(cfg, calls).windows[k].count == 1
    ensures calls != [] ==> Verdict(cfg, calls, |calls|-1) == Verdict(cfg.(limit := 1), calls, |calls|-1)
  {
    if calls == [] {
    } else {
      LimitBelowOneActsAsOne(cfg, calls[..|calls|-1]);
      AllowBelowOne(Run(cfg, calls[..|calls|-1]), cfg, calls[|calls|-1]);
    }
  }

  lemma {:induction false} AdmitsAsOne(cfg: Config, calls: seq<Call>, key: string, from: int)
    requires cfg.limit < 1
    ensures Admitted(cfg, calls, key, from) == Admitted(cfg.(limit := 1), calls, key, from)
  {
    if calls == [] {
    } else {
      var before := calls[..|calls|-1];
      AdmitsAsOne(cfg, before, key, from);
      LimitBelowOneActsAsOne(cfg, before);
      AllowBelowOne(Run(cfg, before), cfg, calls[|calls|-1]);
    }
  }

  // ----- the bound is reached ---------------------------------------------

  function Burst(key: string, now: int, n: nat): seq<Call> { seq(n, _ => Call(key, now)) }

  lemma CallFits(cfg: Config, before: seq<Call>, c: Call, from: int)
    requires c.key in PlainRun(cfg, before) && !Expired(PlainRun(cfg, before)[c.key], cfg, c.now)
    requires PlainRun(cfg, before)[c.key].count < cfg.limit && from <= c.now < from + cfg.period
    ensures var after, w := before + [c], PlainRun(cfg, before)[c.key];
      && c.key in PlainRun(cfg, after) && PlainRun(cfg, after)[c.key] == w.(count := w.count + 1)
      && PlainAdmitted(cfg, after, c.key, from) == PlainAdmitted(cfg, before, c.key, from) + 1
  {
    assert (before + [c])[..|before|] == before;
  }

  /** A burst that fits into the open window is admitted whole. */
  lemma {:induction false} BurstFits(cfg: Config, before: seq<Call>, key: string, now: int, n: nat, from: int)
    requires key in PlainRun(cfg, before) && !Expired(PlainRun(cfg, before)[key], cfg, now)
    requires PlainRun(cfg, before)[key].count + n <= cfg.limit && from <= now < from + cfg.period
    ensures var after, w := before + Burst(key, now, n), PlainRun(cfg, before)[key];
      && key in PlainRun(cfg, after) && PlainRun(cfg, after)[key] == w.(count := w.count + n)
      && PlainAdmitted(cfg, after, key, from) == PlainAdmitted(cfg, before, key, from) + n
  {
    if n == 0 {
      assert before + Burst(key, now, 0) == before;
    } else {
      BurstFits(cfg, before, key, now, n-1, from);
      CallFits(cfg, before + Burst(key, now, n-1), Call(key, now), from);
      assert before + Burst(key, now, n-1) + [Call(key, now)] == before + Burst(key, now, n);
    }
  }

  lemma WindowOpens(cfg: Config, before: seq<Call>, c: Call, from: int)
    requires c.key !in PlainRun(cfg, before) || Expired(PlainRun(cfg, before)[c.key], cfg, c.now)
    ensures var after := before + [c];
      && c.key in PlainRun(cfg, after) && PlainRun(cfg, after)[c.key] == Window(1, c.now)
      && PlainAdmitted(cfg, after, c.key, from) ==
           PlainAdmitted(cfg, before, c.key, from) + if from <= c.now < from + cfg.period then 1 else 0
  {
    assert (before + [c])[..|before|] == before;
  }

  /** The early window, filled just before it ends. */
  function FirstWindow(cfg: Config, key: string): seq<Call>
    requires cfg.limit >= 1
  {
    [Call(key, 0)] + Burst(key, cfg.period - 1, cfg.limit - 1)
  }

  function Worst(cfg: Config, key: string): seq<Call>
    requires cfg.limit >= 1
  {
    FirstWindow(cfg, key) + [Call(key, cfg.period)] + Burst(key, cfg.period, cfg.limit - 1)
  }

  lemma WorstIsMonotone(cfg: Config, key: string)
    requires cfg.limit >= 1 && cfg.period >= 2
    ensures Monotone(Worst(cfg, key))
  {
    var w := Worst(cfg, key);
    forall i | 0 <= i < |w|
      ensures w[i].now == if i == 0 then 0 else if i < cfg.limit then cfg.period - 1 else cfg.period
    {
    }
  }

  lemma FirstWindowFills(cfg: Config, key: string)
    requires cfg.limit >= 1 && cfg.period >= 2
    ensures key in PlainRun(cfg, FirstWindow(cfg, key)) &&
      PlainRun(cfg, FirstWindow(cfg, key))[key] == Window(cfg.limit, 0)
    ensures PlainAdmitted(cfg, FirstWindow(cfg, key), key, cfg.period - 1) == cfg.limit - 1
  {
    var c1 := OneCall(cfg, key);
    BurstFits(cfg, c1, key, cfg.period - 1, cfg.limit - 1, cfg.period - 1);
  }

  lemma WorstAdmits(cfg: Config, key: string)
    requires cfg.limit >= 1 && cfg.period >= 2
    ensures PlainAdmitted(cfg, Worst(cfg, key), key, cfg.period - 1) == 2 * cfg.limit - 1
  {
    var from, c2 := cfg.period - 1, FirstWindow(cfg, key);
    FirstWindowFills(cfg, key);
    WindowOpens(cfg, c2, Call(key, cfg.period), from);
    BurstFits(cfg, c2 + [Call(key, cfg.period)], key, cfg.period, cfg.limit - 1, from);
  }

  function WorstCalls(cfg: Config, key: string): seq<Call> {
    Worst(if cfg.limit < 1 then cfg.(limit := 1) else cfg, key)
  }

  /** The bound is sharp for every limit, when a period has at least two instants: one early request,
      the rest of its window just before it ends, and a full new window right after. */
  lemma BoundIsReached(cfg: Config, key: string)
    requires cfg.period >= 2
    ensures Monotone(WorstCalls(cfg, key))
    ensures Admitted(cfg, WorstCalls(cfg, key), key, cfg.period - 1) == 2 * Max1(cfg.limit) - 1
  {
    var full := if cfg.limit < 1 then cfg.(limit := 1) else cfg;
    WorstIsMonotone(full, key);
    SweepAdmitsTheSame(full, Worst(full, key), key, cfg.period - 1);
    WorstAdmits(full, key);
    if cfg.limit < 1 { AdmitsAsOne(cfg, Worst(full, key), key, cfg.period - 1); }
  }

  lemma OneCall(cfg: Config, key: string) returns (c: seq<Call>)
    requires cfg.limit >= 1 && cfg.period >= 2
    ensures c == [Call(key, 0)] && key in PlainRun(cfg, c) && PlainRun(cfg, c)[key] == Window(1, 0)
    ensures PlainAdmitted(cfg, c, key, cfg.period - 1) == 0
  {
    WindowOpens(cfg, [], Call(key, 0), cfg.period - 1);
    assert [] + [Call(key, 0)] == [Call(key, 0)];
    c := [Call(key, 0)];
  }

  // ----- one call, and one key --------------------------------------------

  /** A call is let through exactly when its key has no window, its window is a period old or fewer than
      the limit were let through in it; a sweep, due once a period, removes exactly the windows that old. */
  lemma AllowOutcome(s: State, cfg: Config, c: Call)
    ensures var (ok, k) := Allow(s, cfg, c);
      && var stored := c.key in s.windows && c.now - s.windows[c.key].start < cfg.period;
         var due := s.lastSweep == None || c.now - s.lastSweep.value >= cfg.period;
      && (ok <==> !stored || s.windows[c.key].count < cfg.limit)
      && c.key in k.windows
      && k.windows[c.key] == (if !stored then Window(1, c.now)
                              else if ok then Window(s.windows[c.key].count + 1, s.windows[c.key].start)
                              else s.windows[c.key])
      && (forall x :: x != c.key ==>
            (x in k.windows <==> x in s.windows && !(due && c.now - s.windows[x].start >= cfg.period)))
      && (forall x :: x != c.key && x in k.windows ==> k.windows[x] == s.windows[x])
      && k.lastSweep == if due then Some(c.now) else s.lastSweep
  {
  }

  /** The calls of one key. */
  function OfKey(calls: seq<Call>, key: string): seq<Call> {
    if calls == [] then []
    else OfKey(calls[..|calls|-1], key) + if calls[|calls|-1].key == key then [calls[|calls|-1]] else []
  }

  lemma {:induction false} PlainKeyAlone(cfg: Config, calls: seq<Call>, key: string)
    ensures var all, own := PlainRun(cfg, calls), PlainRun(cfg, OfKey(calls, key));
      (key in all <==> key in own) && (key in all ==> all[key] == own[key])
  {
    if calls == [] {
    } else {
      var before, last := calls[..|calls|-1], calls[|calls|-1];
      PlainKeyAlone(cfg, before, key);
      if last.key == key {
        assert OfKey(calls, key)[..|OfKey(calls, key)|-1] == OfKey(before, key);
      } else {
        assert OfKey(calls, key) == OfKey(before, key);
      }
    }
  }

  lemma {:induction false} OwnCallsAreMonotone(calls: seq<Call>, key: string)
    requires Monotone(calls)
    ensures Monotone(OfKey(calls, key))
    ensures forall i :: 0 <= i < |OfKey(calls, key)| ==> OfKey(calls, key)[i] in calls
  {
    if calls == [] {
    } else {
      var before := calls[..|calls|-1];
      OwnCallsAreMonotone(before, key);
      assert calls == before + [calls[|calls|-1]];
      var own := OfKey(before, key);
      forall i | 0 <= i < |own| ensures own[i].now <= calls[|calls|-1].now {
        var j :| 0 <= j < |before| && before[j] == own[i];
        assert calls[j] == before[j];
      }
    }
  }

  /** Keys do not affect each other: the verdict on a call is the one it would get if nobody else had
      called. */
  lemma KeysAreIndependent(cfg: Config, calls: seq<Call>, c: Call)
    requires Monotone(calls + [c])
    ensures Allow(Run(cfg, calls), cfg, c).0 == Allow(Run(cfg, OfKey(calls, c.key)), cfg, c).0
  {
    var own := OfKey(calls, c.key);
    assert (calls + [c])[..|calls|] == calls;
    assert OfKey(calls + [c], c.key) == own + [c];
    OwnCallsAreMonotone(calls + [c], c.key);
    SweepIsInvisible(cfg, calls + [c], |calls|);
    SweepIsInvisible(cfg, own + [c], |own|);
    assert (own + [c])[..|own|] == own;
    PlainKeyAlone(cfg, calls, c.key);
  }
}
