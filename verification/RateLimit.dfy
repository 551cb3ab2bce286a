/** The sliding-window rate limiter. Keys are text, times are clock readings in nanoseconds. */
module RateLimit {
  import opened Bytes

  datatype Config = Config(window: nat, maxAttempts: nat)

  type State = map<Bytes, seq<int>>

  function EntriesOf(s: State, key: Bytes): seq<int> {
    if key in s then s[key] else []
  }

  /** `retain`: the times after the cutoff, in order. */
  function Retain(ts: seq<int>, cutoff: int): seq<int> {
    if ts == [] then [] else
      var n := |ts| - 1;
      Retain(ts[..n], cutoff) + (if ts[n] > cutoff then [ts[n]] else [])
  }

  function CheckStep(cfg: Config, s: State, key: Bytes, now: int): (State, bool) {
    var kept := Retain(EntriesOf(s, key), now - cfg.window);
    if |kept| >= cfg.maxAttempts then (s[key := kept], false) else (s[key := kept + [now]], true)
  }

  class RateLimiter {
    var state: State
    const config: Config

    constructor (config: Config)
      ensures state == map[] && this.config == config
    {
      state := map[];
      this.config := config;
    }

    method Check(key: Bytes, now: int) returns (allowed: bool)
      modifies this
      ensures (state, allowed) == CheckStep(config, old(state), key, now)
    {
      var entries := EntriesOf(state, key);
      var cutoff := now - config.window;
      var kept: seq<int> := [];
      for i := 0 to |entries|
        invariant kept == Retain(entries[..i], cutoff)
      {
        assert entries[..i + 1][..i] == entries[..i];
        if entries[i] > cutoff {
          kept := kept + [entries[i]];
        }
      }
      assert entries[..|entries|] == entries;
      if |kept| >= config.maxAttempts {
        state := state[key := kept];
        return false;
      }
      state := state[key := kept + [now]];
      return true;
    }

    method Reset(key: Bytes)
      modifies this
      ensures state == old(state) - {key}
    {
      state := state - {key};
    }
  }

  // ---------------------------------------------------------------------------------------
  // Runs and their complete history.

  datatype Op = Check(key: Bytes, now: int) | Reset(key: Bytes)
  datatype Event = Checked(key: Bytes, now: int, allowed: bool) | WasReset(key: Bytes)

  function Apply(cfg: Config, s: State, op: Op): (State, Event) {
    match op
    case Check(key, now) => var (s', allowed) := CheckStep(cfg, s, key, now); (s', Checked(key, now, allowed))
    case Reset(key) => (s - {key}, WasReset(key))
  }

  function Run(cfg: Config, ops: seq<Op>): (State, seq<Event>) {
    if ops == [] then (map[], []) else
      var (s, events) := Run(cfg, ops[..|ops| - 1]);
      var (s', e) := Apply(cfg, s, ops[|ops| - 1]);
      (s', events + [e])
  }

  /** The times of the key's allowed checks since its last reset: the unpruned history. */
  function Live(events: seq<Event>, key: Bytes): seq<int> {
    if events == [] then [] else LiveAfter(Live(events[..|events| - 1], key), events[|events| - 1], key)
  }

  function LiveAfter(live: seq<int>, e: Event, key: Bytes): seq<int> {
    match e
    case Checked(k, now, allowed) => if k == key && allowed then live + [now] else live
    case WasReset(k) => if k == key then [] else live
  }

  /** One more operation, seen from one key: its list and its history move together. */
  lemma RunStep(cfg: Config, ops: seq<Op>, key: Bytes)
    requires ops != []
    ensures var (s, events) := Run(cfg, ops[..|ops| - 1]);
            var (s', e) := Apply(cfg, s, ops[|ops| - 1]);
            && Run(cfg, ops) == (s', events + [e])
            && Live(events + [e], key) == LiveAfter(Live(events, key), e, key)
            && (ops[|ops| - 1].key != key ==>
                  EntriesOf(s', key) == EntriesOf(s, key) && Live(events + [e], key) == Live(events, key))
  {
  }

  /** No reading is after `now`; the readings need not be in order. */
  ghost predicate ReadingsUpTo(ops: seq<Op>, now: int) {
    forall i :: 0 <= i < |ops| && ops[i].Check? ==> ops[i].now <= now
  }

  /**
   No check is applied with a reading more than `lag` behind that of an earlier one. With no lag, they are in order.
   */
  ghost predicate LagsBy(ops: seq<Op>, lag: nat) {
    forall i, j :: 0 <= i < j < |ops| && ops[i].Check? && ops[j].Check? ==> ops[i].now - lag <= ops[j].now
  }

  lemma RetainPush(ts: seq<int>, t: int, cutoff: int)
    ensures Retain(ts + [t], cutoff) == Retain(ts, cutoff) + (if t > cutoff then [t] else [])
  {
  }

  lemma {:induction false} RetainTwice(ts: seq<int>, a: int, b: int)
    requires a <= b
    ensures Retain(Retain(ts, a), b) == Retain(ts, b)
  {
    if ts != [] {
      var n := |ts| - 1;
      RetainTwice(ts[..n], a, b);
      if ts[n] > a {
        RetainPush(Retain(ts[..n], a), ts[n], b);
      } else {
        assert Retain(ts, a) == Retain(ts[..n], a);
      }
    }
  }

  /** No check at `now` or later can tell the stored list from the full history. */
  ghost predicate Faithful(cfg: Config, entries: seq<int>, live: seq<int>, now: int) {
    forall cutoff: int :: now - cfg.window <= cutoff ==> Retain(entries, cutoff) == Retain(live, cutoff)
  }

  lemma CheckKeepsFaithful(cfg: Config, entries: seq<int>, live: seq<int>, at: int, now: int)
    requires Faithful(cfg, entries, live, now) && at <= now
    ensures Faithful(cfg, Retain(entries, at - cfg.window), live, now)
    ensures Faithful(cfg, Retain(entries, at - cfg.window) + [at], live + [at], now)
  {
    var kept := Retain(entries, at - cfg.window);
    forall cutoff: int | now - cfg.window <= cutoff
      ensures Retain(kept, cutoff) == Retain(live, cutoff)
      ensures Retain(kept + [at], cutoff) == Retain(live + [at], cutoff)
    {
      RetainTwice(entries, at - cfg.window, cutoff);
      RetainPush(kept, at, cutoff);
      RetainPush(live, at, cutoff);
    }
  }

  /** One operation keeps the stored list faithful, for every key. */
  lemma ApplyKeepsFaithful(cfg: Config, s: State, live: seq<int>, op: Op, key: Bytes, now: int)
    requires Faithful(cfg, EntriesOf(s, key), live, now)
    requires op.Check? ==> op.now <= now
    ensures Faithful(cfg, EntriesOf(Apply(cfg, s, op).0, key), LiveAfter(live, Apply(cfg, s, op).1, key), now)
  {
    var (s', e) := Apply(cfg, s, op);
    if op.key != key {
      assert EntriesOf(s', key) == EntriesOf(s, key) && LiveAfter(live, e, key) == live;
    } else if op.Reset? {
      assert EntriesOf(s', key) == [] && LiveAfter(live, e, key) == [];
    } else {
      CheckKeepsFaithful(cfg, EntriesOf(s, key), live, op.now, now);
      var kept := Retain(EntriesOf(s, key), op.now - cfg.window);
      assert EntriesOf(s', key) == if e.allowed then kept + [op.now] else kept;
    }
  }

  /**
   After every run, in whatever order its readings were applied, the stored list of every key stands for its history.
   */
  lemma {:induction false} RunIsFaithful(cfg: Config, ops: seq<Op>, key: Bytes, now: int)
    requires ReadingsUpTo(ops, now)
    ensures Faithful(cfg, EntriesOf(Run(cfg, ops).0, key), Live(Run(cfg, ops).1, key), now)
  {
    if ops != [] {
      var prev, op := ops[..|ops| - 1], ops[|ops| - 1];
      RunIsFaithful(cfg, prev, key, now);
      var (s, events) := Run(cfg, prev);
      ApplyKeepsFaithful(cfg, s, Live(events, key), op, key, now);
      RunStep(cfg, ops, key);
    }
  }

  /**
   The verdict of a check that is not behind any earlier one: allowed exactly when fewer than `maxAttempts` of the
   key's allowed checks since its last reset lie in the window that ends now.
   */
  lemma VerdictIsWindowCount(cfg: Config, ops: seq<Op>, key: Bytes, now: int)
    requires ReadingsUpTo(ops, now)
    ensures var (s, events) := Run(cfg, ops);
            CheckStep(cfg, s, key, now).1 <==> |Retain(Live(events, key), now - cfg.window)| < cfg.maxAttempts
  {
    RunIsFaithful(cfg, ops, key, now);
  }

  /**
   How many of `ts` lie in the half-open interval from `lo` to `hi`, or, shifted by one instant, in the other kind.
   */
  function CountIn(ts: seq<int>, lo: int, hi: int): nat {
    if ts == [] then 0 else
      var n := |ts| - 1;
      CountIn(ts[..n], lo, hi) + (if lo <= ts[n] < hi then 1 else 0)
  }

  lemma {:induction false} CountAtMostRetained(ts: seq<int>, lo: int, hi: int, cutoff: int)
    requires cutoff < lo
    ensures CountIn(ts, lo, hi) <= |Retain(ts, cutoff)|
  {
    if ts != [] {
      CountAtMostRetained(ts[..|ts| - 1], lo, hi, cutoff);
    }
  }

  lemma {:induction false} RetainShrinks(ts: seq<int>, a: int, b: int)
    requires a <= b
    ensures |Retain(ts, b)| <= |Retain(ts, a)|
  {
    if ts != [] {
      RetainShrinks(ts[..|ts| - 1], a, b);
    }
  }

  /** A check that was allowed fits every interval it falls into, if the list was faithful up to `lag` after it. */
  lemma AllowedFits(cfg: Config, entries: seq<int>, live: seq<int>, at: int, lo: int, lag: nat)
    requires Faithful(cfg, entries, live, at + lag) && |Retain(entries, at - cfg.window)| < cfg.maxAttempts
    requires CountIn(live, lo, lo + cfg.window - lag) <= cfg.maxAttempts
    ensures CountIn(live + [at], lo, lo + cfg.window - lag) <= cfg.maxAttempts
  {
    assert (live + [at])[..|live|] == live;
    if lo <= at < lo + cfg.window - lag {
      var cutoff := at + lag - cfg.window;
      CountAtMostRetained(live, lo, lo + cfg.window - lag, cutoff);
      RetainShrinks(entries, at - cfg.window, cutoff);
    }
  }

  lemma RunFits(cfg: Config, ops: seq<Op>, key: Bytes, at: int, lo: int, lag: nat)
    requires ReadingsUpTo(ops, at + lag) && CheckStep(cfg, Run(cfg, ops).0, key, at).1
    requires CountIn(Live(Run(cfg, ops).1, key), lo, lo + cfg.window - lag) <= cfg.maxAttempts
    ensures CountIn(Live(Run(cfg, ops).1, key) + [at], lo, lo + cfg.window - lag) <= cfg.maxAttempts
  {
    RunIsFaithful(cfg, ops, key, at + lag);
    AllowedFits(cfg, EntriesOf(Run(cfg, ops).0, key), Live(Run(cfg, ops).1, key), at, lo, lag);
  }

  /**
   In every run whose checks are applied at most `lag` behind, every half-open interval that is `lag` shorter than the
   window holds at most `maxAttempts` allowed checks of a key since its last reset. With readings in order that is the
   whole window. Both kinds of half-open interval are covered: `[lo, hi)` is `CountIn(_, lo, hi)`, and `(lo, hi]` is
   the same one instant later.
   */
  lemma {:induction false} NeverMoreThanMaxPerWindow(cfg: Config, ops: seq<Op>, key: Bytes, lag: nat, lo: int)
    requires LagsBy(ops, lag)
    ensures CountIn(Live(Run(cfg, ops).1, key), lo, lo + cfg.window - lag) <= cfg.maxAttempts
  {
    if ops != [] {
      var prev, op := ops[..|ops| - 1], ops[|ops| - 1];
      NeverMoreThanMaxPerWindow(cfg, prev, key, lag, lo);
      RunStep(cfg, ops, key);
      var (s, events) := Run(cfg, prev);
      if op.Check? && op.key == key && CheckStep(cfg, s, key, op.now).1 {
        RunFits(cfg, prev, key, op.now, lo, lag);
      }
    }
  }

  lemma {:induction false} LiveUpTo(cfg: Config, ops: seq<Op>, key: Bytes, now: int)
    requires ReadingsUpTo(ops, now)
    ensures forall i :: 0 <= i < |Live(Run(cfg, ops).1, key)| ==> Live(Run(cfg, ops).1, key)[i] <= now
  {
    if ops != [] {
      LiveUpTo(cfg, ops[..|ops| - 1], key, now);
      RunStep(cfg, ops, key);
    }
  }

  lemma {:induction false} RetainedIsCount(ts: seq<int>, cutoff: int, now: int)
    requires forall i :: 0 <= i < |ts| ==> ts[i] <= now
    ensures |Retain(ts, cutoff)| == CountIn(ts, cutoff + 1, now + 1)
  {
    if ts != [] {
      RetainedIsCount(ts[..|ts| - 1], cutoff, now);
    }
  }

  /** Readings in order, up to `now`. */
  ghost predicate ClockUpTo(ops: seq<Op>, now: int) {
    ReadingsUpTo(ops, now) && LagsBy(ops, 0)
  }

  /** A check is refused exactly when `maxAttempts` allowed checks already lie in the last window, and never more do. */
  lemma RefusedExactlyAtMax(cfg: Config, ops: seq<Op>, key: Bytes, now: int)
    requires ClockUpTo(ops, now)
    ensures var (s, events) := Run(cfg, ops);
            !CheckStep(cfg, s, key, now).1 <==>
            CountIn(Live(events, key), now - cfg.window + 1, now + 1) == cfg.maxAttempts
  {
    VerdictIsWindowCount(cfg, ops, key, now);
    LiveUpTo(cfg, ops, key, now);
    NeverMoreThanMaxPerWindow(cfg, ops, key, 0, now - cfg.window + 1);
    FullIffAtMax(cfg, Live(Run(cfg, ops).1, key), now);
  }

  lemma FullIffAtMax(cfg: Config, live: seq<int>, now: int)
    requires forall i :: 0 <= i < |live| ==> live[i] <= now
    requires CountIn(live, now - cfg.window + 1, now + 1) <= cfg.maxAttempts
    ensures |Retain(live, now - cfg.window)| >= cfg.maxAttempts <==>
            CountIn(live, now - cfg.window + 1, now + 1) == cfg.maxAttempts
  {
    RetainedIsCount(live, now - cfg.window, now);
  }

  /** The operations on one key. */
  function Only(ops: seq<Op>, key: Bytes): seq<Op> {
    if ops == [] then [] else
      Only(ops[..|ops| - 1], key) + (if ops[|ops| - 1].key == key then [ops[|ops| - 1]] else [])
  }

  /** An operation on a key sees nothing but that key's stored list. */
  lemma ApplySeesOwnKey(cfg: Config, s: State, s1: State, op: Op)
    requires EntriesOf(s, op.key) == EntriesOf(s1, op.key)
    ensures Apply(cfg, s, op).1 == Apply(cfg, s1, op).1
    ensures EntriesOf(Apply(cfg, s, op).0, op.key) == EntriesOf(Apply(cfg, s1, op).0, op.key)
  {
  }

  /** Other keys never affect a key: its stored list and its history are those of the run of its own operations. */
  lemma {:induction false} OtherKeysDoNotMatter(cfg: Config, ops: seq<Op>, key: Bytes)
    ensures var (s, events) := Run(cfg, ops);
            var (s1, events1) := Run(cfg, Only(ops, key));
            EntriesOf(s, key) == EntriesOf(s1, key) && Live(events, key) == Live(events1, key)
  {
    if ops != [] {
      var n := |ops| - 1;
      var own := Only(ops[..n], key);
      OtherKeysDoNotMatter(cfg, ops[..n], key);
      RunStep(cfg, ops, key);
      if ops[n].key == key {
        assert Only(ops, key) == own + [ops[n]] && (own + [ops[n]])[..|own|] == own;
        ApplySeesOwnKey(cfg, Run(cfg, ops[..n]).0, Run(cfg, own).0, ops[n]);
        RunStep(cfg, own + [ops[n]], key);
      } else {
        assert Only(ops, key) == own;
      }
    }
  }

  // ---------------------------------------------------------------------------------------
  // Readings out of order.

  /** Whole windows hold at most `maxAttempts` in every run whose checks are applied at most `lag` behind. */
  ghost predicate WindowBoundHolds(cfg: Config, lag: nat) {
    forall ops, key, lo :: LagsBy(ops, lag) ==> WindowBound(cfg, ops, key, lo)
  }

  ghost predicate WindowBound(cfg: Config, ops: seq<Op>, key: Bytes, lo: int) {
    CountIn(Live(Run(cfg, ops).1, key), lo, lo + cfg.window) <= cfg.maxAttempts
  }

  /** What an allowed check does to the list and the history of its key. */
  lemma AllowedStep(cfg: Config, s: State, live: seq<int>, key: Bytes, at: int)
    requires |Retain(EntriesOf(s, key), at - cfg.window)| < cfg.maxAttempts
    ensures var (s', e) := Apply(cfg, s, Check(key, at));
            && EntriesOf(s', key) == Retain(EntriesOf(s, key), at - cfg.window) + [at]
            && LiveAfter(live, e, key) == live + [at]
  {
  }

  /** The list and the history of a key after a run. */
  ghost predicate Leaves(cfg: Config, ops: seq<Op>, key: Bytes, entries: seq<int>, live: seq<int>) {
    EntriesOf(Run(cfg, ops).0, key) == entries && Live(Run(cfg, ops).1, key) == live
  }

  lemma RunPush(cfg: Config, ops: seq<Op>, op: Op)
    ensures var (s, events) := Run(cfg, ops);
            var (s', e) := Apply(cfg, s, op);
            Run(cfg, ops + [op]) == (s', events + [e])
  {
    assert (ops + [op])[..|ops|] == ops;
  }

  lemma LivePush(events: seq<Event>, e: Event, key: Bytes)
    ensures Live(events + [e], key) == LiveAfter(Live(events, key), e, key)
  {
    assert (events + [e])[..|events|] == events;
  }

  lemma AllowedCheck(
    cfg: Config, ops: seq<Op>, key: Bytes, entries: seq<int>, live: seq<int>, at: int, kept: seq<int>)
    requires Leaves(cfg, ops, key, entries, live)
    requires kept == Retain(entries, at - cfg.window) && |kept| < cfg.maxAttempts
    ensures Leaves(cfg, ops + [Check(key, at)], key, kept + [at], live + [at])
  {
    var (s, events) := Run(cfg, ops);
    var (s', e) := Apply(cfg, s, Check(key, at));
    AllowedStep(cfg, s, live, key, at);
    RunPush(cfg, ops, Check(key, at));
    LivePush(events, e, key);
  }

  function Zeros(k: nat): (ts: seq<int>)
    ensures |ts| == k
  {
    if k == 0 then [] else Zeros(k - 1) + [0]
  }

  lemma {:induction false} RetainZeros(k: nat, cutoff: int)
    ensures Retain(Zeros(k), cutoff) == if cutoff < 0 then Zeros(k) else []
  {
    if k > 0 {
      RetainZeros(k - 1, cutoff);
      RetainPush(Zeros(k - 1), 0, cutoff);
    }
  }

  lemma {:induction false} CountZeros(k: nat, hi: int)
    requires hi > 0
    ensures CountIn(Zeros(k), 0, hi) == k
  {
    if k > 0 {
      CountZeros(k - 1, hi);
      CountPush(Zeros(k - 1), 0, 0, hi);
    }
  }

  /** `k` checks of one key at time 0. */
  function Burst(key: Bytes, k: nat): seq<Op> {
    if k == 0 then [] else Burst(key, k - 1) + [Check(key, 0)]
  }

  lemma OneMoreAtZero(cfg: Config, ops: seq<Op>, key: Bytes, k: nat)
    requires Leaves(cfg, ops, key, Zeros(k), Zeros(k)) && k < cfg.maxAttempts && cfg.window > 0
    ensures Leaves(cfg, ops + [Check(key, 0)], key, Zeros(k) + [0], Zeros(k) + [0])
  {
    RetainZeros(k, 0 - cfg.window);
    AllowedCheck(cfg, ops, key, Zeros(k), Zeros(k), 0, Zeros(k));
  }

  lemma {:induction false} BurstRun(cfg: Config, key: Bytes, k: nat)
    requires k <= cfg.maxAttempts && cfg.window > 0
    ensures Leaves(cfg, Burst(key, k), key, Zeros(k), Zeros(k))
    decreases k
  {
    if k > 0 {
      BurstRun(cfg, key, k - 1);
      OneMoreAtZero(cfg, Burst(key, k - 1), key, k - 1);
    }
  }

  lemma {:induction false} BurstAtZero(key: Bytes, k: nat)
    ensures forall i :: 0 <= i < |Burst(key, k)| ==> Burst(key, k)[i] == Check(key, 0)
  {
    if k > 0 {
      BurstAtZero(key, k - 1);
    }
  }

  /**
   A burst fills the window, a check at its end clears the list, and one applied late finds room in the old window.
   */
  function LateCheck(cfg: Config, key: Bytes): seq<Op> {
    Burst(key, cfg.maxAttempts) + [Check(key, cfg.window)] + [Check(key, cfg.window - 1)]
  }

  lemma LateCheckExceeds(cfg: Config, key: Bytes)
    requires cfg.maxAttempts >= 2 && cfg.window > 0
    ensures LagsBy(LateCheck(cfg, key), 1)
    ensures CountIn(Live(Run(cfg, LateCheck(cfg, key)).1, key), 0, cfg.window) == cfg.maxAttempts + 1
  {
    var burst, zeros := Burst(key, cfg.maxAttempts), Zeros(cfg.maxAttempts);
    BurstAtZero(key, cfg.maxAttempts);
    LateCheckLeaves(cfg, key);
    CountZeros(cfg.maxAttempts, cfg.window);
    CountPush(zeros, cfg.window, 0, cfg.window);
    CountPush(zeros + [cfg.window], cfg.window - 1, 0, cfg.window);
  }

  lemma LateCheckLeaves(cfg: Config, key: Bytes)
    requires cfg.maxAttempts >= 2 && cfg.window > 0
    ensures Leaves(cfg, LateCheck(cfg, key), key, [cfg.window] + [cfg.window - 1],
                   Zeros(cfg.maxAttempts) + [cfg.window] + [cfg.window - 1])
  {
    var burst, zeros := Burst(key, cfg.maxAttempts), Zeros(cfg.maxAttempts);
    BurstRun(cfg, key, cfg.maxAttempts);
    RetainZeros(cfg.maxAttempts, 0);
    AllowedCheck(cfg, burst, key, zeros, zeros, cfg.window, []);
    assert [] + [cfg.window] == [cfg.window];
    RetainPush([], cfg.window, -1);
    var filled, one := burst + [Check(key, cfg.window)], [cfg.window];
    AllowedCheck(cfg, filled, key, one, zeros + [cfg.window], cfg.window - 1, one);
  }

  lemma CountPush(ts: seq<int>, t: int, lo: int, hi: int)
    ensures CountIn(ts + [t], lo, hi) == CountIn(ts, lo, hi) + (if lo <= t < hi then 1 else 0)
  {
    assert (ts + [t])[..|ts|] == ts;
  }

  /** With one attempt per window, the stored list is the last allowed check, and allowed checks are a window apart. */
  ghost predicate Spaced(cfg: Config, entries: seq<int>, live: seq<int>) {
    && (live == [] ==> entries == [])
    && (live != [] ==> entries == [live[|live| - 1]])
    && (forall i, j :: 0 <= i < j < |live| ==> live[j] - live[i] >= cfg.window)
  }

  lemma {:induction false} OneAttemptIsSpaced(cfg: Config, ops: seq<Op>, key: Bytes)
    requires cfg.maxAttempts == 1
    ensures Spaced(cfg, EntriesOf(Run(cfg, ops).0, key), Live(Run(cfg, ops).1, key))
  {
    if ops != [] {
      OneAttemptIsSpaced(cfg, ops[..|ops| - 1], key);
      var (s, events) := Run(cfg, ops[..|ops| - 1]);
      SpacedApply(cfg, s, Live(events, key), ops[|ops| - 1], key);
      RunStep(cfg, ops, key);
    }
  }

  lemma SpacedApply(cfg: Config, s: State, live: seq<int>, op: Op, key: Bytes)
    requires cfg.maxAttempts == 1 && Spaced(cfg, EntriesOf(s, key), live)
    ensures var (s', e) := Apply(cfg, s, op);
            Spaced(cfg, EntriesOf(s', key), LiveAfter(live, e, key))
  {
    var (s', e) := Apply(cfg, s, op);
    if op.key != key {
      assert EntriesOf(s', key) == EntriesOf(s, key) && LiveAfter(live, e, key) == live;
    } else if op.Reset? {
      assert EntriesOf(s', key) == [] && LiveAfter(live, e, key) == [];
    } else {
      SpacedStep(cfg, EntriesOf(s, key), live, op.now);
      var kept := Retain(EntriesOf(s, key), op.now - cfg.window);
      assert EntriesOf(s', key) == if e.allowed then kept + [op.now] else kept;
    }
  }

  lemma SpacedStep(cfg: Config, entries: seq<int>, live: seq<int>, at: int)
    requires cfg.maxAttempts == 1 && Spaced(cfg, entries, live)
    ensures var kept := Retain(entries, at - cfg.window);
            if |kept| >= 1 then Spaced(cfg, kept, live) else Spaced(cfg, kept + [at], live + [at])
  {
    if live != [] {
      var last := live[|live| - 1];
      assert entries[..0] == [];
      assert Retain(entries, at - cfg.window) == if last > at - cfg.window then [last] else [];
      forall i | 0 <= i < |live| ensures last <= at - cfg.window ==> at - live[i] >= cfg.window {
        assert i < |live| - 1 ==> last - live[i] >= cfg.window;
      }
    }
  }

  lemma {:induction false} SpacedCount(cfg: Config, live: seq<int>, lo: int)
    requires forall i, j :: 0 <= i < j < |live| ==> live[j] - live[i] >= cfg.window
    ensures CountIn(live, lo, lo + cfg.window) <= 1
  {
    if live != [] {
      var n := |live| - 1;
      SpacedCount(cfg, live[..n], lo);
      if lo <= live[n] < lo + cfg.window {
        NoneBelow(live[..n], lo, lo + cfg.window);
      }
    }
  }

  lemma {:induction false} NoneBelow(ts: seq<int>, lo: int, hi: int)
    requires forall i :: 0 <= i < |ts| ==> ts[i] < lo
    ensures CountIn(ts, lo, hi) == 0
  {
    if ts != [] {
      NoneBelow(ts[..|ts| - 1], lo, hi);
    }
  }

  lemma {:induction false} EmptyInterval(ts: seq<int>, lo: int)
    ensures CountIn(ts, lo, lo) == 0
  {
    if ts != [] {
      EmptyInterval(ts[..|ts| - 1], lo);
    }
  }

  /**
   The clock is read before the lock is taken, so checks can be applied out of order. Whole windows still hold at most
   `maxAttempts` exactly when checks are in order after all, or at most one attempt is allowed, or the window is empty.
   */
  lemma WindowBoundHoldsIff(cfg: Config, lag: nat)
    ensures WindowBoundHolds(cfg, lag) <==> lag == 0 || cfg.maxAttempts <= 1 || cfg.window == 0
  {
    if lag == 0 || cfg.maxAttempts <= 1 || cfg.window == 0 {
      forall ops, key, lo | LagsBy(ops, lag) ensures WindowBound(cfg, ops, key, lo) {
        if lag == 0 {
          NeverMoreThanMaxPerWindow(cfg, ops, key, 0, lo);
        } else if cfg.window == 0 {
          EmptyInterval(Live(Run(cfg, ops).1, key), lo);
        } else if cfg.maxAttempts == 1 {
          OneAttemptIsSpaced(cfg, ops, key);
          SpacedCount(cfg, Live(Run(cfg, ops).1, key), lo);
        } else {
          NothingAllowed(cfg, ops, key);
        }
      }
    } else {
      LateCheckExceeds(cfg, []);
      assert LagsBy(LateCheck(cfg, []), lag);
      assert !WindowBound(cfg, LateCheck(cfg, []), [], 0);
    }
  }

  lemma {:induction false} NothingAllowed(cfg: Config, ops: seq<Op>, key: Bytes)
    requires cfg.maxAttempts == 0
    ensures Live(Run(cfg, ops).1, key) == []
  {
    if ops != [] {
      NothingAllowed(cfg, ops[..|ops| - 1], key);
      RunStep(cfg, ops, key);
    }
  }
}
