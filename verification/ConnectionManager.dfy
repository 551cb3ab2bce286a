/**
 The connection manager under every interleaving. A connect call has three sections: look-up, trust check, and limit
 check with spawn; then comes a task of its own: connect, loop. The source awaits only within the trust check; that
 other steps may also come between it and the limit check is more than it allows.
 */
module ConnectionManager {
  import opened Bytes

  const MAX_PEERS: nat := 200
  const MAX_ACTIVE_CONNECTIONS: nat := 10
  const STALE: int := 300_000_000_000   // five minutes, in nanoseconds

  datatype PeerInfo = PeerInfo(fingerprint: Bytes20, endpoint: Bytes, x25519Public: Option<Bytes32>, lastSeen: int)

  datatype Phase =
    | Found        // peer known, not yet checked for trust
    | Cleared      // trusted, limit not yet checked
    | Pending      // limit checked, task spawned, not yet connected
    | Running      // connected; its send/receive loop runs

  /** A connect call, with the peer information it found, and its task. */
  datatype Call = Call(info: PeerInfo, phase: Phase)

  datatype NetworkError = AlreadyConnected | PeerNotFound | PeerNotTrusted | ConnectionLimitExceeded | PeerLimitExceeded

  datatype State = State(
    peers: map<Bytes20, PeerInfo>,
    active: map<Bytes20, nat>,       // fingerprint -> the call whose task put its handle there
    trusted: set<Bytes20>,
    calls: map<nat, Call>)

  datatype Step =
    | AddPeer(info: PeerInfo)
    | Trust(fingerprints: set<Bytes20>)
    | LookUp(id: nat, fingerprint: Bytes20)
    | CheckTrust(id: nat)
    | CheckLimit(id: nat)
    | TaskFails(id: nat)
    | TaskConnects(id: nat)
    | LoopEnds(id: nat)
    | Disconnect(fingerprint: Bytes20)
    | Cleanup(now: int)

  const START := State(map[], map[], {}, map[])

  predicate InPhase(s: State, id: nat, phase: Phase) {
    id in s.calls && s.calls[id].phase == phase
  }

  function Moved(s: State, id: nat, phase: Phase): State
    requires id in s.calls
  {
    s.(calls := s.calls[id := s.calls[id].(phase := phase)])
  }

  function Gone(s: State, id: nat): State {
    s.(calls := s.calls - {id})
  }

  function Fresh(peers: map<Bytes20, PeerInfo>, now: int): map<Bytes20, PeerInfo> {
    map fp | fp in peers && now - peers[fp].lastSeen < STALE :: peers[fp]
  }

  /** Which steps can happen: fresh call numbers, and each call in its order. A task without a key only fails. */
  predicate Enabled(s: State, step: Step) {
    match step
    case LookUp(id, _) => id !in s.calls
    case CheckTrust(id) => InPhase(s, id, Found)
    case CheckLimit(id) => InPhase(s, id, Cleared)
    case TaskFails(id) => InPhase(s, id, Pending)
    case TaskConnects(id) => InPhase(s, id, Pending) && s.calls[id].info.x25519Public.Some?
    case LoopEnds(id) => InPhase(s, id, Running)
    case _ => true
  }

  function Next(s: State, step: Step): (State, Result<(), NetworkError>)
    requires Enabled(s, step)
  {
    match step
    case AddPeer(info) =>
      if |s.peers| >= MAX_PEERS && info.fingerprint !in s.peers then (s, Err(PeerLimitExceeded))
      else (s.(peers := s.peers[info.fingerprint := info]), Ok(()))
    case Trust(fps) => (s.(trusted := s.trusted + fps), Ok(()))
    case LookUp(id, fp) =>
      if fp in s.active then (s, Err(AlreadyConnected))
      else if fp !in s.peers then (s, Err(PeerNotFound))
      else (s.(calls := s.calls[id := Call(s.peers[fp], Found)]), Ok(()))
    case CheckTrust(id) =>
      if s.calls[id].info.fingerprint !in s.trusted then (Gone(s, id), Err(PeerNotTrusted))
      else (Moved(s, id, Cleared), Ok(()))
    case CheckLimit(id) =>
      if |s.active| >= MAX_ACTIVE_CONNECTIONS then (Gone(s, id), Err(ConnectionLimitExceeded))
      else (Moved(s, id, Pending), Ok(()))
    case TaskFails(id) => (Gone(s, id), Ok(()))
    case TaskConnects(id) =>
      (Moved(s, id, Running).(active := s.active[s.calls[id].info.fingerprint := id]), Ok(()))
    case LoopEnds(id) =>
      (Gone(s, id).(active := s.active - {s.calls[id].info.fingerprint}), Ok(()))
    case Disconnect(fp) => (s.(active := s.active - {fp}), Ok(()))
    case Cleanup(now) => (s.(peers := Fresh(s.peers, now)), Ok(()))
  }

  /** The manager object: its shared maps, changed by its methods and by the tasks it spawned. */
  class Manager {
    var peers: map<Bytes20, PeerInfo>
    var activeConnections: map<Bytes20, nat>
    var trustedPeers: set<Bytes20>
    var calls: map<nat, Call>

    ghost function Model(): State
      reads this
    {
      State(peers, activeConnections, trustedPeers, calls)
    }

    constructor ()
      ensures Model() == START
    {
      peers, activeConnections, trustedPeers, calls := map[], map[], {}, map[];
    }

    method Add(info: PeerInfo) returns (r: Result<(), NetworkError>)
      modifies this
      ensures (Model(), r) == Next(old(Model()), AddPeer(info))
    {
      if |peers| >= MAX_PEERS && info.fingerprint !in peers {
        return Err(PeerLimitExceeded);
      }
      peers := peers[info.fingerprint := info];
      return Ok(());
    }

    method TrustPeers(fingerprints: set<Bytes20>)
      modifies this
      ensures Model() == Next(old(Model()), Trust(fingerprints)).0
    {
      trustedPeers := trustedPeers + fingerprints;
    }

    method BeginConnect(id: nat, fingerprint: Bytes20) returns (r: Result<(), NetworkError>)
      requires Enabled(Model(), LookUp(id, fingerprint))
      modifies this
      ensures (Model(), r) == Next(old(Model()), LookUp(id, fingerprint))
    {
      if fingerprint in activeConnections {
        return Err(AlreadyConnected);
      }
      if fingerprint !in peers {
        return Err(PeerNotFound);
      }
      calls := calls[id := Call(peers[fingerprint], Found)];
      return Ok(());
    }

    method RequireTrust(id: nat) returns (r: Result<(), NetworkError>)
      requires Enabled(Model(), CheckTrust(id))
      modifies this
      ensures (Model(), r) == Next(old(Model()), CheckTrust(id))
    {
      if calls[id].info.fingerprint !in trustedPeers {
        calls := calls - {id};
        return Err(PeerNotTrusted);
      }
      calls := calls[id := calls[id].(phase := Cleared)];
      return Ok(());
    }

    method Spawn(id: nat) returns (r: Result<(), NetworkError>)
      requires Enabled(Model(), CheckLimit(id))
      modifies this
      ensures (Model(), r) == Next(old(Model()), CheckLimit(id))
    {
      if |activeConnections| >= MAX_ACTIVE_CONNECTIONS {
        calls := calls - {id};
        return Err(ConnectionLimitExceeded);
      }
      calls := calls[id := calls[id].(phase := Pending)];
      return Ok(());
    }

    /** The task up to its loop: without a key, or if connecting fails, it ends; otherwise it stores its handle. */
    method RunTask(id: nat, connects: bool)
      requires InPhase(Model(), id, Pending)
      modifies this
      ensures Model() == if connects && old(calls)[id].info.x25519Public.Some?
                         then Next(old(Model()), TaskConnects(id)).0 else Next(old(Model()), TaskFails(id)).0
    {
      if calls[id].info.x25519Public.None? || !connects {
        calls := calls - {id};
        return;
      }
      activeConnections := activeConnections[calls[id].info.fingerprint := id];
      calls := calls[id := calls[id].(phase := Running)];
    }

    method EndLoop(id: nat)
      requires Enabled(Model(), LoopEnds(id))
      modifies this
      ensures Model() == Next(old(Model()), LoopEnds(id)).0
    {
      activeConnections := activeConnections - {calls[id].info.fingerprint};
      calls := calls - {id};
    }

    method DropHandle(fingerprint: Bytes20)
      modifies this
      ensures Model() == Next(old(Model()), Disconnect(fingerprint)).0
    {
      activeConnections := activeConnections - {fingerprint};
    }

    method CleanupStale(now: int)
      modifies this
      ensures Model() == Next(old(Model()), Cleanup(now)).0
    {
      peers := map fp | fp in peers && now - peers[fp].lastSeen < STALE :: peers[fp];
    }
  }

  /**
   What each step answers. A look-up is refused for a peer with a handle, then for an unknown one; the trust check for
   one that is not trusted; the limit check at ten handles; a discovered peer if it is new and 200 are known. A refused
   call is gone, and nothing else has changed; an accepted one moves on by one phase.
   */
  lemma StepAnswers(s: State, step: Step)
    requires Enabled(s, step)
    ensures var (s', r) := Next(s, step);
            && (step.AddPeer? ==>
                  && (r == Err(PeerLimitExceeded) <==> |s.peers| >= 200 && step.info.fingerprint !in s.peers)
                  && (r.Ok? ==> s' == s.(peers := s.peers[step.info.fingerprint := step.info]))
                  && (r.Err? ==> r == Err(PeerLimitExceeded) && s' == s))
            && (step.LookUp? ==>
                  && (r == Err(AlreadyConnected) <==> step.fingerprint in s.active)
                  && (r == Err(PeerNotFound) <==> step.fingerprint !in s.active && step.fingerprint !in s.peers)
                  && (r.Ok? <==> step.fingerprint !in s.active && step.fingerprint in s.peers)
                  && (r.Ok? ==> s' == s.(calls := s.calls[step.id := Call(s.peers[step.fingerprint], Found)]))
                  && (r.Err? ==> s' == s))
            && (step.CheckTrust? ==>
                  && (r == Err(PeerNotTrusted) <==> s.calls[step.id].info.fingerprint !in s.trusted)
                  && (r.Ok? <==> s.calls[step.id].info.fingerprint in s.trusted))
            && (step.CheckLimit? ==>
                  && (r == Err(ConnectionLimitExceeded) <==> |s.active| >= 10)
                  && (r.Ok? <==> |s.active| < 10))
            && (step.CheckTrust? || step.CheckLimit? ==>
                  && s' == s.(calls := s'.calls)
                  && (r.Err? ==> s'.calls == s.calls - {step.id})
                  && (r.Ok? ==> var phase := if step.CheckTrust? then Cleared else Pending;
                                s'.calls == s.calls[step.id := Call(s.calls[step.id].info, phase)]))
            && (!step.AddPeer? && !step.LookUp? && !step.CheckTrust? && !step.CheckLimit? ==> r.Ok?)
  {
  }

  // ---------------------------------------------------------------------------------------
  // Runs.

  ghost predicate IsRun(s: State, steps: seq<Step>)
    decreases |steps|
  {
    steps == [] || (Enabled(s, steps[0]) && IsRun(Next(s, steps[0]).0, steps[1..]))
  }

  ghost function After(s: State, steps: seq<Step>): State
    requires IsRun(s, steps)
    decreases |steps|
  {
    if steps == [] then s else After(Next(s, steps[0]).0, steps[1..])
  }

  ghost function PendingCalls(s: State): set<nat> {
    PendingIn(s.calls)
  }

  ghost function PendingIn(calls: map<nat, Call>): set<nat> {
    set id | id in calls && calls[id].phase == Pending
  }

  lemma PendingUpdate(calls: map<nat, Call>, id: nat, call: Call)
    ensures PendingIn(calls[id := call]) ==
            if call.phase == Pending then PendingIn(calls) + {id} else PendingIn(calls) - {id}
  {
  }

  lemma PendingDrop(calls: map<nat, Call>, id: nat)
    ensures PendingIn(calls - {id}) == PendingIn(calls) - {id}
  {
  }

  /** At no point of the run are more than `n` connects pending. */
  ghost predicate PendingAtMost(s: State, steps: seq<Step>, n: nat)
    requires IsRun(s, steps)
    decreases |steps|
  {
    |PendingCalls(s)| <= n && (steps == [] || PendingAtMost(Next(s, steps[0]).0, steps[1..], n))
  }

  /** What one step does to the set of pending connects. */
  ghost function PendingAfter(s: State, step: Step): set<nat>
    requires Enabled(s, step)
  {
    match step
    case CheckLimit(id) => if |s.active| >= MAX_ACTIVE_CONNECTIONS then PendingCalls(s) else PendingCalls(s) + {id}
    case TaskFails(id) => PendingCalls(s) - {id}
    case TaskConnects(id) => PendingCalls(s) - {id}
    case _ => PendingCalls(s)
  }

  lemma PendingStep(s: State, step: Step)
    requires Enabled(s, step)
    ensures PendingCalls(Next(s, step).0) == PendingAfter(s, step)
  {
    match step
    case LookUp(id, fp) =>
      if fp !in s.active && fp in s.peers {
        PendingUpdate(s.calls, id, Call(s.peers[fp], Found));
      }
    case CheckTrust(id) =>
      if s.calls[id].info.fingerprint in s.trusted {
        PendingUpdate(s.calls, id, s.calls[id].(phase := Cleared));
      } else {
        PendingDrop(s.calls, id);
      }
    case CheckLimit(id) =>
      if |s.active| < MAX_ACTIVE_CONNECTIONS {
        PendingUpdate(s.calls, id, s.calls[id].(phase := Pending));
      } else {
        PendingDrop(s.calls, id);
      }
    case TaskFails(id) => PendingDrop(s.calls, id);
    case TaskConnects(id) => PendingUpdate(s.calls, id, s.calls[id].(phase := Running));
    case LoopEnds(id) => PendingDrop(s.calls, id);
    case _ =>
  }

  /** Active handles and pending connects together stay within one limit. */
  ghost predicate WithinLimit(s: State, n: nat) {
    |s.active| + |PendingCalls(s)| <= MAX_ACTIVE_CONNECTIONS - 1 + n
  }

  lemma MapShrinks<K, V>(m: map<K, V>, k: K)
    ensures |m - {k}| <= |m|
  {
  }

  lemma MapGrows<K, V>(m: map<K, V>, k: K, v: V)
    ensures |m[k := v]| <= |m| + 1
  {
  }

  /** What one step does to the number of handles. */
  lemma ActiveStep(s: State, step: Step)
    requires Enabled(s, step)
    ensures |Next(s, step).0.active| <= |s.active| + (if step.TaskConnects? then 1 else 0)
  {
    match step
    case TaskConnects(id) => MapGrows(s.active, s.calls[id].info.fingerprint, id);
    case LoopEnds(id) => MapShrinks(s.active, s.calls[id].info.fingerprint);
    case Disconnect(fp) => MapShrinks(s.active, fp);
    case _ =>
  }

  lemma StepWithinLimit(s: State, step: Step, n: nat)
    requires Enabled(s, step) && WithinLimit(s, n)
    requires |PendingCalls(Next(s, step).0)| <= n
    ensures WithinLimit(Next(s, step).0, n)
  {
    PendingStep(s, step);
    ActiveStep(s, step);
  }

  lemma {:induction false} RunWithinLimit(s: State, steps: seq<Step>, n: nat)
    requires IsRun(s, steps) && PendingAtMost(s, steps, n) && WithinLimit(s, n)
    ensures WithinLimit(After(s, steps), n)
    decreases |steps|
  {
    if steps != [] {
      StepWithinLimit(s, steps[0], n);
      RunWithinLimit(Next(s, steps[0]).0, steps[1..], n);
    }
  }

  /**
   In every interleaving, active connections never exceed 9 plus the largest number of simultaneously pending
   connects; in particular never more than ten when connects do not overlap.
   */
  lemma ActiveBounded(steps: seq<Step>, n: nat)
    requires IsRun(START, steps) && PendingAtMost(START, steps, n)
    ensures |After(START, steps).active| <= 9 + n
  {
    assert PendingCalls(START) == {};
    RunWithinLimit(START, steps, n);
  }

  // ---------------------------------------------------------------------------------------
  // Who is connected.

  /** Calls past the trust check are trusted, and running calls have a key. */
  ghost predicate CallsSound(calls: map<nat, Call>, trusted: set<Bytes20>) {
    && (forall id :: id in calls && calls[id].phase != Found ==> calls[id].info.fingerprint in trusted)
    && (forall id :: id in calls && calls[id].phase == Running ==> calls[id].info.x25519Public.Some?)
  }

  /** Handles belong to running calls for their fingerprint. */
  ghost predicate HandlesSound(calls: map<nat, Call>, active: map<Bytes20, nat>) {
    forall fp :: fp in active ==>
      active[fp] in calls && calls[active[fp]].phase == Running && calls[active[fp]].info.fingerprint == fp
  }

  ghost predicate PeersSound(peers: map<Bytes20, PeerInfo>) {
    |peers| <= MAX_PEERS && forall fp :: fp in peers ==> peers[fp].fingerprint == fp
  }

  ghost predicate Sound(s: State) {
    CallsSound(s.calls, s.trusted) && HandlesSound(s.calls, s.active) && PeersSound(s.peers)
  }

  lemma AddSound(peers: map<Bytes20, PeerInfo>, info: PeerInfo)
    requires PeersSound(peers) && (|peers| < MAX_PEERS || info.fingerprint in peers)
    ensures PeersSound(peers[info.fingerprint := info])
  {
  }

  lemma FreshSound(peers: map<Bytes20, PeerInfo>, now: int)
    requires PeersSound(peers)
    ensures PeersSound(Fresh(peers, now))
  {
    SubsetSize(Fresh(peers, now).Keys, peers.Keys);
    assert |Fresh(peers, now)| == |Fresh(peers, now).Keys|;
  }

  lemma StepCallsSound(s: State, step: Step)
    requires CallsSound(s.calls, s.trusted) && Enabled(s, step)
    ensures CallsSound(Next(s, step).0.calls, Next(s, step).0.trusted)
  {
  }

  /** Calls that are not running come, change and go without touching a handle. */
  lemma OtherCallsKeepHandles(calls: map<nat, Call>, active: map<Bytes20, nat>, id: nat, call: Call)
    requires HandlesSound(calls, active) && (id in calls ==> calls[id].phase != Running)
    ensures HandlesSound(calls[id := call], active) && HandlesSound(calls - {id}, active)
  {
  }

  lemma ConnectKeepsHandles(calls: map<nat, Call>, active: map<Bytes20, nat>, id: nat)
    requires HandlesSound(calls, active) && id in calls && calls[id].phase == Pending
    ensures HandlesSound(calls[id := calls[id].(phase := Running)], active[calls[id].info.fingerprint := id])
  {
  }

  lemma EndKeepsHandles(calls: map<nat, Call>, active: map<Bytes20, nat>, id: nat)
    requires HandlesSound(calls, active) && id in calls && calls[id].phase == Running
    ensures HandlesSound(calls - {id}, active - {calls[id].info.fingerprint})
  {
  }

  lemma StepHandlesSound(s: State, step: Step)
    requires HandlesSound(s.calls, s.active) && Enabled(s, step)
    ensures HandlesSound(Next(s, step).0.calls, Next(s, step).0.active)
  {
    match step
    case LookUp(id, fp) =>
      if fp in s.peers {
        OtherCallsKeepHandles(s.calls, s.active, id, Call(s.peers[fp], Found));
      }
    case CheckTrust(id) => OtherCallsKeepHandles(s.calls, s.active, id, s.calls[id].(phase := Cleared));
    case CheckLimit(id) => OtherCallsKeepHandles(s.calls, s.active, id, s.calls[id].(phase := Pending));
    case TaskFails(id) => OtherCallsKeepHandles(s.calls, s.active, id, s.calls[id]);
    case TaskConnects(id) => ConnectKeepsHandles(s.calls, s.active, id);
    case LoopEnds(id) => EndKeepsHandles(s.calls, s.active, id);
    case _ =>
  }

  lemma StepPeersSound(s: State, step: Step)
    requires PeersSound(s.peers) && Enabled(s, step)
    ensures PeersSound(Next(s, step).0.peers)
  {
    match step
    case AddPeer(info) =>
      if |s.peers| < MAX_PEERS || info.fingerprint in s.peers {
        AddSound(s.peers, info);
      }
    case Cleanup(now) => FreshSound(s.peers, now);
    case _ =>
  }

  lemma StepSound(s: State, step: Step)
    requires Sound(s) && Enabled(s, step)
    ensures Sound(Next(s, step).0)
  {
    StepCallsSound(s, step);
    StepHandlesSound(s, step);
    StepPeersSound(s, step);
  }

  lemma {:induction false} RunSound(s: State, steps: seq<Step>)
    requires Sound(s) && IsRun(s, steps)
    ensures Sound(After(s, steps))
    decreases |steps|
  {
    if steps != [] {
      StepSound(s, steps[0]);
      RunSound(Next(s, steps[0]).0, steps[1..]);
    }
  }

  /** Call `id` is there all along the run: the number is not given to a new call. */
  ghost predicate Stays(s: State, steps: seq<Step>, id: nat)
    requires IsRun(s, steps)
    decreases |steps|
  {
    id in s.calls && (steps == [] || Stays(Next(s, steps[0]).0, steps[1..], id))
  }

  /**
   Step `k` of the run is the look-up of this very call `id`, and found no handle for the fingerprint and exactly `info`
   among the peers then known.
   */
  ghost predicate FoundAt(s: State, steps: seq<Step>, k: nat, id: nat, info: PeerInfo)
    requires IsRun(s, steps)
    decreases k
  {
    && steps != []
    && var s1 := Next(s, steps[0]).0;
       if k > 0 then FoundAt(s1, steps[1..], k - 1, id, info)
       else
         && steps[0] == LookUp(id, info.fingerprint) && id !in s.calls && info.fingerprint !in s.active
         && info.fingerprint in s.peers && s.peers[info.fingerprint] == info
         && Stays(s1, steps[1..], id)
  }

  /** A call after a step was there before it, with the same information, or the step looked it up. */
  lemma CallStep(s: State, step: Step, id: nat)
    requires Enabled(s, step) && PeersSound(s.peers) && id in Next(s, step).0.calls
    ensures var info := Next(s, step).0.calls[id].info;
            if id in s.calls then s.calls[id].info == info
            else
              var fp := info.fingerprint;
              step == LookUp(id, fp) && fp !in s.active && fp in s.peers && s.peers[fp] == info
  {
  }

  /** Every call of a run carries what its own look-up found, in the run or before it. */
  lemma {:induction false} CallsWereLookedUp(s: State, steps: seq<Step>, id: nat) returns (k: nat)
    requires Sound(s) && IsRun(s, steps) && id in After(s, steps).calls
    ensures var info := After(s, steps).calls[id].info;
            (Stays(s, steps, id) && s.calls[id].info == info) || FoundAt(s, steps, k, id, info)
    decreases |steps|
  {
    k := 0;
    if steps != [] {
      var s1 := Next(s, steps[0]).0;
      var info := After(s, steps).calls[id].info;
      StepSound(s, steps[0]);
      var later := CallsWereLookedUp(s1, steps[1..], id);
      if Stays(s1, steps[1..], id) && s1.calls[id].info == info {
        CallStep(s, steps[0], id);
      } else {
        k := later + 1;
      }
    }
  }

  /**
   In every interleaving, each active fingerprint is trusted, and its handle belongs to a running task whose connect
   call found an X25519 key for that fingerprint when it looked the peer up, and has been under way since.
   */
  lemma ActiveIsTrustedAndKeyed(steps: seq<Step>, fp: Bytes20) returns (id: nat, k: nat)
    requires IsRun(START, steps) && fp in After(START, steps).active
    ensures fp in After(START, steps).trusted
    ensures InPhase(After(START, steps), id, Running) && After(START, steps).active[fp] == id
    ensures var info := After(START, steps).calls[id].info;
            FoundAt(START, steps, k, id, info) && info.fingerprint == fp && info.x25519Public.Some?
  {
    var s := After(START, steps);
    RunSound(START, steps);
    id := s.active[fp];
    k := CallsWereLookedUp(START, steps, id);
  }

  // ---------------------------------------------------------------------------------------
  // Which peers are known.

  /** Nothing in the steps replaces this information or finds it five minutes old. */
  ghost predicate Survives(steps: seq<Step>, info: PeerInfo) {
    forall k :: 0 <= k < |steps| ==>
      && (steps[k].AddPeer? ==> steps[k].info.fingerprint != info.fingerprint)
      && (steps[k].Cleanup? ==> steps[k].now - info.lastSeen < 300 * SECOND)
  }

  /** Some step of the run added `info`, was not refused, and the rest of the run left it. */
  ghost predicate WasAdded(s: State, steps: seq<Step>, info: PeerInfo)
    requires IsRun(s, steps)
    decreases |steps|
  {
    steps != [] &&
    (|| (steps[0] == AddPeer(info) && Next(s, steps[0]).1.Ok? && Survives(steps[1..], info))
     || WasAdded(Next(s, steps[0]).0, steps[1..], info))
  }

  ghost predicate Knows(s: State, info: PeerInfo) {
    info.fingerprint in s.peers && s.peers[info.fingerprint] == info
  }

  /** One step: a peer is known after it if it was added by it, or was known before and survives it. */
  lemma KnowsStep(s: State, step: Step, info: PeerInfo)
    requires Enabled(s, step)
    ensures Knows(Next(s, step).0, info) <==>
            (step == AddPeer(info) && Next(s, step).1.Ok?) || (Knows(s, info) && Survives([step], info))
  {
    assert [step][0] == step;
  }

  lemma SurvivesCons(steps: seq<Step>, info: PeerInfo)
    requires steps != []
    ensures Survives(steps, info) <==> Survives([steps[0]], info) && Survives(steps[1..], info)
  {
    assert [steps[0]][0] == steps[0];
    if Survives([steps[0]], info) && Survives(steps[1..], info) {
      forall k | 0 <= k < |steps|
        ensures && (steps[k].AddPeer? ==> steps[k].info.fingerprint != info.fingerprint)
                && (steps[k].Cleanup? ==> steps[k].now - info.lastSeen < 300 * SECOND)
      {
        assert k > 0 ==> steps[1..][k - 1] == steps[k];
      }
    }
    if Survives(steps, info) {
      assert forall k :: 0 <= k < |steps| - 1 ==> steps[1..][k] == steps[k + 1];
    }
  }

  /**
   Which peers a run knows: exactly those that some step of it added and was not refused, that no later step replaced,
   and that no later clean-up found last seen five minutes ago or more; and those known before, if they survive.
   */
  lemma {:induction false} KnownIffAddedAndFresh(s: State, steps: seq<Step>, info: PeerInfo)
    requires IsRun(s, steps)
    ensures Knows(After(s, steps), info) <==>
            (Knows(s, info) && Survives(steps, info)) || WasAdded(s, steps, info)
    decreases |steps|
  {
    if steps != [] {
      var s1 := Next(s, steps[0]).0;
      KnownIffAddedAndFresh(s1, steps[1..], info);
      KnowsStep(s, steps[0], info);
      SurvivesCons(steps, info);
    }
  }

  // ---------------------------------------------------------------------------------------
  // Handles and loops. The limit counts handles; a loop may outlive its handle.

  /** Steps of others that take the handle of call `id` out of the map. */
  predicate Evicts(s: State, step: Step, id: nat)
    requires id in s.calls && Enabled(s, step)
  {
    var fp := s.calls[id].info.fingerprint;
    match step
    case Disconnect(f) => f == fp
    case TaskConnects(j) => j != id && s.calls[j].info.fingerprint == fp
    case LoopEnds(j) => j != id && s.calls[j].info.fingerprint == fp
    case _ => false
  }

  ghost predicate HoldsHandle(s: State, id: nat) {
    InPhase(s, id, Running) && s.calls[id].info.fingerprint in s.active && s.active[s.calls[id].info.fingerprint] == id
  }

  /** Some step of the run evicts call `id`, which stays running throughout. */
  ghost predicate EvictedDuring(s: State, steps: seq<Step>, id: nat)
    requires IsRun(s, steps)
    decreases |steps|
  {
    steps != [] && id in s.calls &&
    (Evicts(s, steps[0], id) || EvictedDuring(Next(s, steps[0]).0, steps[1..], id))
  }

  ghost predicate RunsThroughout(s: State, steps: seq<Step>, id: nat)
    requires IsRun(s, steps)
    decreases |steps|
  {
    InPhase(s, id, Running) && (steps == [] || RunsThroughout(Next(s, steps[0]).0, steps[1..], id))
  }

  /** One step: a loop that runs on has its handle afterwards exactly if it had it before and was not evicted. */
  lemma HandleStep(s: State, step: Step, id: nat)
    requires Enabled(s, step) && InPhase(s, id, Running) && InPhase(Next(s, step).0, id, Running)
    ensures HoldsHandle(Next(s, step).0, id) <==> HoldsHandle(s, id) && !Evicts(s, step, id)
  {
  }

  /** While a loop runs, it keeps its handle exactly if nothing evicts it: the only ways to lose it. */
  lemma {:induction false} HandleKeptIffNotEvicted(s: State, steps: seq<Step>, id: nat)
    requires IsRun(s, steps) && RunsThroughout(s, steps, id)
    ensures HoldsHandle(After(s, steps), id) <==> HoldsHandle(s, id) && !EvictedDuring(s, steps, id)
    decreases |steps|
  {
    if steps != [] {
      HandleStep(s, steps[0], id);
      HandleKeptIffNotEvicted(Next(s, steps[0]).0, steps[1..], id);
    }
  }

  ghost function RunningCalls(s: State): set<nat> {
    RunningIn(s.calls)
  }

  ghost function RunningIn(calls: map<nat, Call>): set<nat> {
    set id | id in calls && calls[id].phase == Running
  }

  /** Every running loop has its handle in the map. */
  ghost predicate AllHold(s: State) {
    forall id :: InPhase(s, id, Running) ==> HoldsHandle(s, id)
  }

  /** No step of the run takes a running loop's handle away. */
  ghost predicate NoEvictions(s: State, steps: seq<Step>)
    requires IsRun(s, steps)
    decreases |steps|
  {
    steps == [] ||
    (&& (forall id :: InPhase(s, id, Running) ==> !Evicts(s, steps[0], id))
     && NoEvictions(Next(s, steps[0]).0, steps[1..]))
  }

  lemma {:induction false} RunAllHold(s: State, steps: seq<Step>)
    requires IsRun(s, steps) && NoEvictions(s, steps) && AllHold(s)
    ensures AllHold(After(s, steps))
    decreases |steps|
  {
    if steps != [] {
      var s' := Next(s, steps[0]).0;
      forall id | InPhase(s', id, Running) ensures HoldsHandle(s', id) {
        if InPhase(s, id, Running) {
          HandleStep(s, steps[0], id);
        }
      }
      RunAllHold(s', steps[1..]);
    }
  }

  lemma ValuesAtMostKeys<K, V>(m: map<K, V>)
    ensures |m.Values| <= |m|
  {
  }

  /** So the limit is a limit on running loops in every run where nothing evicts a running loop. */
  lemma LoopsBoundedWithoutEvictions(steps: seq<Step>, n: nat)
    requires IsRun(START, steps) && PendingAtMost(START, steps, n) && NoEvictions(START, steps)
    ensures |RunningCalls(After(START, steps))| <= |After(START, steps).active| <= 9 + n
  {
    var s := After(START, steps);
    ActiveBounded(steps, n);
    RunAllHold(START, steps);
    forall id | id in RunningCalls(s) ensures id in s.active.Values {
      assert HoldsHandle(s, id);
      assert s.active[s.calls[id].info.fingerprint] == id;
    }
    SubsetSize(RunningCalls(s), s.active.Values);
    ValuesAtMostKeys(s.active);
  }

  // ---------------------------------------------------------------------------------------
  // Orderly use: one connect at a time to each peer, and no disconnects.

  /** A connect to `fp` is on its way: not refused, not yet running, not failed. */
  predicate OnItsWay(s: State, fp: Bytes20) {
    exists id :: id in s.calls && s.calls[id].info.fingerprint == fp && s.calls[id].phase != Running
  }

  /** Nothing is disconnected, and nobody connects to a peer while another connect to it is on its way. */
  ghost predicate Orderly(s: State, steps: seq<Step>)
    requires IsRun(s, steps)
    decreases |steps|
  {
    steps == [] ||
    (&& !steps[0].Disconnect?
     && (steps[0].LookUp? ==> !OnItsWay(s, steps[0].fingerprint))
     && Orderly(Next(s, steps[0]).0, steps[1..]))
  }

  /** No two calls are for one peer. */
  ghost predicate OneCallEach(calls: map<nat, Call>) {
    forall i, j :: i in calls && j in calls && calls[i].info.fingerprint == calls[j].info.fingerprint ==> i == j
  }

  /** The handles are those of the running calls. */
  ghost predicate Settled(s: State) {
    OneCallEach(s.calls) && AllHold(s)
  }

  lemma LookUpStaysSettled(s: State, id: nat, fp: Bytes20)
    requires Settled(s) && PeersSound(s.peers) && id !in s.calls && !OnItsWay(s, fp)
    ensures Settled(Next(s, LookUp(id, fp)).0)
  {
    var s' := Next(s, LookUp(id, fp)).0;
    if fp !in s.active && fp in s.peers {
      assert s'.calls == s.calls[id := Call(s.peers[fp], Found)] && s'.active == s.active;
      forall i | i in s.calls ensures s.calls[i].info.fingerprint != fp {
        assert s.calls[i].info.fingerprint == fp ==> InPhase(s, i, Running) && HoldsHandle(s, i);
      }
      forall i | InPhase(s', i, Running) ensures HoldsHandle(s', i) {
        assert InPhase(s, i, Running) && HoldsHandle(s, i);
      }
    }
  }

  lemma OtherStepStaysSettled(s: State, step: Step)
    requires Settled(s) && Enabled(s, step) && !step.Disconnect? && !step.LookUp?
    requires forall id :: InPhase(s, id, Running) ==> !Evicts(s, step, id)
    ensures Settled(Next(s, step).0)
  {
    var s' := Next(s, step).0;
    forall id | id in s'.calls ensures id in s.calls && s'.calls[id].info == s.calls[id].info {
    }
    forall id | InPhase(s', id, Running) ensures HoldsHandle(s', id) {
      if InPhase(s, id, Running) {
        assert HoldsHandle(s, id);
        HandleStep(s, step, id);
      }
    }
  }

  lemma OrderlyStep(s: State, step: Step)
    requires Sound(s) && Settled(s) && Enabled(s, step) && !step.Disconnect?
    requires step.LookUp? ==> !OnItsWay(s, step.fingerprint)
    ensures Settled(Next(s, step).0)
    ensures forall id :: InPhase(s, id, Running) ==> !Evicts(s, step, id)
  {
    forall id | InPhase(s, id, Running) ensures !Evicts(s, step, id) {
    }
    if step.LookUp? {
      LookUpStaysSettled(s, step.id, step.fingerprint);
    } else {
      OtherStepStaysSettled(s, step);
    }
  }

  /**
   In every orderly run no running loop loses its handle: a peer with a running loop answers `AlreadyConnected`, so it
   never has two calls, and handles and running loops are one to one.
   */
  lemma {:induction false} OrderlyRun(s: State, steps: seq<Step>)
    requires Sound(s) && Settled(s) && IsRun(s, steps) && Orderly(s, steps)
    ensures NoEvictions(s, steps) && Settled(After(s, steps))
    decreases |steps|
  {
    if steps != [] {
      OrderlyStep(s, steps[0]);
      StepSound(s, steps[0]);
      OrderlyRun(Next(s, steps[0]).0, steps[1..]);
    }
  }

  /** So in orderly use every running loop has its handle, and loops are bounded as handles are. */
  lemma OrderlyLoopsAreBounded(steps: seq<Step>, n: nat)
    requires IsRun(START, steps) && Orderly(START, steps) && PendingAtMost(START, steps, n)
    ensures NoEvictions(START, steps) && Settled(After(START, steps))
    ensures |RunningCalls(After(START, steps))| <= |After(START, steps).active| <= 9 + n
  {
    OrderlyRun(START, steps);
    LoopsBoundedWithoutEvictions(steps, n);
  }

  /** Connecting to a peer as call `n`, then disconnecting from it. */
  function Round(fp: Bytes20, n: nat): seq<Step> {
    [LookUp(n, fp)] + ([CheckTrust(n)] + ([CheckLimit(n)] + ([TaskConnects(n)] + ([Disconnect(fp)] + []))))
  }

  /** One peer, connected and disconnected over and over. */
  function Churn(info: PeerInfo, n: nat): seq<Step> {
    if n == 0 then [AddPeer(info)] + ([Trust({info.fingerprint})] + [])
    else Churn(info, n - 1) + Round(info.fingerprint, n)
  }

  ghost function Loops(info: PeerInfo, n: nat): (calls: map<nat, Call>)
    ensures forall id :: id in calls ==> id <= n
  {
    if n == 0 then map[] else Loops(info, n - 1)[n := Call(info, Running)]
  }

  /** The state after `n` rounds: no handle, `n` loops. */
  ghost function Churned(info: PeerInfo, n: nat): State {
    State(map[info.fingerprint := info], map[], {info.fingerprint}, Loops(info, n))
  }

  lemma RunCons(s: State, step: Step, s': State, rest: seq<Step>)
    requires Enabled(s, step) && Next(s, step).0 == s' && IsRun(s', rest)
    ensures IsRun(s, [step] + rest) && After(s, [step] + rest) == After(s', rest)
  {
  }

  lemma {:induction false} RunAppend(s: State, a: seq<Step>, b: seq<Step>)
    requires IsRun(s, a) && IsRun(After(s, a), b)
    ensures IsRun(s, a + b) && After(s, a + b) == After(After(s, a), b)
    decreases |a|
  {
    if a == [] {
      assert a + b == b;
    } else {
      RunAppend(Next(s, a[0]).0, a[1..], b);
      assert (a + b)[1..] == a[1..] + b;
    }
  }

  lemma OneRound(info: PeerInfo, n: nat)
    requires info.x25519Public.Some? && n > 0
    ensures IsRun(Churned(info, n - 1), Round(info.fingerprint, n))
    ensures After(Churned(info, n - 1), Round(info.fingerprint, n)) == Churned(info, n)
  {
    var fp := info.fingerprint;
    var s0 := Churned(info, n - 1);
    var s1 := s0.(calls := s0.calls[n := Call(info, Found)]);
    var s2 := s0.(calls := s0.calls[n := Call(info, Cleared)]);
    var s3 := s0.(calls := s0.calls[n := Call(info, Pending)]);
    var s4 := s0.(calls := s0.calls[n := Call(info, Running)], active := map[fp := n]);
    var s5 := Churned(info, n);
    assert s1.calls[n := Call(info, Cleared)] == s2.calls;
    assert s2.calls[n := Call(info, Pending)] == s3.calls;
    assert s3.calls[n := Call(info, Running)] == s4.calls;
    assert map[fp := n] - {fp} == map[];
    RunCons(s4, Disconnect(fp), s5, []);
    RunCons(s3, TaskConnects(n), s4, [Disconnect(fp)] + []);
    RunCons(s2, CheckLimit(n), s3, [TaskConnects(n)] + ([Disconnect(fp)] + []));
    RunCons(s1, CheckTrust(n), s2, [CheckLimit(n)] + ([TaskConnects(n)] + ([Disconnect(fp)] + [])));
    RunCons(s0, LookUp(n, fp), s1, [CheckTrust(n)] + ([CheckLimit(n)] + ([TaskConnects(n)] + ([Disconnect(fp)] + []))));
  }

  lemma {:induction false} ChurnRuns(info: PeerInfo, n: nat)
    requires info.x25519Public.Some?
    ensures IsRun(START, Churn(info, n)) && After(START, Churn(info, n)) == Churned(info, n)
    decreases n
  {
    if n == 0 {
      var s1 := START.(peers := map[info.fingerprint := info]);
      RunCons(s1, Trust({info.fingerprint}), Churned(info, 0), []);
      RunCons(START, AddPeer(info), s1, [Trust({info.fingerprint})] + []);
    } else {
      ChurnRuns(info, n - 1);
      OneRound(info, n);
      RunAppend(START, Churn(info, n - 1), Round(info.fingerprint, n));
    }
  }

  lemma OneMoreRunning(calls: map<nat, Call>, id: nat, call: Call)
    requires call.phase == Running
    ensures RunningIn(calls[id := call]) == RunningIn(calls) + {id}
  {
  }

  lemma {:induction false} LoopCount(info: PeerInfo, n: nat)
    ensures |RunningIn(Loops(info, n))| == n
    decreases n
  {
    if n == 0 {
      assert RunningIn(map[]) == {};
    } else {
      LoopCount(info, n - 1);
      OneMoreRunning(Loops(info, n - 1), n, Call(info, Running));
      assert n !in Loops(info, n - 1);
    }
  }

  /** Disconnecting drops the handle, not the loop: any number of loops can run while no handle is in the map. */
  lemma LoopsOutliveHandles(info: PeerInfo, n: nat)
    requires info.x25519Public.Some?
    ensures IsRun(START, Churn(info, n))
    ensures After(START, Churn(info, n)).active == map[] && |RunningCalls(After(START, Churn(info, n)))| == n
  {
    ChurnRuns(info, n);
    LoopCount(info, n);
  }
}
