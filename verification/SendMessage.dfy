/**
 The send-message use case: validation, rate limit, encryption, write-through storage, and delivery with
 exponential backoff. Storage and network are ports whose every behaviour is covered.
 */
module SendMessage {
  import opened Bytes
  import opened Fingerprint
  import opened Message
  import RateLimit

  const MAX_RETRIES: nat := 3
  const BASE_BACKOFF_MS: nat := 500
  const MAX_CONTENT_BYTES: nat := 65536

  datatype Request = Request(recipientFingerprint: Bytes, content: Bytes, contentType: ContentType)

  datatype AppError = InvalidRequest | Domain | Network | Persistence | Security | PeerNotFound | RateLimited

  /** A save succeeds, or reports an error after all, with or without having reached the store. */
  datatype SaveOutcome = Done | Failing(stored: bool)

  datatype SendOutcome = Accepted | PeerDisconnected | Backpressure | OtherError

  /** What the ports and the clock do in one execution. */
  datatype Env = Env(
    sender: Bytes20,
    encrypt: Bytes -> Option<Bytes>,
    firstSave: SaveOutcome,
    resolveError: Option<AppError>,
    connects: bool,
    sends: nat -> SendOutcome,
    lastSave: SaveOutcome,
    createdAt: int,
    finishedAt: int)

  /** The visible effects, in order. Stopping at an await leaves a prefix of them. */
  datatype Effect =
    | Save(message: Message, result: SaveOutcome)
    | Resolve(ok: bool)
    | Connect(ok: bool)
    | Send(bytes: Bytes, outcome: SendOutcome)
    | Sleep(ms: nat)

  class Ports {
    const env: Env
    var trace: seq<Effect>
    var attempts: nat

    constructor (env: Env)
      ensures this.env == env && trace == [] && attempts == 0
    {
      this.env, trace, attempts := env, [], 0;
    }

    method SaveMessage(m: Message, outcome: SaveOutcome) returns (ok: bool)
      modifies this`trace
      ensures trace == old(trace) + [Save(m, outcome)] && ok == outcome.Done?
    {
      trace := trace + [Save(m, outcome)];
      ok := outcome.Done?;
    }

    method ResolveAddress() returns (error: Option<AppError>)
      modifies this`trace
      ensures trace == old(trace) + [Resolve(env.resolveError.None?)] && error == env.resolveError
    {
      trace := trace + [Resolve(env.resolveError.None?)];
      error := env.resolveError;
    }

    method ConnectTo() returns (ok: bool)
      modifies this`trace
      ensures trace == old(trace) + [Connect(env.connects)] && ok == env.connects
    {
      trace := trace + [Connect(env.connects)];
      ok := env.connects;
    }

    method SendToPeer(bytes: Bytes) returns (outcome: SendOutcome)
      modifies this`trace, this`attempts
      ensures outcome == env.sends(old(attempts)) && attempts == old(attempts) + 1
      ensures trace == old(trace) + [Send(bytes, outcome)]
    {
      outcome := env.sends(attempts);
      attempts := attempts + 1;
      trace := trace + [Send(bytes, outcome)];
    }

    method SleepFor(ms: nat)
      modifies this`trace
      ensures trace == old(trace) + [Sleep(ms)]
    {
      trace := trace + [Sleep(ms)];
    }
  }

  function Pow2(n: nat): nat {
    if n == 0 then 1 else 2 * Pow2(n - 1)
  }

  /** The attempts from number `attempt` on: their effects, and whether one got through. */
  function Attempts(sends: nat -> SendOutcome, bytes: Bytes, attempt: nat): (seq<Effect>, bool)
    requires attempt <= MAX_RETRIES
    decreases MAX_RETRIES - attempt
  {
    var outcome := sends(attempt);
    if outcome.Accepted? then ([Send(bytes, outcome)], true)
    else if attempt < MAX_RETRIES then
      var (later, ok) := Attempts(sends, bytes, attempt + 1);
      ([Send(bytes, outcome), Sleep(BASE_BACKOFF_MS * Pow2(attempt))] + later, ok)
    else ([Send(bytes, outcome)], false)
  }

  /** `send_with_retry` on a message: the message afterwards, the result, and the effects. */
  function Delivery(env: Env, m: Message, bytes: Bytes): (Message, Result<(), AppError>, seq<Effect>) {
    var (m1, begun) := TransitionState(m, Sending);
    if !begun then (m, Err(Domain), [])
    else if env.resolveError.Some? then (m1, Err(env.resolveError.value), [Resolve(false)])
    else if !env.connects then (m1, Err(Network), [Resolve(true), Connect(false)])
    else
      var (effects, ok) := Attempts(env.sends, bytes, 0);
      var (m2, moved) := TransitionState(m1, if ok then Sent(env.finishedAt) else Failed(env.finishedAt, true));
      var result := if !moved then Err(Domain) else if ok then Ok(()) else Err(Network);
      (m2, result, [Resolve(true), Connect(true)] + effects)
  }

  /** The effects of `k` refused attempts, each followed by its sleep. */
  function Tried(sends: nat -> SendOutcome, bytes: Bytes, k: nat): seq<Effect> {
    if k == 0 then []
    else Tried(sends, bytes, k - 1) + [Send(bytes, sends(k - 1)), Sleep(BASE_BACKOFF_MS * Pow2(k - 1))]
  }

  lemma {:induction false} AttemptsAfterTried(sends: nat -> SendOutcome, bytes: Bytes, k: nat)
    requires k <= MAX_RETRIES && forall i :: 0 <= i < k ==> !sends(i).Accepted?
    ensures Attempts(sends, bytes, 0) ==
            (Tried(sends, bytes, k) + Attempts(sends, bytes, k).0, Attempts(sends, bytes, k).1)
  {
    if k == 0 {
      assert [] + Attempts(sends, bytes, k).0 == Attempts(sends, bytes, k).0;
    } else {
      AttemptsAfterTried(sends, bytes, k - 1);
      var tried, pair := Tried(sends, bytes, k - 1), [Send(bytes, sends(k - 1)), Sleep(BASE_BACKOFF_MS * Pow2(k - 1))];
      assert tried + pair + Attempts(sends, bytes, k).0 == tried + (pair + Attempts(sends, bytes, k).0);
    }
  }

  /** The retry loop. It leaves only through an accepted send or the last refused one. */
  method RetryLoop(ports: Ports, bytes: Bytes) returns (ok: bool)
    requires ports.attempts == 0
    modifies ports
    ensures ports.trace == old(ports.trace) + Attempts(ports.env.sends, bytes, 0).0
    ensures ok == Attempts(ports.env.sends, bytes, 0).1
  {
    for attempt := 0 to MAX_RETRIES + 1
      invariant attempt <= MAX_RETRIES && ports.attempts == attempt
      invariant forall i :: 0 <= i < attempt ==> !ports.env.sends(i).Accepted?
      invariant ports.trace == old(ports.trace) + Tried(ports.env.sends, bytes, attempt)
    {
      var outcome := ports.SendToPeer(bytes);
      if outcome.Accepted? || attempt == MAX_RETRIES {
        AttemptsAfterTried(ports.env.sends, bytes, attempt);
        ghost var start, tried := old(ports.trace), Tried(ports.env.sends, bytes, attempt);
        assert start + tried + [Send(bytes, outcome)] == start + (tried + [Send(bytes, outcome)]);
        return outcome.Accepted?;
      }
      ports.SleepFor(BASE_BACKOFF_MS * Pow2(attempt));
    }
    assert false;
  }

  method SendWithRetry(ports: Ports, msg: MessageBox, bytes: Bytes) returns (r: Result<(), AppError>)
    requires ports.attempts == 0
    modifies ports, msg
    ensures var (m, result, effects) := Delivery(ports.env, old(msg.Model()), bytes);
            msg.Model() == m && r == result && ports.trace == old(ports.trace) + effects
  {
    var begun := msg.Transition(Sending);
    if !begun {
      return Err(Domain);
    }
    var error := ports.ResolveAddress();
    if error.Some? {
      return Err(error.value);
    }
    var connected := ports.ConnectTo();
    if !connected {
      return Err(Network);
    }
    var ok := RetryLoop(ports, bytes);
    var moved := msg.Transition(if ok then Sent(ports.env.finishedAt) else Failed(ports.env.finishedAt, true));
    return if !moved then Err(Domain) else if ok then Ok(()) else Err(Network);
  }

  function ValidateRequest(q: Request): bool {
    q.recipientFingerprint != [] && q.content != [] && |q.content| <= MAX_CONTENT_BYTES
  }

  /** "send:" and the formatted fingerprint. */
  function RateKey(fp: Bytes20): Bytes {
    [115, 101, 110, 100, 58] + Formatted(fp)
  }

  function Built(env: Env, q: Request, fp: Bytes20, ciphertext: Bytes): Result<Message, DomainError> {
    Build(Builder(Some(env.sender), [fp], Some(ciphertext), q.contentType), env.createdAt)
  }

  /** `execute`, after the rate limiter has given its verdict. */
  function Execution(env: Env, q: Request, fp: Bytes20): (Result<Message, AppError>, seq<Effect>) {
    match env.encrypt(q.content)
    case None => (Err(Security), [])
    case Some(ciphertext) =>
      match Built(env, q, fp, ciphertext)
      case Err(_) => (Err(Domain), [])
      case Ok(m) =>
        var first := Save(m, env.firstSave);
        if !env.firstSave.Done? then (Err(Persistence), [first]) else
          var (m', result, effects) := Delivery(env, m, ciphertext);
          var all := [first] + effects + [Save(m', env.lastSave)];
          (if env.lastSave.Done? then Ok(m') else Err(Persistence), all)
  }

  /** `execute`: the limiter's state, the answer, and the effects. */
  function Answer(env: Env, cfg: RateLimit.Config, limits: RateLimit.State, q: Request, now: int)
    : (RateLimit.State, Result<Message, AppError>, seq<Effect>)
  {
    if !ValidateRequest(q) then (limits, Err(InvalidRequest), []) else
      match FromHex(q.recipientFingerprint)
      case Err(_) => (limits, Err(InvalidRequest), [])
      case Ok(fp) =>
        var (limits', allowed) := RateLimit.CheckStep(cfg, limits, RateKey(fp), now);
        if !allowed then (limits', Err(RateLimited), []) else
          var (r, effects) := Execution(env, q, fp);
          (limits', r, effects)
  }

  method Execute(
    ports: Ports, limiter: RateLimit.RateLimiter, q: Request, now: int) returns (r: Result<Message, AppError>)
    requires ports.trace == [] && ports.attempts == 0
    modifies ports, limiter
    ensures (limiter.state, r, ports.trace) == Answer(ports.env, limiter.config, old(limiter.state), q, now)
  {
    if !ValidateRequest(q) {
      return Err(InvalidRequest);
    }
    var parsed := ParseHex(q.recipientFingerprint);
    if parsed.Err? {
      return Err(InvalidRequest);
    }
    var fp := parsed.value;
    var allowed := limiter.Check(RateKey(fp), now);
    if !allowed {
      return Err(RateLimited);
    }
    var ciphertext := ports.env.encrypt(q.content);
    if ciphertext.None? {
      return Err(Security);
    }
    var built := Built(ports.env, q, fp, ciphertext.value);
    if built.Err? {
      return Err(Domain);
    }
    var msg := new MessageBox(built.value);
    var saved := ports.SaveMessage(built.value, ports.env.firstSave);
    assert ports.trace == [Save(built.value, ports.env.firstSave)];
    if !saved {
      return Err(Persistence);
    }
    var sent := SendWithRetry(ports, msg, ciphertext.value);
    var final := msg.Snapshot();
    saved := ports.SaveMessage(final, ports.env.lastSave);
    return if saved then Ok(final) else Err(Persistence);
  }

  // ---------------------------------------------------------------------------------------
  // Retries.

  function SendCount(effects: seq<Effect>): nat {
    if effects == [] then 0 else (if effects[0].Send? then 1 else 0) + SendCount(effects[1..])
  }

  function SleepTotal(effects: seq<Effect>): nat {
    if effects == [] then 0 else (if effects[0].Sleep? then effects[0].ms else 0) + SleepTotal(effects[1..])
  }

  /** The first attempt, from `attempt` on, that the network accepts; `MAX_RETRIES + 1` if none is. */
  function FirstAccepted(sends: nat -> SendOutcome, attempt: nat): (k: nat)
    requires attempt <= MAX_RETRIES + 1
    ensures attempt <= k <= MAX_RETRIES + 1
    decreases MAX_RETRIES + 1 - attempt
  {
    if attempt == MAX_RETRIES + 1 || sends(attempt).Accepted? then attempt else FirstAccepted(sends, attempt + 1)
  }

  lemma {:induction false} FirstAcceptedIsFirst(sends: nat -> SendOutcome, attempt: nat)
    requires attempt <= MAX_RETRIES + 1
    ensures var k := FirstAccepted(sends, attempt);
            && (forall i :: attempt <= i < k ==> !sends(i).Accepted?)
            && (k <= MAX_RETRIES ==> sends(k).Accepted?)
    decreases MAX_RETRIES + 1 - attempt
  {
    if attempt <= MAX_RETRIES && !sends(attempt).Accepted? {
      FirstAcceptedIsFirst(sends, attempt + 1);
    }
  }

  /** Counting over a list with a new head. */
  lemma CountCons(e: Effect, rest: seq<Effect>)
    ensures SendCount([e] + rest) == (if e.Send? then 1 else 0) + SendCount(rest)
    ensures SleepTotal([e] + rest) == (if e.Sleep? then e.ms else 0) + SleepTotal(rest)
  {
    assert ([e] + rest)[1..] == rest;
  }

  lemma CountTwo(e: Effect, f: Effect, rest: seq<Effect>)
    ensures SendCount([e, f] + rest) == (if e.Send? then 1 else 0) + (if f.Send? then 1 else 0) + SendCount(rest)
    ensures SleepTotal([e, f] + rest) ==
            (if e.Sleep? then e.ms else 0) + (if f.Sleep? then f.ms else 0) + SleepTotal(rest)
  {
    CountCons(f, rest);
    CountCons(e, [f] + rest);
    assert [e] + ([f] + rest) == [e, f] + rest;
  }

  /** The last attempt made from `a` on: the first accepted one, or the last there is. */
  function LastAttempt(sends: nat -> SendOutcome, a: nat): (last: nat)
    requires a <= MAX_RETRIES
    ensures a <= last <= MAX_RETRIES
  {
    var k := FirstAccepted(sends, a);
    if k <= MAX_RETRIES then k else MAX_RETRIES
  }

  lemma {:induction false} AttemptsCost(sends: nat -> SendOutcome, bytes: Bytes, a: nat)
    requires a <= MAX_RETRIES
    ensures var effects, last := Attempts(sends, bytes, a).0, LastAttempt(sends, a);
            && SendCount(effects) == last - a + 1
            && SleepTotal(effects) == BASE_BACKOFF_MS * (Pow2(last) - Pow2(a))
    decreases MAX_RETRIES - a
  {
    if sends(a).Accepted? || a == MAX_RETRIES {
      CountCons(Send(bytes, sends(a)), []);
      assert [Send(bytes, sends(a))] + [] == [Send(bytes, sends(a))];
    } else {
      AttemptsCost(sends, bytes, a + 1);
      CountTwo(Send(bytes, sends(a)), Sleep(BASE_BACKOFF_MS * Pow2(a)), Attempts(sends, bytes, a + 1).0);
      assert Pow2(a + 1) == 2 * Pow2(a);
    }
  }

  lemma {:induction false} AttemptsEnd(sends: nat -> SendOutcome, bytes: Bytes, a: nat)
    requires a <= MAX_RETRIES
    ensures var (effects, ok) := Attempts(sends, bytes, a);
            && (ok <==> FirstAccepted(sends, a) <= MAX_RETRIES)
            && effects != [] && effects[|effects| - 1] == Send(bytes, sends(LastAttempt(sends, a)))
    decreases MAX_RETRIES - a
  {
    if !sends(a).Accepted? && a < MAX_RETRIES {
      AttemptsEnd(sends, bytes, a + 1);
    }
  }

  /**
   From attempt `a` on: one send per attempt up to the first accepted one, or up to the last; the sleeps double,
   so they add up to a difference of powers of two; and success means that some attempt was accepted.
   */
  lemma AttemptsSummary(sends: nat -> SendOutcome, bytes: Bytes, a: nat)
    requires a <= MAX_RETRIES
    ensures var (effects, ok) := Attempts(sends, bytes, a);
            var k := FirstAccepted(sends, a);
            var last := if k <= MAX_RETRIES then k else MAX_RETRIES;
            && (ok <==> k <= MAX_RETRIES)
            && SendCount(effects) == last - a + 1
            && SleepTotal(effects) == BASE_BACKOFF_MS * (Pow2(last) - Pow2(a))
            && effects != [] && effects[|effects| - 1] == Send(bytes, sends(last))
  {
    AttemptsCost(sends, bytes, a);
    AttemptsEnd(sends, bytes, a);
  }

  /** Where a pending message ends up, by what the ports did. */
  lemma DeliveryState(env: Env, m: Message, bytes: Bytes)
    requires m.state.Pending?
    ensures var (m', r, _) := Delivery(env, m, bytes);
            var reached := env.resolveError.None? && env.connects;
            var ok := Attempts(env.sends, bytes, 0).1;
            && m'.state ==
               (if !reached then Sending else if ok then Sent(env.finishedAt) else Failed(env.finishedAt, true))
            && (r.Ok? <==> reached && ok)
  {
  }

  lemma DeliveryCounts(env: Env, m: Message, bytes: Bytes)
    requires m.state.Pending?
    ensures var effects := Delivery(env, m, bytes).2;
            var reached := env.resolveError.None? && env.connects;
            && (!reached ==> SendCount(effects) == 0 && SleepTotal(effects) == 0)
            && (reached ==>
                  && SendCount(effects) == SendCount(Attempts(env.sends, bytes, 0).0)
                  && SleepTotal(effects) == SleepTotal(Attempts(env.sends, bytes, 0).0))
  {
    CountTwo(Resolve(true), Connect(true), Attempts(env.sends, bytes, 0).0);
    CountCons(Resolve(false), []);
    CountTwo(Resolve(true), Connect(false), []);
    assert [Resolve(true), Connect(false)] + [] == [Resolve(true), Connect(false)];
    assert [Resolve(false)] + [] == [Resolve(false)];
  }

  /**
   Delivery of a pending message, for every behaviour of the ports. At most `MAX_RETRIES + 1` sends; `k` failed
   attempts followed by a sleep cost `500 * (2^k - 1)` ms. The message ends `Sent` exactly when the last send was
   accepted, `Failed` and retryable exactly when all sends were refused, and `Sending` exactly when the address or
   the connection was not to be had.
   */
  lemma DeliveryOutcome(env: Env, m: Message, bytes: Bytes)
    requires m.state.Pending?
    ensures var (m', r, effects) := Delivery(env, m, bytes);
            var reached := env.resolveError.None? && env.connects;
            var k := FirstAccepted(env.sends, 0);
            var slept := if k <= MAX_RETRIES then k else MAX_RETRIES;
            && SendCount(effects) <= 4
            && (!reached <==> m'.state == Sending)
            && (!reached ==> SendCount(effects) == 0 && SleepTotal(effects) == 0 && r.Err?)
            && (reached ==>
                  SendCount(effects) == slept + 1 && SleepTotal(effects) == BASE_BACKOFF_MS * (Pow2(slept) - 1))
            && (reached && k <= MAX_RETRIES <==> m'.state == Sent(env.finishedAt))
            && (reached && k == MAX_RETRIES + 1 <==> m'.state == Failed(env.finishedAt, true))
            && (r.Ok? <==> m'.state.Sent?)
  {
    DeliveryState(env, m, bytes);
    DeliveryCounts(env, m, bytes);
    AttemptsSummary(env.sends, bytes, 0);
  }

  // ---------------------------------------------------------------------------------------
  // Write-through, wherever the execution stops.

  predicate Reached(e: Effect) {
    e.Save? && (e.result.Done? || e.result.stored)
  }

  /** Each send is preceded by a save of the message with those bytes that reached the store. */
  ghost predicate StoredBeforeSent(trace: seq<Effect>) {
    forall i :: 0 <= i < |trace| && trace[i].Send? ==>
      exists j :: 0 <= j < i && Reached(trace[j]) && trace[j].message.content == trace[i].bytes
  }

  predicate AcceptedSendOf(e: Effect, m: Message) {
    e.Send? && e.outcome.Accepted? && e.bytes == m.content
  }

  /** Each copy in the store that says `Sent` was saved after an accepted send of that message. */
  ghost predicate SentMeansSent(trace: seq<Effect>) {
    forall i :: 0 <= i < |trace| && Reached(trace[i]) && trace[i].message.state.Sent? ==>
      exists j :: 0 <= j < i && AcceptedSendOf(trace[j], trace[i].message)
  }

  /** Sends carry the given bytes, and nothing is saved during delivery. */
  ghost predicate OnlySends(effects: seq<Effect>, bytes: Bytes) {
    forall i :: 0 <= i < |effects| ==> !effects[i].Save? && (effects[i].Send? ==> effects[i].bytes == bytes)
  }

  lemma {:induction false} AttemptsOnlySend(sends: nat -> SendOutcome, bytes: Bytes, a: nat)
    requires a <= MAX_RETRIES
    ensures OnlySends(Attempts(sends, bytes, a).0, bytes)
    decreases MAX_RETRIES - a
  {
    if !sends(a).Accepted? && a < MAX_RETRIES {
      AttemptsOnlySend(sends, bytes, a + 1);
    }
  }

  lemma DeliveryEffects(env: Env, m: Message, bytes: Bytes)
    requires m.state.Pending?
    ensures var (m', r, effects) := Delivery(env, m, bytes);
            && OnlySends(effects, bytes)
            && m'.content == m.content
            && (m'.state.Sent? ==> effects != [] && effects[|effects| - 1] == Send(bytes, Accepted))
  {
  }

  /**
   At every point of every execution, so also when it stops at any await or when a save fails: no bytes went out
   before the message was in the store, and no copy in the store says `Sent` unless a send of it was accepted.
   */
  lemma WriteThrough(env: Env, q: Request, fp: Bytes20, stop: nat)
    requires stop <= |Execution(env, q, fp).1|
    ensures StoredBeforeSent(Execution(env, q, fp).1[..stop])
    ensures SentMeansSent(Execution(env, q, fp).1[..stop])
  {
    var trace := Execution(env, q, fp).1;
    var ciphertext := env.encrypt(q.content);
    if ciphertext.Some? && Built(env, q, fp, ciphertext.value).Ok? && env.firstSave.Done? {
      var m := Built(env, q, fp, ciphertext.value).value;
      var (m', _, effects) := Delivery(env, m, ciphertext.value);
      DeliveryEffects(env, m, ciphertext.value);
      WriteThroughShape(m, m', env.lastSave, effects, ciphertext.value, trace[..stop]);
    }
  }

  lemma WriteThroughShape(
    m: Message, m': Message, lastSave: SaveOutcome, effects: seq<Effect>, bytes: Bytes, prefix: seq<Effect>)
    requires OnlySends(effects, bytes) && m.content == m'.content == bytes && m.state.Pending?
    requires m'.state.Sent? ==> effects != [] && effects[|effects| - 1] == Send(bytes, Accepted)
    requires prefix <= [Save(m, Done)] + effects + [Save(m', lastSave)]
    ensures StoredBeforeSent(prefix) && SentMeansSent(prefix)
  {
    var trace := [Save(m, Done)] + effects + [Save(m', lastSave)];
    assert forall i :: 0 <= i < |prefix| ==> prefix[i] == trace[i];
    assert forall i :: 0 < i < |trace| - 1 ==> trace[i] == effects[i - 1];
    forall i | 0 <= i < |prefix| && prefix[i].Send?
      ensures exists j :: 0 <= j < i && Reached(prefix[j]) && prefix[j].message.content == prefix[i].bytes
    {
      assert i > 0 && Reached(prefix[0]) && prefix[0].message.content == prefix[i].bytes;
    }
    forall i | 0 <= i < |prefix| && Reached(prefix[i]) && prefix[i].message.state.Sent?
      ensures exists j :: 0 <= j < i && AcceptedSendOf(prefix[j], prefix[i].message)
    {
      assert i == |trace| - 1;
      assert prefix[i - 1] == effects[|effects| - 1];
    }
  }

  // ---------------------------------------------------------------------------------------
  // What an execution answers, and what it carries.

  /**
   Which requests are refused before anything happens: no 40 digits for a recipient, no content, or too much of it.
   */
  predicate Malformed(q: Request) {
    |Digits(q.recipientFingerprint)| != 40 || q.content == [] || |q.content| > 65536
  }

  /**
   A request is refused as invalid exactly when it is malformed, and then neither the limiter nor the ports notice; it
   is refused as rate limited exactly when it is not, and the limiter refuses the recipient's key.
   */
  lemma RefusedRequests(env: Env, cfg: RateLimit.Config, limits: RateLimit.State, q: Request, now: int)
    ensures var (limits', r, effects) := Answer(env, cfg, limits, q, now);
            && (r == Err(InvalidRequest) <==> Malformed(q))
            && (Malformed(q) ==> limits' == limits && effects == [])
            && (!Malformed(q) ==>
                  && FromHex(q.recipientFingerprint).Ok?
                  && var fp := FromHex(q.recipientFingerprint).value;
                     var (after, allowed) := RateLimit.CheckStep(cfg, limits, RateKey(fp), now);
                     && limits' == after
                     && (r == Err(RateLimited) <==> !allowed)
                     && (!allowed ==> effects == [])
                     && (allowed ==> (r, effects) == Execution(env, q, fp)))
  {
    FromHexDependsOnFoldedDigits(q.recipientFingerprint, q.recipientFingerprint);
    assert q.recipientFingerprint == [] ==> Digits(q.recipientFingerprint) == [];
  }

  /** Different recipients never share a limit. */
  lemma RateKeyInjective(a: Bytes20, b: Bytes20)
    requires RateKey(a) == RateKey(b)
    ensures a == b
  {
    SplitEqual([115, 101, 110, 100, 58], [115, 101, 110, 100, 58], Formatted(a), Formatted(b));
    PrintedFormsParse(a);
    PrintedFormsParse(b);
  }

  /** So a request leaves the stored attempts of every other recipient as they were. */
  lemma OtherRecipientsKeepTheirLimit(
    env: Env, cfg: RateLimit.Config, limits: RateLimit.State, q: Request, now: int, other: Bytes20)
    requires FromHex(q.recipientFingerprint) != Ok(other)
    ensures RateLimit.EntriesOf(Answer(env, cfg, limits, q, now).0, RateKey(other)) ==
            RateLimit.EntriesOf(limits, RateKey(other))
  {
    if FromHex(q.recipientFingerprint).Ok? && RateKey(FromHex(q.recipientFingerprint).value) == RateKey(other) {
      RateKeyInjective(FromHex(q.recipientFingerprint).value, other);
    }
  }

  lemma DeliveryKeepsLetter(env: Env, m: Message, bytes: Bytes)
    ensures SameLetter(m, Delivery(env, m, bytes).0)
  {
    var (m1, begun) := TransitionState(m, Sending);
    TransitionRecords(m, Sending);
    TransitionRecords(m1, Sent(env.finishedAt));
    TransitionRecords(m1, Failed(env.finishedAt, true));
  }

  /**
   A letter from us to `fp` alone, of the requested type, that holds what encryption made of the requested content.
   */
  ghost predicate IsRequested(env: Env, q: Request, fp: Bytes20, m: Message) {
    && m.sender == env.sender && m.recipients == [fp] && m.contentType == q.contentType && m.createdAt == env.createdAt
    && env.encrypt(q.content) == Some(m.content)
  }

  /** Every save is of the requested letter, and every send carries what encryption made of the requested content. */
  ghost predicate CarriesRequested(env: Env, q: Request, fp: Bytes20, trace: seq<Effect>) {
    forall i :: 0 <= i < |trace| ==>
      && (trace[i].Save? ==> IsRequested(env, q, fp, trace[i].message))
      && (trace[i].Send? ==> env.encrypt(q.content) == Some(trace[i].bytes))
  }

  lemma BuiltIsRequested(env: Env, q: Request, fp: Bytes20, ciphertext: Bytes)
    requires env.encrypt(q.content) == Some(ciphertext) && Built(env, q, fp, ciphertext).Ok?
    ensures IsRequested(env, q, fp, Built(env, q, fp, ciphertext).value)
    ensures Built(env, q, fp, ciphertext).value.state == Pending
  {
    var b := Builder(Some(env.sender), [fp], Some(ciphertext), q.contentType);
    BuildAnswers(b, env.createdAt);
    BuiltRecipients(b, env.createdAt);
    StrictlyAscendingUnique(Build(b, env.createdAt).value.recipients, [fp]);
  }

  /** In every execution, only what encryption returned for the request is stored or sent, as the requested letter. */
  lemma ExecutionCarriesRequested(env: Env, q: Request, fp: Bytes20)
    ensures CarriesRequested(env, q, fp, Execution(env, q, fp).1)
  {
    var ciphertext := env.encrypt(q.content);
    if ciphertext.Some? && Built(env, q, fp, ciphertext.value).Ok? {
      var m := Built(env, q, fp, ciphertext.value).value;
      BuiltIsRequested(env, q, fp, ciphertext.value);
      if env.firstSave.Done? {
        DeliveryKeepsLetter(env, m, ciphertext.value);
        DeliveryEffects(env, m, ciphertext.value);
      }
    }
  }

  /**
   What an execution answers: the message as it ended, exactly when encryption and building succeeded and both saves
   were done, and its last effect is the save of that very message. Otherwise the first of these that failed.
   */
  lemma ExecutionAnswers(env: Env, q: Request, fp: Bytes20)
    ensures var (r, trace) := Execution(env, q, fp);
            var ciphertext := env.encrypt(q.content);
            var buildable := ciphertext.Some? && 1 <= |ciphertext.value| <= 65536;
            && (r.Ok? <==> buildable && env.firstSave.Done? && env.lastSave.Done?)
            && (r.Ok? ==> trace != [] && trace[|trace| - 1] == Save(r.value, Done))
            && (r == Err(Security) <==> ciphertext == None)
            && (r == Err(Domain) <==> ciphertext.Some? && !buildable)
            && (r == Err(Persistence) <==> buildable && !(env.firstSave.Done? && env.lastSave.Done?))
            && (trace == [] <==> !buildable)
            && (buildable && !env.firstSave.Done? ==> |trace| == 1)
  {
    if env.encrypt(q.content).Some? {
      BuildAnswers(Builder(Some(env.sender), [fp], env.encrypt(q.content), q.contentType), env.createdAt);
    }
  }

  /** The effects of attempts `a` to `last`, one by one: sends at the even places, the doubling sleeps between them. */
  ghost predicate Alternate(effects: seq<Effect>, sends: nat -> SendOutcome, bytes: Bytes, a: nat, last: nat) {
    && a <= last && |effects| == 2 * (last - a) + 1
    && (forall k :: 0 <= k < |effects| ==> effects[k] == EffectAt(sends, bytes, a, k))
  }

  function EffectAt(sends: nat -> SendOutcome, bytes: Bytes, a: nat, k: nat): Effect {
    if k % 2 == 0 then Send(bytes, sends(a + k / 2)) else Sleep(500 * Pow2(a + k / 2))
  }

  lemma AlternateCons(later: seq<Effect>, sends: nat -> SendOutcome, bytes: Bytes, a: nat, last: nat)
    requires Alternate(later, sends, bytes, a + 1, last)
    ensures Alternate([Send(bytes, sends(a)), Sleep(500 * Pow2(a))] + later, sends, bytes, a, last)
  {
    var effects := [Send(bytes, sends(a)), Sleep(500 * Pow2(a))] + later;
    forall k | 0 <= k < |effects| ensures effects[k] == EffectAt(sends, bytes, a, k) {
      if k >= 2 {
        assert effects[k] == later[k - 2] == EffectAt(sends, bytes, a + 1, k - 2);
        assert (k - 2) / 2 + 1 == k / 2;
      }
    }
  }

  lemma {:induction false} AttemptsAlternate(sends: nat -> SendOutcome, bytes: Bytes, a: nat)
    requires a <= MAX_RETRIES
    ensures Alternate(Attempts(sends, bytes, a).0, sends, bytes, a, LastAttempt(sends, a))
    decreases MAX_RETRIES - a
  {
    if !sends(a).Accepted? && a < MAX_RETRIES {
      AttemptsAlternate(sends, bytes, a + 1);
      AlternateCons(Attempts(sends, bytes, a + 1).0, sends, bytes, a, LastAttempt(sends, a + 1));
    }
  }

  /** Delivery resolves, then connects, then makes the attempts, each only if the one before succeeded. */
  lemma DeliveryOrder(env: Env, m: Message, bytes: Bytes)
    requires m.state.Pending?
    ensures var effects := Delivery(env, m, bytes).2;
            && |effects| >= 1 && effects[0] == Resolve(env.resolveError.None?)
            && (|effects| >= 2 <==> env.resolveError.None?)
            && (|effects| >= 2 ==> effects[1] == Connect(env.connects))
            && (|effects| > 2 <==> env.resolveError.None? && env.connects)
            && (|effects| > 2 ==> effects[2..] == Attempts(env.sends, bytes, 0).0)
  {
    AttemptsAlternate(env.sends, bytes, 0);
  }

  /**
   How a delivery fails: a message that cannot be sent, the error of the address, no connection, or no accepted send.
   */
  lemma DeliveryErrors(env: Env, m: Message, bytes: Bytes)
    ensures var (m', r, effects) := Delivery(env, m, bytes);
            && (!m.state.Pending? ==> m' == m && r == Err(Domain) && effects == [])
            && (m.state.Pending? && env.resolveError.Some? ==> r == Err(env.resolveError.value))
            && (m.state.Pending? && env.resolveError.None? && !env.connects ==> r == Err(Network))
            && (m.state.Pending? && env.resolveError.None? && env.connects ==>
                  r == (if FirstAccepted(env.sends, 0) <= 3 then Ok(()) else Err(Network)))
  {
    if m.state.Pending? {
      DeliveryOutcome(env, m, bytes);
    }
  }
}
