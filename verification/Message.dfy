/** Messages: the delivery state machine, its timestamps, and the builder. Times are clock readings. */
module Message {
  import opened Bytes
  import opened Fingerprint

  const MAX_RECIPIENTS: nat := 50
  const MAX_MESSAGE_CONTENT_LEN: nat := 65536

  datatype MessageState =
    | Pending
    | Sending
    | Sent(sentAt: int)
    | Delivered(deliveredAt: int)
    | Read(readAt: int)
    | Failed(failedAt: int, retryable: bool)

  datatype ContentType = Text | Image | File | Voice

  predicate Valid(from: MessageState, to: MessageState) {
    match (from, to)
    case (Pending, Sending) => true
    case (Pending, Failed(_, _)) => true
    case (Sending, Sent(_)) => true
    case (Sending, Failed(_, _)) => true
    case (Sent(_), Delivered(_)) => true
    case (Sent(_), Failed(_, _)) => true
    case (Delivered(_), Read(_)) => true
    case (Delivered(_), Failed(_, _)) => true
    case (Failed(_, retryable), Pending) => retryable
    case _ => false
  }

  function TransitionTo(from: MessageState, to: MessageState): Result<MessageState, DomainError> {
    if Valid(from, to) then Ok(to) else Err(Validation)
  }

  datatype Message = Message(
    sender: Bytes20,
    recipients: seq<Bytes20>,
    content: Bytes,
    contentType: ContentType,
    state: MessageState,
    createdAt: int,
    sentAt: Option<int>,
    deliveredAt: Option<int>,
    readAt: Option<int>)

  function Stamped(m: Message): Message {
    match m.state
    case Sent(t) => m.(sentAt := Some(t))
    case Delivered(t) => m.(deliveredAt := Some(t))
    case Read(t) => m.(readAt := Some(t))
    case _ => m
  }

  function TransitionState(m: Message, to: MessageState): (Message, bool) {
    match TransitionTo(m.state, to)
    case Ok(s) => (Stamped(m.(state := s)), true)
    case Err(_) => (m, false)
  }

  /** The message object, whose state and timestamps change in place. */
  class MessageBox {
    const sender: Bytes20
    const recipients: seq<Bytes20>
    const content: Bytes
    const contentType: ContentType
    const createdAt: int
    var state: MessageState
    var sentAt: Option<int>
    var deliveredAt: Option<int>
    var readAt: Option<int>

    ghost function Model(): Message
      reads this
    {
      Message(sender, recipients, content, contentType, state, createdAt, sentAt, deliveredAt, readAt)
    }

    constructor (m: Message)
      ensures Model() == m
    {
      sender, recipients, createdAt := m.sender, m.recipients, m.createdAt;
      content, contentType := m.content, m.contentType;
      state, sentAt, deliveredAt, readAt := m.state, m.sentAt, m.deliveredAt, m.readAt;
    }

    method Snapshot() returns (m: Message)
      ensures m == Model()
    {
      m := Message(sender, recipients, content, contentType, state, createdAt, sentAt, deliveredAt, readAt);
    }

    method Transition(to: MessageState) returns (ok: bool)
      modifies this
      ensures (Model(), ok) == TransitionState(old(Model()), to)
    {
      var r := TransitionTo(state, to);
      if r.Err? {
        return false;
      }
      state := r.value;
      match state {
        case Sent(t) => sentAt := Some(t);
        case Delivered(t) => deliveredAt := Some(t);
        case Read(t) => readAt := Some(t);
        case _ =>
      }
      return true;
    }
  }

  // ---------------------------------------------------------------------------------------
  // Runs of transitions.

  function Run(m: Message, targets: seq<MessageState>): Message
    decreases |targets|
  {
    if targets == [] then m else Run(TransitionState(m, targets[0]).0, targets[1..])
  }

  /** How many of the requested transitions succeed. */
  function Successes(m: Message, targets: seq<MessageState>): nat
    decreases |targets|
  {
    if targets == [] then 0 else
      var (m', ok) := TransitionState(m, targets[0]);
      (if ok then 1 else 0) + Successes(m', targets[1..])
  }

  /** How many of those are resets of a retryable failure to `Pending`. */
  function Resets(m: Message, targets: seq<MessageState>): nat
    decreases |targets|
  {
    if targets == [] then 0 else
      var (m', ok) := TransitionState(m, targets[0]);
      (if ok && targets[0].Pending? then 1 else 0) + Resets(m', targets[1..])
  }

  function Rank(s: MessageState): nat {
    match s
    case Pending => 0
    case Sending => 1
    case Sent(_) => 2
    case Delivered(_) => 3
    case _ => 4
  }

  /**
   Every arrow of the diagram is open at every time, and there are no others: one step ahead or a failure, from a state
   that is not terminal, and back to `Pending` from a retryable failure.
   */
  lemma ArrowsAre(from: MessageState, to: MessageState)
    ensures TransitionTo(from, to) == Ok(to) <==>
            || (!IsTerminal(from) && (to.Failed? || Rank(to) == Rank(from) + 1))
            || (IsRetryable(from) && to.Pending?)
    ensures TransitionTo(from, to).Err? <==> TransitionTo(from, to) != Ok(to)
  {
  }

  /** Progress is bounded: from `Pending`, at most 4 transitions succeed, and at most 5 more per reset. */
  lemma {:induction false} SuccessesBounded(m: Message, targets: seq<MessageState>)
    ensures Rank(m.state) + Successes(m, targets) <= 5 * Resets(m, targets) + Rank(Run(m, targets).state)
    ensures m.state.Pending? ==> Successes(m, targets) <= 5 * Resets(m, targets) + 4
    decreases |targets|
  {
    if targets != [] {
      SuccessesBounded(TransitionState(m, targets[0]).0, targets[1..]);
    }
  }

  /** `r` failed attempts after delivery, each retried, then a delivery that is read. */
  function LongestRun(r: nat): seq<MessageState> {
    if r == 0 then [Sending, Sent(0), Delivered(0), Read(0)]
    else [Sending, Sent(0), Delivered(0), Failed(0, true), Pending] + LongestRun(r - 1)
  }

  /** The bound is attained for every number of resets. */
  lemma {:induction false} BoundIsAttained(m: Message, r: nat)
    requires m.state.Pending?
    ensures Resets(m, LongestRun(r)) == r && Successes(m, LongestRun(r)) == 5 * r + 4
    decreases r
  {
    var run := LongestRun(r);
    var m1 := TransitionState(m, run[0]).0;
    var m2 := TransitionState(m1, run[1]).0;
    var m3 := TransitionState(m2, run[2]).0;
    var m4 := TransitionState(m3, run[3]).0;
    assert run[1..][1..] == run[2..] && run[2..][1..] == run[3..] && run[3..][1..] == run[4..];
    assert Successes(m, run) == 1 + Successes(m1, run[1..]) == 2 + Successes(m2, run[2..])
        == 3 + Successes(m3, run[3..]) == 4 + Successes(m4, run[4..]);
    assert Resets(m, run) == Resets(m1, run[1..]) == Resets(m2, run[2..])
        == Resets(m3, run[3..]) == Resets(m4, run[4..]);
    if r == 0 {
      assert run[4..] == [];
    } else {
      assert run[4..][1..] == LongestRun(r - 1);
      BoundIsAttained(TransitionState(m4, run[4]).0, r - 1);
    }
  }

  predicate IsTerminal(s: MessageState) {
    s.Read? || s.Failed?
  }

  predicate IsRetryable(s: MessageState) {
    s.Failed? && s.retryable
  }

  /** No run of requested transitions changes the message. */
  ghost predicate Frozen(m: Message) {
    forall targets :: Run(m, targets) == m
  }

  lemma {:induction false} StaysPut(m: Message, targets: seq<MessageState>)
    requires IsTerminal(m.state) && !IsRetryable(m.state)
    ensures Run(m, targets) == m
    decreases |targets|
  {
    if targets != [] {
      StaysPut(m, targets[1..]);
    }
  }

  /** Terminal states are final exactly when they are not a retryable failure; all others can be left. */
  lemma FrozenIffFinal(m: Message)
    ensures Frozen(m) <==> IsTerminal(m.state) && !IsRetryable(m.state)
  {
    if IsTerminal(m.state) && !IsRetryable(m.state) {
      forall targets ensures Run(m, targets) == m {
        StaysPut(m, targets);
      }
    } else {
      var to := if IsRetryable(m.state) then Pending else Failed(0, true);
      assert [to][1..] == [];
      assert Run(m, [to]) == TransitionState(m, to).0;
      assert Run(m, [to]).state == to;
    }
  }

  /** The states taken since the message was created or last reset. */
  function Attempt(path: seq<MessageState>, m: Message, targets: seq<MessageState>): seq<MessageState>
    decreases |targets|
  {
    if targets == [] then path else
      var (m', ok) := TransitionState(m, targets[0]);
      var path' := if !ok then path else if targets[0].Pending? then [Pending] else path + [targets[0]];
      Attempt(path', m', targets[1..])
  }

  /** A path from `Pending` along the state diagram. */
  ghost predicate IsPath(path: seq<MessageState>) {
    && path != [] && path[0].Pending?
    && (forall i :: 0 < i < |path| ==> Valid(path[i - 1], path[i]) && !path[i].Pending?)
  }

  lemma {:induction false} AttemptIsPath(path: seq<MessageState>, m: Message, targets: seq<MessageState>)
    requires IsPath(path) && path[|path| - 1] == m.state
    ensures var p := Attempt(path, m, targets);
            IsPath(p) && p[|p| - 1] == Run(m, targets).state
    decreases |targets|
  {
    if targets != [] {
      var (m', ok) := TransitionState(m, targets[0]);
      var path' := if !ok then path else if targets[0].Pending? then [Pending] else path + [targets[0]];
      AttemptIsPath(path', m', targets[1..]);
    }
  }

  /** A delivered or read message went through `Sending` and `Sent` since its last reset, and nothing else before. */
  lemma DeliveredWasSent(m: Message, targets: seq<MessageState>)
    requires m.state.Pending?
    ensures var path := Attempt([Pending], m, targets);
            var s := Run(m, targets).state;
            && (s.Delivered? ==> |path| == 4 && path[1].Sending? && path[2].Sent? && path[3] == s)
            && (s.Read? ==> |path| == 5 && path[1].Sending? && path[2].Sent? && path[3].Delivered? && path[4] == s)
  {
    AttemptIsPath([Pending], m, targets);
    PathShape(Attempt([Pending], m, targets));
  }

  /** Along a path the rank of a state that is not a failure is its position. */
  lemma {:induction false} PathShape(path: seq<MessageState>)
    requires IsPath(path)
    ensures forall i :: 0 <= i < |path| && !path[i].Failed? ==> Rank(path[i]) == i
    ensures forall i :: 0 <= i < |path| - 1 ==> !path[i].Failed?
  {
    if |path| > 1 {
      var n := |path| - 1;
      PathShape(path[..n]);
      assert Valid(path[n - 1], path[n]) && !path[n].Pending?;
      if n > 1 {
        assert path[..n][n - 2] == path[n - 2];
      }
    }
  }

  /** What no transition touches. */
  ghost predicate SameLetter(a: Message, b: Message) {
    && a.sender == b.sender && a.recipients == b.recipients && a.content == b.content
    && a.contentType == b.contentType && a.createdAt == b.createdAt
  }

  /** The time fields agree with the states on the path, each as far as the path has come. */
  ghost predicate TimesOfPath(path: seq<MessageState>, m: Message) {
    forall i :: 0 <= i < |path| ==>
      && (path[i].Sent? ==> m.sentAt == Some(path[i].sentAt))
      && (path[i].Delivered? ==> m.deliveredAt == Some(path[i].deliveredAt))
      && (path[i].Read? ==> m.readAt == Some(path[i].readAt))
  }

  /** One transition: the letter stays, and a time field changes exactly to the time of the state it stands for. */
  lemma TransitionRecords(m: Message, to: MessageState)
    ensures var (m', ok) := TransitionState(m, to);
            && SameLetter(m, m')
            && (ok <==> TransitionTo(m.state, to).Ok?)
            && (!ok ==> m' == m)
            && (ok ==> m'.state == to
                       && m'.sentAt == (if to.Sent? then Some(to.sentAt) else m.sentAt)
                       && m'.deliveredAt == (if to.Delivered? then Some(to.deliveredAt) else m.deliveredAt)
                       && m'.readAt == (if to.Read? then Some(to.readAt) else m.readAt))
  {
  }

  /** Extending a path by a state of higher rank keeps the times of the states on it. */
  lemma PathRecords(path: seq<MessageState>, m: Message, to: MessageState)
    requires IsPath(path) && path[|path| - 1] == m.state && TimesOfPath(path, m)
    requires Valid(m.state, to) && !to.Pending?
    ensures TimesOfPath(path + [to], TransitionState(m, to).0)
  {
    var path', m' := path + [to], TransitionState(m, to).0;
    TransitionRecords(m, to);
    PathShape(path);
    forall i | 0 <= i < |path'|
      ensures && (path'[i].Sent? ==> m'.sentAt == Some(path'[i].sentAt))
              && (path'[i].Delivered? ==> m'.deliveredAt == Some(path'[i].deliveredAt))
              && (path'[i].Read? ==> m'.readAt == Some(path'[i].readAt))
    {
      assert i < |path| ==> path'[i] == path[i] && (!path[i].Failed? ==> Rank(path[i]) == i);
    }
  }

  /**
   In every run of a message, its sender, recipients, content and creation time stay, and the time fields that its state
   vouches for are the times of the very states it went through since its last reset.
   */
  lemma {:induction false} TimesAreOfThisAttempt(path: seq<MessageState>, m: Message, targets: seq<MessageState>)
    requires IsPath(path) && path[|path| - 1] == m.state && TimesOfPath(path, m)
    ensures SameLetter(m, Run(m, targets))
    ensures TimesOfPath(Attempt(path, m, targets), Run(m, targets))
    decreases |targets|
  {
    if targets != [] {
      var to := targets[0];
      var (m', ok) := TransitionState(m, to);
      TransitionRecords(m, to);
      var path' := if !ok then path else if to.Pending? then [Pending] else path + [to];
      if ok && !to.Pending? {
        PathRecords(path, m, to);
      }
      TimesAreOfThisAttempt(path', m', targets[1..]);
    }
  }

  // ---------------------------------------------------------------------------------------
  // Timestamps under the clock.

  /** The marking methods, each at a clock reading, and the reset of a retryable failure. */
  datatype Op =
    | MarkSending
    | MarkSent(now: int)
    | MarkDelivered(now: int)
    | MarkRead(now: int)
    | MarkFailed(now: int, retryable: bool)
    | Retry

  function Target(op: Op): MessageState {
    match op
    case MarkSending => Sending
    case MarkSent(now) => Sent(now)
    case MarkDelivered(now) => Delivered(now)
    case MarkRead(now) => Read(now)
    case MarkFailed(now, retryable) => Failed(now, retryable)
    case Retry => Pending
  }

  function Targets(ops: seq<Op>): (ts: seq<MessageState>)
    ensures |ts| == |ops| && forall i :: 0 <= i < |ops| ==> ts[i] == Target(ops[i])
  {
    seq(|ops|, i requires 0 <= i < |ops| => Target(ops[i]))
  }

  /** The clock reading at an operation; operations without one keep the previous reading. */
  function ClockAt(op: Op, before: int): int {
    if op.MarkSending? || op.Retry? then before else op.now
  }

  ghost predicate ClockNondecreasing(ops: seq<Op>, start: int)
    decreases |ops|
  {
    ops == [] || (start <= ClockAt(ops[0], start) && ClockNondecreasing(ops[1..], ClockAt(ops[0], start)))
  }

  /**
   The times that the current state vouches for, in order and equal to the fields, whatever earlier attempts left
   behind.
   */
  ghost predicate InOrder(m: Message, now: int) {
    && m.createdAt <= now
    && match m.state
       case Sent(t) => m.sentAt == Some(t) && m.createdAt <= t <= now
       case Delivered(t) => m.deliveredAt == Some(t) && m.sentAt.Some? && m.createdAt <= m.sentAt.value <= t <= now
       case Read(t) =>
         && m.readAt == Some(t) && m.deliveredAt.Some? && m.sentAt.Some?
         && m.createdAt <= m.sentAt.value <= m.deliveredAt.value <= t <= now
       case _ => true
  }

  lemma {:induction false} TimesStayInOrder(m: Message, ops: seq<Op>, start: int) returns (now: int)
    requires InOrder(m, start) && ClockNondecreasing(ops, start)
    ensures InOrder(Run(m, Targets(ops)), now)
    decreases |ops|
  {
    if ops == [] {
      now := start;
    } else {
      assert Targets(ops)[1..] == Targets(ops[1..]);
      now := TimesStayInOrder(TransitionState(m, Target(ops[0])).0, ops[1..], ClockAt(ops[0], start));
    }
  }

  /** Every run of marks and retries of a new message under a nondecreasing clock keeps its times in order. */
  lemma TimestampsConsistent(m: Message, ops: seq<Op>)
    requires m.state.Pending? && ClockNondecreasing(ops, m.createdAt)
    ensures var r := Run(m, Targets(ops));
            && (r.state.Sent? ==> r.sentAt == Some(r.state.sentAt) && r.createdAt <= r.state.sentAt)
            && (r.state.Delivered? ==>
                  && r.deliveredAt == Some(r.state.deliveredAt) && r.sentAt.Some?
                  && r.createdAt <= r.sentAt.value <= r.state.deliveredAt)
            && (r.state.Read? ==>
                  && r.readAt == Some(r.state.readAt) && r.sentAt.Some? && r.deliveredAt.Some?
                  && r.createdAt <= r.sentAt.value <= r.deliveredAt.value <= r.state.readAt)
  {
    var now := TimesStayInOrder(m, ops, m.createdAt);
  }

  // ---------------------------------------------------------------------------------------
  // The builder.

  /** Lexicographic order on bytes. */
  predicate Less(a: Bytes, b: Bytes) {
    b != [] && (a == [] || a[0] < b[0] || (a[0] == b[0] && Less(a[1..], b[1..])))
  }

  lemma {:induction false} LessTrichotomy(a: Bytes, b: Bytes)
    ensures Less(a, b) || a == b || Less(b, a)
    ensures !(Less(a, b) && Less(b, a)) && !(Less(a, b) && a == b)
  {
    if a != [] && b != [] {
      LessTrichotomy(a[1..], b[1..]);
      assert a == [a[0]] + a[1..] && b == [b[0]] + b[1..];
    }
  }

  lemma {:induction false} LessTransitive(a: Bytes, b: Bytes, c: Bytes)
    requires Less(a, b) && Less(b, c)
    ensures Less(a, c)
  {
    if a != [] && a[0] == b[0] == c[0] {
      LessTransitive(a[1..], b[1..], c[1..]);
    }
  }

  ghost predicate Ascending(s: seq<Bytes20>) {
    forall i, j :: 0 <= i < j < |s| ==> !Less(s[j], s[i])
  }

  ghost predicate StrictlyAscending(s: seq<Bytes20>) {
    forall i, j :: 0 <= i < j < |s| ==> Less(s[i], s[j])
  }

  function Insert(x: Bytes20, s: seq<Bytes20>): (r: seq<Bytes20>)
    ensures multiset(r) == multiset(s) + multiset{x}
  {
    if s == [] then [x]
    else if Less(s[0], x) then
      assert s == [s[0]] + s[1..];
      [s[0]] + Insert(x, s[1..])
    else [x] + s
  }

  /** `sort_by` on the bytes. */
  function Sort(s: seq<Bytes20>): (r: seq<Bytes20>)
    ensures multiset(r) == multiset(s)
  {
    if s == [] then [] else
      assert s == [s[0]] + s[1..];
      Insert(s[0], Sort(s[1..]))
  }

  /** `dedup`: of each stretch of equal neighbours, the first. */
  function Dedup(s: seq<Bytes20>): (r: seq<Bytes20>)
    ensures s != [] ==> r != [] && r[0] == s[0]
    ensures |r| <= |s|
    ensures forall x :: x in r <==> x in s
  {
    if |s| <= 1 then s
    else
      assert s == [s[0]] + s[1..];
      if s[0] == s[1] then Dedup(s[1..]) else [s[0]] + Dedup(s[1..])
  }

  datatype Builder = Builder(
    sender: Option<Bytes20>,
    recipients: seq<Bytes20>,
    content: Option<Bytes>,
    contentType: ContentType)

  function Build(b: Builder, now: int): Result<Message, DomainError> {
    if b.sender.None? then Err(Validation)
    else if b.recipients == [] then Err(Validation)
    else if |b.recipients| > MAX_RECIPIENTS then Err(ResourceLimit)
    else if b.content.None? then Err(Validation)
    else if b.content.value == [] then Err(Validation)
    else if |b.content.value| > MAX_MESSAGE_CONTENT_LEN then Err(ResourceLimit)
    else
      var recipients := Dedup(Sort(b.recipients));
      Ok(Message(b.sender.value, recipients, b.content.value, b.contentType, Pending, now, None, None, None))
  }

  lemma {:induction false} InsertAscending(x: Bytes20, s: seq<Bytes20>)
    requires Ascending(s)
    ensures Ascending(Insert(x, s))
  {
    if s != [] && Less(s[0], x) {
      var r := Insert(x, s[1..]);
      InsertAscending(x, s[1..]);
      LessTrichotomy(s[0], x);
      forall j | 0 <= j < |r| ensures !Less(r[j], s[0]) {
        assert r[j] in multiset(r);
        if r[j] != x {
          assert r[j] in multiset(s[1..]);
          assert r[j] in s[1..];
        }
      }
    } else if s != [] {
      forall j | 0 <= j < |s| ensures !Less(s[j], x) {
        if Less(s[j], x) {
          AtMost(x, s[0], s[j]);
        }
      }
    }
  }

  lemma AtMost(x: Bytes20, y: Bytes20, z: Bytes20)
    requires !Less(y, x) && Less(z, x)
    ensures Less(z, y)
  {
    LessTrichotomy(y, x);
    if Less(x, y) {
      LessTransitive(z, x, y);
    }
  }

  lemma {:induction false} SortAscending(s: seq<Bytes20>)
    ensures Ascending(Sort(s))
  {
    if s != [] {
      SortAscending(s[1..]);
      InsertAscending(s[0], Sort(s[1..]));
    }
  }

  lemma {:induction false} DedupStrict(s: seq<Bytes20>)
    requires Ascending(s)
    ensures StrictlyAscending(Dedup(s))
  {
    if |s| > 1 {
      DedupStrict(s[1..]);
      var r := Dedup(s[1..]);
      if s[0] != s[1] {
        LessTrichotomy(s[0], s[1]);
        forall j | 0 <= j < |r| ensures Less(s[0], r[j]) {
          if j > 0 {
            LessTransitive(s[0], r[0], r[j]);
          }
        }
      }
    }
  }

  lemma HeadNotInTail(s: seq<Bytes20>)
    requires StrictlyAscending(s) && s != []
    ensures s[0] !in s[1..]
  {
    LessTrichotomy(s[0], s[0]);
    assert forall j :: 0 <= j < |s| - 1 ==> s[1..][j] == s[j + 1] && Less(s[0], s[j + 1]);
  }

  /** A strictly ascending list is determined by its elements. */
  lemma {:induction false} StrictlyAscendingUnique(s: seq<Bytes20>, t: seq<Bytes20>)
    requires StrictlyAscending(s) && StrictlyAscending(t)
    requires forall x :: x in s <==> x in t
    ensures s == t
  {
    assert s != [] ==> s[0] in t;
    assert t != [] ==> t[0] in s;
    if s != [] && t != [] {
      LessTrichotomy(s[0], t[0]);
      assert s[0] == t[0];
      HeadNotInTail(s);
      HeadNotInTail(t);
      assert s == [s[0]] + s[1..] && t == [t[0]] + t[1..];
      forall x ensures x in s[1..] <==> x in t[1..] {
        assert x in s <==> x in t;
      }
      StrictlyAscendingUnique(s[1..], t[1..]);
    }
  }

  /** The recipients of a built message: 1 to 50 of them, each once, in order, exactly those given. */
  lemma BuiltRecipients(b: Builder, now: int)
    requires Build(b, now).Ok?
    ensures var r := Build(b, now).value.recipients;
            1 <= |r| <= MAX_RECIPIENTS && StrictlyAscending(r) && forall x :: x in r <==> x in b.recipients
  {
    var sorted := Sort(b.recipients);
    SortAscending(b.recipients);
    DedupStrict(sorted);
    assert |multiset(sorted)| == |multiset(b.recipients)|;
    forall x: Bytes20 ensures x in sorted <==> x in b.recipients {
      assert x in multiset(sorted) <==> x in multiset(b.recipients);
    }
  }

  /** Builders that name the same recipients, in any order and however often, build the same list. */
  lemma RecipientsCanonical(a: Builder, b: Builder, now: int)
    requires Build(a, now).Ok? && Build(b, now).Ok?
    requires forall x :: x in a.recipients <==> x in b.recipients
    ensures Build(a, now).value.recipients == Build(b, now).value.recipients
  {
    BuiltRecipients(a, now);
    BuiltRecipients(b, now);
    StrictlyAscendingUnique(Build(a, now).value.recipients, Build(b, now).value.recipients);
  }

  /** Which builders build, and what: a pending letter with exactly the given sender, content and type. */
  lemma BuildAnswers(b: Builder, now: int)
    ensures Build(b, now).Ok? <==>
            && b.sender.Some? && b.content.Some?
            && 1 <= |b.recipients| <= 50 && 1 <= |b.content.value| <= 65536
    ensures Build(b, now).Ok? ==>
              var m := Build(b, now).value;
              && m.sender == b.sender.value && m.content == b.content.value && m.contentType == b.contentType
              && m.state == Pending && m.createdAt == now
              && m.sentAt == m.deliveredAt == m.readAt == None
    ensures Build(b, now) == Err(ResourceLimit) <==>
            && b.sender.Some?
            && (|b.recipients| > 50 || (b.recipients != [] && b.content.Some? && |b.content.value| > 65536))
    ensures Build(b, now).Err? ==> Build(b, now).error in {Validation, ResourceLimit}
  {
  }
}
