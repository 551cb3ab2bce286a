/**
 One direction of a connection under every interleaving of sends, arrivals, polls, abandoned receives and a close. What
 was sent comes out whole and in order exactly when no receive is abandoned with bytes in hand.
 */
module ChannelRuns {
  import opened Bytes
  import opened Crypto
  import opened Framing
  import opened Channel

  /** `Abandon` is what the loop of a connection does when it has a message to send while a receive waits. */
  datatype Step =
    | Send(p: Bytes, room: nat)
    | Arrive(count: nat)
    | Poll
    | Abandon
    | Close

  function Next(ci: Cipher, s: Pipe, step: Step): Pipe {
    match step
    case Send(p, room) => Sent(ci, s, p, room).0
    case Arrive(count) => Arrived(s, count)
    case Poll => Polled(ci, s).0
    case Abandon => Abandoned(s)
    case Close => s.(closed := true)
  }

  function After(ci: Cipher, s: Pipe, steps: seq<Step>): Pipe
    decreases |steps|
  {
    if steps == [] then s else After(ci, Next(ci, s, steps[0]), steps[1..])
  }

  /** Every receive that is abandoned in the run has taken nothing. */
  predicate EmptyHanded(ci: Cipher, s: Pipe, steps: seq<Step>)
    decreases |steps|
  {
    steps == [] || ((steps[0].Abandon? ==> s.taken == []) && EmptyHanded(ci, Next(ci, s, steps[0]), steps[1..]))
  }

  lemma {:induction false} AfterAppend(ci: Cipher, s: Pipe, a: seq<Step>, b: seq<Step>)
    ensures After(ci, s, a + b) == After(ci, After(ci, s, a), b)
    decreases |a|
  {
    if a == [] {
      assert a + b == b;
    } else {
      AfterAppend(ci, Next(ci, s, a[0]), a[1..], b);
      assert (a + b)[1..] == a[1..] + b;
    }
  }

  // ---------------------------------------------------------------------------------------
  // What holds while nothing is lost.

  /** The sealed form of messages `from..` of `ps`, each under its own number. */
  function SealedFrom(ci: Cipher, ps: seq<Bytes>, from: nat): (r: seq<Bytes>)
    requires from <= |ps|
    ensures |r| == |ps| - from
    decreases |ps| - from
  {
    if from == |ps| then [] else [ci.seal(from, ps[from])] + SealedFrom(ci, ps, from + 1)
  }

  /** Nothing, or a strict prefix of the frame of some message that can be sent. */
  ghost predicate Torn(ci: Cipher, t: Bytes) {
    t == [] || exists n: nat, p: Bytes :: Encrypt(ci, n, p).Ok? && t < Frame(ci.seal(n, p))
  }

  ghost predicate AllSendable(ps: seq<Bytes>) {
    |ps| <= NONCE_LIMIT && forall i :: 0 <= i < |ps| ==> |ps[i]| + AEAD_TAG_SIZE <= NOISE_MAX_MESSAGE
  }

  /** What follows the last whole frame: the remains of a failed write, until the end of the stream has been seen. */
  function Remains(s: Pipe): Bytes {
    if s.errors == [] then s.torn else []
  }

  ghost predicate CountersInStep(s: Pipe) {
    s.recvNonce == |s.got| && s.sendNonce >= |s.sent| && (!s.broken && !s.closed ==> s.sendNonce == |s.sent|)
  }

  /** Received in order, and no error but the end of a closed stream of which everything was received. */
  ghost predicate Faultless(s: Pipe) {
    && s.got <= s.sent
    && (forall i :: 0 <= i < |s.errors| ==> s.errors[i] == Stream(ConnectionClosed))
    && (s.errors != [] ==> s.closed && s.flight == [] && s.got == s.sent)
  }

  /** From the bytes in hand to those in flight there are exactly the frames not yet received, and what remains. */
  ghost predicate WireHolds(ci: Cipher, s: Pipe)
    requires |s.got| <= |s.sent|
  {
    s.taken + s.arrived + s.flight == Concat(SealedFrom(ci, s.sent, |s.got|)) + Remains(s)
  }

  ghost predicate Inv(ci: Cipher, s: Pipe) {
    && Faultless(s)
    && AllSendable(s.sent)
    && CountersInStep(s)
    && Torn(ci, s.torn) && (!s.broken ==> s.torn == [])
    && Waiting(s.taken, MAX_FRAME_SIZE)
    && WireHolds(ci, s)
  }

  lemma {:induction false} SealedPush(ci: Cipher, ps: seq<Bytes>, p: Bytes, from: nat)
    requires from <= |ps|
    ensures SealedFrom(ci, ps + [p], from) == SealedFrom(ci, ps, from) + [ci.seal(|ps|, p)]
    decreases |ps| - from
  {
    if from == |ps| {
      assert SealedFrom(ci, ps + [p], from + 1) == [];
    } else {
      SealedPush(ci, ps, p, from + 1);
    }
  }

  lemma WireGrows(ci: Cipher, s: Pipe, p: Bytes)
    requires |s.got| <= |s.sent| && WireHolds(ci, s) && Remains(s) == []
    ensures s.taken + s.arrived + (s.flight + Frame(ci.seal(|s.sent|, p)))
            == Concat(SealedFrom(ci, s.sent + [p], |s.got|))
  {
    var sealed := ci.seal(|s.sent|, p);
    SealedPush(ci, s.sent, p, |s.got|);
    ConcatAppend(SealedFrom(ci, s.sent, |s.got|), [sealed]);
    assert Concat([sealed]) == Frame(sealed) + Concat([]);
    assert s.taken + s.arrived + (s.flight + Frame(sealed)) == s.taken + s.arrived + s.flight + Frame(sealed);
  }

  lemma SendKeepsInv(ci: Cipher, s: Pipe, p: Bytes, room: nat)
    requires Correct(ci) && Inv(ci, s)
    ensures Inv(ci, Sent(ci, s, p, room).0)
  {
    if Encrypt(ci, s.sendNonce, p).Ok? && !s.broken && !s.closed {
      var frame, s' := Frame(ci.seal(s.sendNonce, p)), Sent(ci, s, p, room).0;
      if |frame| <= room {
        WireGrows(ci, s, p);
        var rest := Concat(SealedFrom(ci, s'.sent, |s.got|));
        assert rest + [] == rest;
      } else {
        assert s'.torn < frame;
        assert s.taken + s.arrived + (s.flight + s'.torn) == s.taken + s.arrived + s.flight + s'.torn;
        var rest := Concat(SealedFrom(ci, s.sent, |s.got|));
        assert rest + [] == rest;
      }
    }
  }

  /** A torn write never decodes to anything. */
  lemma TornWaits(ci: Cipher, t: Bytes)
    requires Correct(ci) && Torn(ci, t)
    ensures Waiting(t, MAX_FRAME_SIZE)
  {
    if t != [] {
      var n: nat, p: Bytes :| Encrypt(ci, n, p).Ok? && t < Frame(ci.seal(n, p));
      EncodeNeverPanics(ci, n, p);
      DecodeCutFrame(ci.seal(n, p), |t|, MAX_FRAME_SIZE);
      assert t == Frame(ci.seal(n, p))[..|t|];
    }
  }

  /** With messages outstanding, the bytes from the receive under way on start with the frame of the next one. */
  lemma NextOnWire(ci: Cipher, s: Pipe)
    requires Correct(ci) && Inv(ci, s) && |s.got| < |s.sent|
    ensures var k := |s.got|;
            var later := Concat(SealedFrom(ci, s.sent, k + 1)) + Remains(s);
            && DecodeOnce(s.taken + s.arrived + s.flight, MAX_FRAME_SIZE) == (Ok(ci.seal(k, s.sent[k])), later)
            && Decrypt(ci, s.recvNonce, ci.seal(k, s.sent[k])) == Ok(s.sent[k])
  {
    var k := |s.got|;
    var sealed, rest := ci.seal(k, s.sent[k]), Concat(SealedFrom(ci, s.sent, k + 1));
    assert SealedFrom(ci, s.sent, k)[1..] == SealedFrom(ci, s.sent, k + 1);
    assert Frame(sealed) + rest + Remains(s) == Frame(sealed) + (rest + Remains(s));
    DecodeFrame(sealed, rest + Remains(s), MAX_FRAME_SIZE);
  }

  /** With nothing outstanding, what there is does not decode. */
  lemma NothingOnWire(ci: Cipher, s: Pipe)
    requires Correct(ci) && Inv(ci, s) && |s.got| == |s.sent|
    ensures s.taken + s.arrived + s.flight == Remains(s)
    ensures Waiting(Remains(s), MAX_FRAME_SIZE)
  {
    assert [] + Remains(s) == Remains(s);
    TornWaits(ci, s.torn);
  }

  /**
   What a poll does when nothing was lost: the next plaintext, or waiting, or the end of the stream after the last.
   */
  ghost predicate GoodPoll(ci: Cipher, s: Pipe) {
    var (s', r) := Polled(ci, s);
    match r
    case None => s'.got == s.got
    case Some(Ok(p)) => |s.got| < |s.sent| && p == s.sent[|s.got|] && s'.got == s.got + [p]
    case Some(Err(e)) => e == Stream(ConnectionClosed) && s.closed && s.flight == [] && s.got == s.sent
  }

  /** A poll that finds a whole frame: it is the next one. */
  lemma PollYields(ci: Cipher, s: Pipe)
    requires Correct(ci) && Inv(ci, s) && !Waiting(s.taken + s.arrived, MAX_FRAME_SIZE)
    ensures Inv(ci, Polled(ci, s).0) && GoodPoll(ci, s)
  {
    var k := |s.got|;
    var rest := YieldIsNext(ci, s);
    var s' := s.(taken := [], arrived := rest, recvNonce := k + 1, got := s.got + [s.sent[k]]);
    assert Polled(ci, s) == (s', Some(Ok(s.sent[k])));
    assert s.sent[..k + 1] == s.got + [s.sent[k]];
    assert [] + rest + s.flight == rest + s.flight;
    assert WireHolds(ci, s');
  }

  lemma YieldIsNext(ci: Cipher, s: Pipe) returns (rest: Bytes)
    requires Correct(ci) && Inv(ci, s) && !Waiting(s.taken + s.arrived, MAX_FRAME_SIZE)
    ensures |s.got| < |s.sent|
    ensures DecodeOnce(s.taken + s.arrived, MAX_FRAME_SIZE) == (Ok(ci.seal(|s.got|, s.sent[|s.got|])), rest)
    ensures rest + s.flight == Concat(SealedFrom(ci, s.sent, |s.got| + 1)) + Remains(s)
    ensures Decrypt(ci, s.recvNonce, ci.seal(|s.got|, s.sent[|s.got|])) == Ok(s.sent[|s.got|])
  {
    rest := DecodeOnce(s.taken + s.arrived, MAX_FRAME_SIZE).1;
    DecodeMonotone(s.taken + s.arrived, s.flight, MAX_FRAME_SIZE);
    if |s.got| == |s.sent| {
      NothingOnWire(ci, s);
      assert false;
    }
    NextOnWire(ci, s);
  }

  /** A poll that finds none: it holds what there is, or everything has been received and the stream has ended. */
  lemma PollWaits(ci: Cipher, s: Pipe)
    requires Correct(ci) && Inv(ci, s) && Waiting(s.taken + s.arrived, MAX_FRAME_SIZE)
    ensures Inv(ci, Polled(ci, s).0) && GoodPoll(ci, s)
  {
    var w, s' := s.taken + s.arrived, Polled(ci, s).0;
    if s.closed && s.flight == [] {
      assert w + s.flight == w;
      if |s.got| < |s.sent| {
        NextOnWire(ci, s);
        assert false;
      }
      assert s' == s.(taken := [], arrived := [], errors := s.errors + [Stream(ConnectionClosed)]);
      assert [] + [] + s.flight == [] == Concat(SealedFrom(ci, s.sent, |s.got|)) + [];
    } else {
      assert s' == s.(taken := w, arrived := []);
      assert w + [] + s.flight == w + s.flight;
    }
  }

  lemma PollKeepsInv(ci: Cipher, s: Pipe)
    requires Correct(ci) && Inv(ci, s)
    ensures Inv(ci, Polled(ci, s).0) && GoodPoll(ci, s)
  {
    if Waiting(s.taken + s.arrived, MAX_FRAME_SIZE) {
      PollWaits(ci, s);
    } else {
      PollYields(ci, s);
    }
  }

  lemma ArriveKeepsInv(ci: Cipher, s: Pipe, count: nat)
    requires Inv(ci, s)
    ensures Inv(ci, Arrived(s, count))
  {
    var s' := Arrived(s, count);
    assert s'.taken + s'.arrived + s'.flight == s.taken + s.arrived + s.flight;
  }

  lemma StepKeepsInv(ci: Cipher, s: Pipe, step: Step)
    requires Correct(ci) && Inv(ci, s) && (step.Abandon? ==> s.taken == [])
    ensures Inv(ci, Next(ci, s, step))
  {
    match step
    case Send(p, room) => SendKeepsInv(ci, s, p, room);
    case Arrive(count) => ArriveKeepsInv(ci, s, count);
    case Poll => PollKeepsInv(ci, s);
    case Abandon => assert Abandoned(s) == s;
    case Close => assert WireHolds(ci, s.(closed := true));
  }

  lemma {:induction false} RunKeepsInv(ci: Cipher, s: Pipe, steps: seq<Step>)
    requires Correct(ci) && Inv(ci, s) && EmptyHanded(ci, s, steps)
    ensures Inv(ci, After(ci, s, steps))
    decreases |steps|
  {
    if steps != [] {
      StepKeepsInv(ci, s, steps[0]);
      RunKeepsInv(ci, Next(ci, s, steps[0]), steps[1..]);
    }
  }

  lemma EmptyInv(ci: Cipher)
    ensures Inv(ci, EMPTY)
  {
    assert Concat(SealedFrom(ci, [], 0)) + [] == [];
  }

  /**
   In every run in which no receive is abandoned with bytes in hand: what was received is what was sent, in order, up to
   what is on its way; the wire carries the frames outstanding and nothing more; the counters differ by exactly those
   frames while no write has failed; and the next poll waits, yields the next plaintext, or reports the end of a closed
   stream of which everything was received.
   */
  lemma ReceivedInOrder(ci: Cipher, steps: seq<Step>)
    requires Correct(ci) && EmptyHanded(ci, EMPTY, steps)
    ensures var s := After(ci, EMPTY, steps);
            && Faultless(s)
            && GoodPoll(ci, s)
            && s.recvNonce == |s.got|
            && (!s.broken && !s.closed ==>
                  && s.sendNonce - s.recvNonce == |s.sent| - |s.got|
                  && s.taken + s.arrived + s.flight == Concat(SealedFrom(ci, s.sent, |s.got|)))
  {
    EmptyInv(ci);
    RunKeepsInv(ci, EMPTY, steps);
    var s := After(ci, EMPTY, steps);
    PollKeepsInv(ci, s);
    var rest := Concat(SealedFrom(ci, s.sent, |s.got|));
    assert rest + [] == rest;
  }

  /** The plaintexts of the sends that were answered `Ok`, in order. */
  function AnsweredOk(ci: Cipher, s: Pipe, steps: seq<Step>): seq<Bytes>
    decreases |steps|
  {
    if steps == [] then [] else OwnAnswer(ci, s, steps[0]) + AnsweredOk(ci, Next(ci, s, steps[0]), steps[1..])
  }

  function OwnAnswer(ci: Cipher, s: Pipe, step: Step): seq<Bytes> {
    if step.Send? && Sent(ci, s, step.p, step.room).1.Ok? then [step.p] else []
  }

  /** In every run, what counts as sent is exactly what was answered `Ok`, in order. */
  lemma {:induction false} SentIsAnsweredOk(ci: Cipher, s: Pipe, steps: seq<Step>)
    requires Correct(ci)
    ensures After(ci, s, steps).sent == s.sent + AnsweredOk(ci, s, steps)
    decreases |steps|
  {
    if steps != [] {
      SentIsAnsweredOk(ci, Next(ci, s, steps[0]), steps[1..]);
      SentStep(ci, s, steps[0]);
      Associates(s.sent, OwnAnswer(ci, s, steps[0]), AnsweredOk(ci, Next(ci, s, steps[0]), steps[1..]));
    }
  }

  lemma SentStep(ci: Cipher, s: Pipe, step: Step)
    requires Correct(ci)
    ensures Next(ci, s, step).sent == s.sent + OwnAnswer(ci, s, step)
  {
    assert s.sent + [] == s.sent;
    if step.Send? {
      SendAnswers(ci, s, step.p, step.room);
    }
  }

  /**
   What a poll answers, in any state: a plaintext exactly when the bytes in hand and arrived start with a frame that
   opens to it under the receive counter; waiting exactly while no frame is whole and more may come; an error otherwise.
   */
  lemma PollAnswers(ci: Cipher, s: Pipe)
    ensures var (s', r) := Polled(ci, s);
            var eof := s.closed && s.flight == [];
            && (r == None <==> Waiting(s.taken + s.arrived, MAX_FRAME_SIZE) && !eof)
            && (forall p :: r == Some(Ok(p)) <==>
                  exists frame, rest :: Yields(ci, s, frame, rest, p))
            && (r.Some? && r.value.Ok? ==> s'.got == s.got + [r.value.value] && s'.recvNonce == s.recvNonce + 1
                                           && s'.errors == s.errors)
            && (r.Some? && r.value.Err? ==> s'.got == s.got && s'.recvNonce == s.recvNonce
                                            && s'.errors == s.errors + [r.value.error])
  {
    DecodeOnceMeans(s.taken + s.arrived, MAX_FRAME_SIZE);
    var (r, rest) := DecodeOnce(s.taken + s.arrived, MAX_FRAME_SIZE);
    if r.Ok? {
      DecryptAnswers(ci, s.recvNonce, r.value);
      assert StartsWith(s.taken + s.arrived, r.value, rest);
      forall p | Polled(ci, s).1 == Some(Ok(p)) ensures exists frame, rest :: Yields(ci, s, frame, rest, p) {
        assert Yields(ci, s, r.value, rest, p);
      }
    }
  }

  /** The bytes in hand and arrived start with a frame that opens to `p`. */
  ghost predicate Yields(ci: Cipher, s: Pipe, frame: Bytes, rest: Bytes, p: Bytes) {
    && StartsWith(s.taken + s.arrived, frame, rest) && |frame| <= 65535 && s.recvNonce < NONCE_LIMIT
    && ci.open(s.recvNonce, frame) == Some(p)
  }

  // ---------------------------------------------------------------------------------------
  // Everything comes out.

  function Polls(n: nat): (r: seq<Step>)
    ensures |r| == n
  {
    seq(n, _ => Poll)
  }

  /** Once all bytes have arrived, that many polls deliver the whole list, even after a failed write. */
  lemma {:induction false} DrainDeliversAll(ci: Cipher, s: Pipe)
    requires Correct(ci) && Inv(ci, s) && s.flight == []
    ensures After(ci, s, Polls(|s.sent| - |s.got|)).got == s.sent
    decreases |s.sent| - |s.got|
  {
    var n := |s.sent| - |s.got|;
    if n > 0 {
      assert s.taken + s.arrived + s.flight == s.taken + s.arrived;
      NextOnWire(ci, s);
      PollKeepsInv(ci, s);
      assert Polls(n)[1..] == Polls(n - 1);
      DrainDeliversAll(ci, Polled(ci, s).0);
    }
  }

  /** The rest of a run that lets all bytes arrive and then receives. */
  function CatchUp(s: Pipe): seq<Step>
    requires |s.got| <= |s.sent|
  {
    [Arrive(|s.flight|)] + Polls(|s.sent| - |s.got|)
  }

  lemma CatchUpDeliversAll(ci: Cipher, s: Pipe)
    requires Correct(ci) && Inv(ci, s)
    ensures After(ci, s, CatchUp(s)).got == s.sent
  {
    var s' := Next(ci, s, Arrive(|s.flight|));
    StepKeepsInv(ci, s, Arrive(|s.flight|));
    assert CatchUp(s)[1..] == Polls(|s.sent| - |s.got|);
    DrainDeliversAll(ci, s');
  }

  ghost predicate NoSends(steps: seq<Step>) {
    forall i :: 0 <= i < |steps| ==> !steps[i].Send?
  }

  /** What has been sent can still come out whole and in order. */
  ghost predicate Deliverable(ci: Cipher, s: Pipe) {
    exists more :: NoSends(more) && After(ci, s, more).got == s.sent
  }

  // ---------------------------------------------------------------------------------------
  // Bytes are conserved, so what an abandoned receive has taken is missed.

  /** How many bytes the frames of `ps` take. */
  function Cost(ps: seq<Bytes>): nat {
    if ps == [] then 0 else Cost(ps[..|ps| - 1]) + 4 + |ps[|ps| - 1]| + AEAD_TAG_SIZE
  }

  lemma CostPush(ps: seq<Bytes>, p: Bytes)
    ensures Cost(ps + [p]) == Cost(ps) + 4 + |p| + AEAD_TAG_SIZE
  {
    assert (ps + [p])[..|ps|] == ps;
  }

  /** Received, in hand, arrived, in flight and lost together are no more than what was written. */
  ghost predicate Conserved(s: Pipe) {
    && Cost(s.got) + |s.taken| + |s.arrived| + |s.flight| + s.lost <= Cost(s.sent) + |s.torn|
    && (!s.broken ==> s.torn == [])
  }

  lemma SendConserves(ci: Cipher, s: Pipe, p: Bytes, room: nat)
    requires Correct(ci) && Conserved(s)
    ensures Conserved(Sent(ci, s, p, room).0)
  {
    CostPush(s.sent, p);
  }

  /** What a poll changes: nothing but bytes that go, or the plaintext of a frame that goes. */
  lemma PollDelta(ci: Cipher, s: Pipe)
    requires TagLengths(ci)
    ensures var s' := Polled(ci, s).0;
            && s' == s.(taken := s'.taken, arrived := s'.arrived, got := s'.got, errors := s'.errors,
                        recvNonce := s'.recvNonce)
            && var before, after := |s.taken| + |s.arrived|, |s'.taken| + |s'.arrived|;
               if s'.got == s.got then after <= before
               else
                 && |s'.got| == |s.got| + 1 && s'.got == s.got + [s'.got[|s.got|]]
                 && after + 4 + |s'.got[|s.got|]| + AEAD_TAG_SIZE == before
  {
    PollSizes(s.taken, s.arrived, s.closed && s.flight == [], MAX_FRAME_SIZE);
  }

  lemma PollConserves(ci: Cipher, s: Pipe)
    requires TagLengths(ci) && Conserved(s)
    ensures Conserved(Polled(ci, s).0)
  {
    PollDelta(ci, s);
    var s' := Polled(ci, s).0;
    if s'.got != s.got {
      CostPush(s.got, s'.got[|s.got|]);
    }
  }

  lemma StepConserves(ci: Cipher, s: Pipe, step: Step)
    requires Correct(ci) && TagLengths(ci) && Conserved(s)
    ensures Conserved(Next(ci, s, step))
  {
    match step
    case Send(p, room) => SendConserves(ci, s, p, room);
    case Poll => PollConserves(ci, s);
    case _ =>
  }

  lemma {:induction false} RunConserves(ci: Cipher, s: Pipe, steps: seq<Step>)
    requires Correct(ci) && TagLengths(ci) && Conserved(s)
    ensures Conserved(After(ci, s, steps))
    decreases |steps|
  {
    if steps != [] {
      StepConserves(ci, s, steps[0]);
      RunConserves(ci, Next(ci, s, steps[0]), steps[1..]);
    }
  }

  /** Bytes are lost exactly by abandoning a receive with bytes in hand, and for good. */
  lemma {:induction false} LostIffNotEmptyHanded(ci: Cipher, s: Pipe, steps: seq<Step>)
    ensures After(ci, s, steps).lost >= s.lost
    ensures After(ci, s, steps).lost == s.lost <==> EmptyHanded(ci, s, steps)
    decreases |steps|
  {
    if steps != [] {
      LostIffNotEmptyHanded(ci, Next(ci, s, steps[0]), steps[1..]);
    }
  }

  /** Without sends nothing is added to what was written. */
  lemma {:induction false} NoSendsKeep(ci: Cipher, s: Pipe, steps: seq<Step>)
    requires NoSends(steps)
    ensures var s' := After(ci, s, steps); s'.sent == s.sent && s'.torn == s.torn && s'.broken == s.broken
    decreases |steps|
  {
    if steps != [] {
      assert !steps[0].Send?;
      NoSendsKeep(ci, Next(ci, s, steps[0]), steps[1..]);
    }
  }

  /** A state that has lost more than the remains of a failed write never delivers what was sent. */
  lemma LossIsForGood(ci: Cipher, s: Pipe)
    requires Correct(ci) && TagLengths(ci) && Conserved(s) && s.lost > |s.torn|
    ensures !Deliverable(ci, s)
  {
    forall more | NoSends(more) ensures After(ci, s, more).got != s.sent {
      RunConserves(ci, s, more);
      NoSendsKeep(ci, s, more);
      LostIffNotEmptyHanded(ci, s, more);
    }
  }

  /**
   In every run in which no write failed: what was sent was received in order and without error so far, and can still
   come out whole, exactly when no receive was abandoned with bytes in hand.
   */
  lemma WholeIffNeverAbandonedWithBytesInHand(ci: Cipher, steps: seq<Step>)
    requires Correct(ci) && TagLengths(ci)
    requires !After(ci, EMPTY, steps).broken
    ensures var s := After(ci, EMPTY, steps);
            Faultless(s) && Deliverable(ci, s) <==> EmptyHanded(ci, EMPTY, steps)
  {
    var s := After(ci, EMPTY, steps);
    LostIffNotEmptyHanded(ci, EMPTY, steps);
    if EmptyHanded(ci, EMPTY, steps) {
      EverythingSentIsReceived(ci, steps);
      ReceivedInOrder(ci, steps);
    } else {
      RunConserves(ci, EMPTY, steps);
      LossIsForGood(ci, s);
    }
  }

  /** Every plaintext sent in such a run, also one with a failed write, comes out once the reader has caught up. */
  lemma EverythingSentIsReceived(ci: Cipher, steps: seq<Step>)
    requires Correct(ci) && EmptyHanded(ci, EMPTY, steps)
    ensures var s := After(ci, EMPTY, steps);
            |s.got| <= |s.sent| && After(ci, s, CatchUp(s)).got == s.sent && Deliverable(ci, s)
  {
    EmptyInv(ci);
    RunKeepsInv(ci, EMPTY, steps);
    var s := After(ci, EMPTY, steps);
    CatchUpDeliversAll(ci, s);
    assert NoSends(CatchUp(s));
  }

  /** A receive that is left to run is such a run: polls and arrivals, nothing abandoned. */
  lemma {:induction false} ReceiveIsARun(ci: Cipher, s: Pipe, waits: seq<nat>) returns (steps: seq<Step>)
    ensures Receive(ci, s, waits).0 == After(ci, s, steps)
    ensures NoSends(steps) && EmptyHanded(ci, s, steps)
    decreases |waits|
  {
    var (s1, r) := Polled(ci, s);
    if r.Some? || waits == [] {
      steps := [Poll];
      assert steps[1..] == [];
    } else {
      var rest := ReceiveIsARun(ci, Arrived(s1, waits[0]), waits[1..]);
      steps := [Poll] + ([Arrive(waits[0])] + rest);
      assert steps[1..] == [Arrive(waits[0])] + rest && steps[1..][1..] == rest;
      assert After(ci, s1, [Arrive(waits[0])] + rest) == After(ci, Arrived(s1, waits[0]), rest);
      assert EmptyHanded(ci, s1, [Arrive(waits[0])] + rest);
    }
  }

  function Total(waits: seq<nat>): nat {
    if waits == [] then 0 else waits[0] + Total(waits[1..])
  }

  /**
   A receive that is left to run yields the next plaintext, however the bytes come in, once they have all come; and it
   never yields anything else while messages are outstanding.
   */
  lemma {:induction false} ReceiveYieldsNext(ci: Cipher, s: Pipe, waits: seq<nat>)
    requires Correct(ci) && Inv(ci, s) && |s.got| < |s.sent|
    ensures var (s', r) := Receive(ci, s, waits);
            && (r == None || r == Some(Ok(s.sent[|s.got|])))
            && (Total(waits) >= |s.flight| ==> r == Some(Ok(s.sent[|s.got|])) && s'.got == s.got + [s.sent[|s.got|]])
    decreases |waits|
  {
    PollOutstanding(ci, s);
    var (s1, r) := Polled(ci, s);
    if r == None && waits != [] {
      WaitOutstanding(ci, s1, waits[0]);
      ReceiveYieldsNext(ci, Arrived(s1, waits[0]), waits[1..]);
    }
  }

  /** With messages outstanding, a poll yields the next one, or waits because bytes are still in flight. */
  lemma PollOutstanding(ci: Cipher, s: Pipe)
    requires Correct(ci) && Inv(ci, s) && |s.got| < |s.sent|
    ensures var (s', r) := Polled(ci, s);
            && Inv(ci, s') && s'.sent == s.sent && s'.flight == s.flight
            && (r == None || r == Some(Ok(s.sent[|s.got|])))
            && (r == None ==> s'.got == s.got && |s.flight| > 0)
            && (r != None ==> s'.got == s.got + [s.sent[|s.got|]])
  {
    PollKeepsInv(ci, s);
    PollKeepsRest(ci, s);
    if s.flight == [] {
      ArrivedIsWhole(ci, s);
    }
  }

  lemma PollKeepsRest(ci: Cipher, s: Pipe)
    ensures var (s', r) := Polled(ci, s);
            s'.sent == s.sent && s'.flight == s.flight && (r == None ==> Waiting(s.taken + s.arrived, MAX_FRAME_SIZE))
  {
  }

  lemma ArrivedIsWhole(ci: Cipher, s: Pipe)
    requires Correct(ci) && Inv(ci, s) && |s.got| < |s.sent| && s.flight == []
    ensures !Waiting(s.taken + s.arrived, MAX_FRAME_SIZE)
  {
    assert s.taken + s.arrived + s.flight == s.taken + s.arrived;
    NextOnWire(ci, s);
  }

  lemma WaitOutstanding(ci: Cipher, s: Pipe, count: nat)
    requires Inv(ci, s)
    ensures var s' := Arrived(s, count);
            && Inv(ci, s') && s'.sent == s.sent && s'.got == s.got
            && |s'.flight| == if count <= |s.flight| then |s.flight| - count else 0
  {
    ArriveKeepsInv(ci, s, count);
  }

  // ---------------------------------------------------------------------------------------
  // Runs that fail.

  /** A message is sent, its first `k` bytes arrive, and the receive that took them is abandoned. */
  function CutShort(p: Bytes, k: nat): seq<Step> {
    [Send(p, 4 + |p| + AEAD_TAG_SIZE)] + ([Arrive(k)] + ([Poll] + ([Abandon] + [])))
  }

  lemma AfterCons(ci: Cipher, s: Pipe, step: Step, rest: seq<Step>)
    ensures After(ci, s, [step] + rest) == After(ci, Next(ci, s, step), rest)
  {
    assert ([step] + rest)[1..] == rest;
  }

  lemma CutShortState(ci: Cipher, p: Bytes, k: nat)
    requires Correct(ci) && |p| + AEAD_TAG_SIZE <= NOISE_MAX_MESSAGE && k < 4 + |p| + AEAD_TAG_SIZE
    ensures After(ci, EMPTY, CutShort(p, k)) ==
            EMPTY.(sendNonce := 1, sent := [p], flight := Frame(ci.seal(0, p))[k..], lost := k)
  {
    var frame := Frame(ci.seal(0, p));
    var s1 := EMPTY.(sendNonce := 1, sent := [p], flight := frame);
    assert [] + frame == frame && [] + [p] == [p];
    AfterCons(ci, EMPTY, Send(p, 4 + |p| + AEAD_TAG_SIZE), [Arrive(k)] + ([Poll] + ([Abandon] + [])));
    var s2 := s1.(flight := frame[k..], arrived := frame[..k]);
    assert [] + frame[..k] == frame[..k];
    AfterCons(ci, s1, Arrive(k), [Poll] + ([Abandon] + []));
    var s3 := s2.(arrived := [], taken := frame[..k]);
    DecodeCutFrame(ci.seal(0, p), k, MAX_FRAME_SIZE);
    AfterCons(ci, s2, Poll, [Abandon] + []);
    AfterCons(ci, s3, Abandon, []);
  }

  /** For every cipher, message and cut inside its frame: that message never comes out, whatever follows. */
  lemma CutShortIsLost(ci: Cipher, p: Bytes, k: nat)
    requires Correct(ci) && TagLengths(ci)
    requires |p| + AEAD_TAG_SIZE <= NOISE_MAX_MESSAGE && 0 < k < 4 + |p| + AEAD_TAG_SIZE
    ensures !Deliverable(ci, After(ci, EMPTY, CutShort(p, k)))
  {
    CutShortState(ci, p, k);
    RunConserves(ci, EMPTY, CutShort(p, k));
    LossIsForGood(ci, After(ci, EMPTY, CutShort(p, k)));
  }

  /** A cipher that puts a tag of one repeated byte in front. */
  function Tagged(b: byte): Cipher {
    var tag: Bytes := seq(AEAD_TAG_SIZE, _ => b);
    Cipher((n: nat, p: Bytes) => tag + p,
           (n: nat, f: Bytes) => if tag <= f then Some(f[AEAD_TAG_SIZE..]) else None)
  }

  /** The assumptions on ciphers are consistent. */
  lemma TaggedIsCorrect(b: byte)
    ensures Correct(Tagged(b)) && TagLengths(Tagged(b))
  {
    var ci := Tagged(b);
    var tag: Bytes := seq(AEAD_TAG_SIZE, _ => b);
    forall n: nat, p: Bytes
      ensures ci.open(n, ci.seal(n, p)) == Some(p) && |ci.seal(n, p)| == |p| + AEAD_TAG_SIZE
    {
      assert (tag + p)[..AEAD_TAG_SIZE] == tag && (tag + p)[AEAD_TAG_SIZE..] == p;
    }
  }

  /** A receive abandoned after four bytes: the next one reads its length in mid-frame and refuses it as too large. */
  lemma AbandoningLeadsToAnError() returns (ci: Cipher, steps: seq<Step>)
    ensures Correct(ci) && TagLengths(ci)
    ensures var s := After(ci, EMPTY, steps);
            s.sent == [[]] && s.got == [] && s.errors == [Stream(FrameTooLarge(0xFFFF_FFFF))]
  {
    ci := Tagged(255);
    TaggedIsCorrect(255);
    var sealed := ci.seal(0, []);
    steps := CutShort([], 4) + ([Arrive(|sealed|)] + ([Poll] + []));
    AfterAppend(ci, EMPTY, CutShort([], 4), [Arrive(|sealed|)] + ([Poll] + []));
    CutShortState(ci, [], 4);
    assert Frame(sealed)[4..] == sealed;
    AllOnes();
    assert sealed[..4] == [255, 255, 255, 255];
    NextReceiveFails(ci, EMPTY.(sendNonce := 1, sent := [[]], flight := sealed, lost := 4), 0xFFFF_FFFF);
  }

  /** The rest of a frame whose length prefix was lost, if its first bytes read as too large a length. */
  lemma NextReceiveFails(ci: Cipher, s: Pipe, len: nat)
    requires s.taken == s.arrived == [] && |s.flight| >= 4 && FromBE(s.flight[..4]) == len > MAX_FRAME_SIZE
    ensures After(ci, s, [Arrive(|s.flight|)] + ([Poll] + [])) ==
            s.(flight := [], arrived := s.flight[4..], errors := s.errors + [Stream(FrameTooLarge(len))])
  {
    var s' := s.(flight := [], arrived := s.flight);
    assert [] + s.flight[..|s.flight|] == s.flight && s.flight[|s.flight|..] == [];
    AfterCons(ci, s, Arrive(|s.flight|), [Poll] + []);
    AfterCons(ci, s', Poll, []);
    assert [] + s.flight == s.flight;
  }

  /** A cipher whose tag repeats the length prefix of an empty message, so that its stream has period four. */
  function Periodic(): Cipher {
    var tag := PERIOD + PERIOD + PERIOD + PERIOD;
    Cipher((n: nat, p: Bytes) => tag + p,
           (n: nat, f: Bytes) => if tag <= f then Some(f[AEAD_TAG_SIZE..]) else None)
  }

  const PERIOD: Bytes := [0, 0, 0, 16]

  lemma PeriodicIsCorrect()
    ensures Correct(Periodic()) && TagLengths(Periodic())
  {
    var ci, tag := Periodic(), PERIOD + PERIOD + PERIOD + PERIOD;
    forall n: nat, p: Bytes
      ensures ci.open(n, ci.seal(n, p)) == Some(p) && |ci.seal(n, p)| == |p| + AEAD_TAG_SIZE
    {
      assert (tag + p)[AEAD_TAG_SIZE..] == p;
    }
  }

  lemma PeriodIsSixteen()
    ensures ToBE(16, 4) == PERIOD
  {
    assert ToBE(16, 1) == [16] by { assert ToBE(0, 0) + [16] == [16]; }
    assert ToBE(0, 1) == [0] by { assert ToBE(0, 0) + [0] == [0]; }
    assert ToBE(0, 3) == ToBE(0, 2) + [0] == ToBE(0, 1) + [0] + [0];
    assert ToBE(16, 4) == ToBE(0, 3) + [16];
  }

  /**
   The equivalence needs its premise: after a failed write, what that write left behind can stand in for lost bytes.
   With a periodic stream, four bytes lost and four bytes left over, the message comes out as if nothing had happened.
   */
  lemma FailedWriteCanMakeUpForALoss() returns (ci: Cipher, steps: seq<Step>)
    ensures Correct(ci) && TagLengths(ci)
    ensures var s := After(ci, EMPTY, steps);
            && s.broken && !EmptyHanded(ci, EMPTY, steps)
            && Faultless(s) && s.got == s.sent == [[]]
  {
    ci := Periodic();
    PeriodicIsCorrect();
    PeriodIsSixteen();
    var sealed := ci.seal(0, []);
    var frame := PERIOD + PERIOD + PERIOD + PERIOD + PERIOD;
    assert sealed == PERIOD + PERIOD + PERIOD + PERIOD && Frame(sealed) == frame;
    var tail: seq<Step> := [Send([], 4)] + ([Arrive(20)] + ([Poll] + []));
    steps := CutShort([], 4) + tail;
    CutShortState(ci, [], 4);
    AfterAppend(ci, EMPTY, CutShort([], 4), tail);
    LostIffNotEmptyHanded(ci, EMPTY, steps);
    var s1 := EMPTY.(sendNonce := 1, sent := [[]], flight := frame[4..], lost := 4);
    MakeUp(ci, s1, frame);
  }

  lemma MakeUp(ci: Cipher, s: Pipe, frame: Bytes)
    requires ci == Periodic() && frame == PERIOD + PERIOD + PERIOD + PERIOD + PERIOD
    requires s == EMPTY.(sendNonce := 1, sent := [[]], flight := frame[4..], lost := 4)
    ensures After(ci, s, [Send([], 4)] + ([Arrive(20)] + ([Poll] + []))) ==
            s.(sendNonce := 2, recvNonce := 1, got := [[]], flight := [], torn := PERIOD, broken := true)
  {
    var s1 := s.(sendNonce := 2, flight := frame, torn := PERIOD, broken := true);
    SendPart(ci, s, frame);
    AfterCons(ci, s, Send([], 4), [Arrive(20)] + ([Poll] + []));
    var s2 := s1.(flight := [], arrived := frame);
    assert [] + frame[..20] == frame && frame[20..] == [];
    AfterCons(ci, s1, Arrive(20), [Poll] + []);
    TakeWhole(ci, s2, frame);
    AfterCons(ci, s2, Poll, []);
  }

  lemma SendPart(ci: Cipher, s: Pipe, frame: Bytes)
    requires ci == Periodic() && frame == PERIOD + PERIOD + PERIOD + PERIOD + PERIOD
    requires s.sendNonce == 1 && !s.broken && !s.closed && s.flight == frame[4..]
    ensures Sent(ci, s, [], 4).0 == s.(sendNonce := 2, flight := frame, torn := PERIOD, broken := true)
  {
    PeriodIsSixteen();
    var sealed := ci.seal(1, []);
    assert sealed == PERIOD + PERIOD + PERIOD + PERIOD && Frame(sealed) == frame;
    assert frame[..4] == PERIOD && frame[4..] + PERIOD == frame;
  }

  lemma TakeWhole(ci: Cipher, s: Pipe, frame: Bytes)
    requires ci == Periodic() && frame == PERIOD + PERIOD + PERIOD + PERIOD + PERIOD
    requires s.taken == [] && s.arrived == frame && s.recvNonce == 0 && s.got == []
    ensures Polled(ci, s).0 == s.(arrived := [], recvNonce := 1, got := [[]])
  {
    PeriodIsSixteen();
    PeriodicIsCorrect();
    var sealed := ci.seal(0, []);
    assert sealed == PERIOD + PERIOD + PERIOD + PERIOD && Frame(sealed) == frame;
    assert ci.open(0, sealed) == Some([]);
    DecodeFrame(sealed, [], MAX_FRAME_SIZE);
    assert Frame(sealed) + [] == frame && [] + frame == frame;
    assert s.got + [[]] == [[]];
  }

  lemma AllOnes()
    ensures FromBE([255, 255, 255, 255]) == 0xFFFF_FFFF
  {
    var s: Bytes := [255, 255, 255, 255];
    assert s[..3] == [255, 255, 255] && s[..3][..2] == [255, 255] && s[..3][..2][..1] == [255];
    assert FromBE(s[..3][..2][..1]) == 255;
    assert FromBE(s[..3][..2]) == 0xFFFF;
    assert FromBE(s[..3]) == 0xFF_FFFF;
  }
}
