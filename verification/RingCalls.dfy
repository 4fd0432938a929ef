/** One call of __read_queue under interference: what it takes from the ring, what an oversized packet costs,
    and the two situations in which a party that waits is not told. */
module RingCalls {
  import opened Packets
  import opened RingProtocol
  import opened RingInvariant
  import opened RingTheorems

  /** What a finished call has done, n being the number of packets published when it sampled write_idx. */
  ghost predicate Result(exit: Exit, n: nat, was: History, now: History)
    requires Recorded(now)
  {
    match exit
    case Fresh => false
    case Empty => now.taken == was.taken && now.delivered == was.delivered
    case Delivered =>
      && was.taken < |now.log| && now.taken == was.taken + 1
      && now.delivered == was.delivered + [Receipt(was.taken, now.log[was.taken])]
    case Stopped =>
      && now.taken == was.taken < |now.log| && now.delivered == was.delivered
      && Framed(now.log[was.taken]) && Announced(now.log[was.taken][0]) == 0
    case Dropped(_) =>
      && was.taken < |now.log| && Framed(now.log[was.taken]) && Oversized(now.log[was.taken])
      && now.taken == n && now.delivered == was.delivered
  }

  /** The reader is inside, or has just finished, a call that sampled write_idx when n packets were published. */
  ghost predicate InCall(s: State, n: nat, was: History)
    requires Recorded(s.past)
  {
    var begun := s.past.taken == was.taken && s.past.delivered == was.delivered;
    match s.reader
    case RStart => false
    case RSampled(_, upTo) => begun && upTo == n
    case RArmed(_, upTo) => begun && upTo == n
    case RDisarm(_, upTo) => begun && upTo == n
    case RHead(_, upTo) => begun && upTo == n
    case RCopying(_, _) => begun
    case RCompare(to) => begun && (!to.good ==> to.upTo == n)
    case RRequest(to, _) => begun && (!to.good ==> to.upTo == n)
    case RRelease(to, _) => begun && (!to.good ==> to.upTo == n)
    case RFinish(exit) => Result(exit, n, was, s.past)
    case RIdle(exit) => Result(exit, n, was, s.past)
  }

  lemma HeadStaysInCall(s: State, n: nat, was: History)
    requires Inv(s) && InCall(s, n, was) && s.reader.RHead?
    ensures InCall(ReaderStep(s), n, was)
  {
    WordAt(s.sh, s.past, 0);
    assert Framed(s.past.log[s.past.taken]);
  }

  lemma ReleaseStaysInCall(s: State, n: nat, was: History)
    requires Inv(s) && Inv(ReaderStep(s)) && InCall(s, n, was) && s.reader.RRelease?
    ensures InCall(ReaderStep(s), n, was)
  {
    assert Framed(s.past.log[s.past.taken]);
  }

  lemma RestStaysInCall(s: State, n: nat, was: History)
    requires Inv(s) && Recorded(ReaderStep(s).past) && InCall(s, n, was) && !s.reader.RHead? && !s.reader.RRelease?
    ensures InCall(ReaderStep(s), n, was)
  {
  }

  lemma ReaderStaysInCall(s: State, n: nat, was: History)
    requires Inv(s) && InCall(s, n, was)
    ensures Inv(ReaderStep(s)) && InCall(ReaderStep(s), n, was)
  {
    ReaderKeepsInv(s);
    match s.reader {
      case RHead(_, _) => HeadStaysInCall(s, n, was);
      case RRelease(_, _) => ReleaseStaysInCall(s, n, was);
      case _ => RestStaysInCall(s, n, was);
    }
  }

  lemma OthersStayInCall(s: State, a: Action, n: nat, was: History)
    requires Inv(s) && InCall(s, n, was) && (a.Submit? || a.WriterMoves?)
    ensures Inv(Step(s, a)) && InCall(Step(s, a), n, was)
  {
    StepKeepsInv(s, a);
    StepHistory(s, a);
  }

  /** Whatever the writer does meanwhile, a call ends in one of four ways: empty, the oldest packet, a zero
      size word that changes nothing, or an oversized packet together with exactly the packets published
      before the call sampled write_idx. */
  lemma {:induction false} ReadCall(s: State, schedule: seq<Action>, n: nat, was: History)
    requires Inv(s) && InCall(s, n, was) && Poll !in schedule
    ensures var t := Run(s, schedule); Inv(t) && InCall(t, n, was)
    decreases |schedule|
  {
    if schedule != [] {
      assert schedule[0] in schedule;
      assert forall a <- schedule[1..] :: a in schedule;
      if schedule[0] == ReaderMoves {
        ReaderStaysInCall(s, n, was);
      } else {
        OthersStayInCall(s, schedule[0], n, was);
      }
      ReadCall(Step(s, schedule[0]), schedule[1..], n, was);
    }
  }

  /** After an oversized packet the reader has passed exactly what was published before its sample; the rest
      stays readable. The oversized packet itself goes if and only if the ring was not empty at the sample:
      when it is found by the second look at write_idx it is still at the head afterwards. */
  lemma Resync(s: State, schedule: seq<Action>)
    requires Inv(s) && s.reader == RStart && Poll !in schedule
    ensures var t := Run(ReaderStep(s), schedule);
            Inv(t) &&
            (t.reader.RIdle? && t.reader.exit.Dropped? ==>
               && t.past.taken == |s.past.log|
               && (t.past.taken > s.past.taken <==> s.sh.readIdx != s.sh.writeIdx)
               && (s.sh.readIdx == s.sh.writeIdx ==>
                     t.past.taken < |t.past.log| && |t.past.log[t.past.taken]| > 0
                     && Oversized(t.past.log[t.past.taken])))
  {
    ReaderKeepsInv(s);
    ReadCall(ReaderStep(s), schedule, |s.past.log|, s.past);
    BoundsGrow(s.past, s.past.taken, |s.past.log|);
    SameSlotIfEqual(s.past.bounds[s.past.taken], Total(s.past), |s.sh.mem|);
  }

  /** A reader on its way out of a call that met an oversized packet, after it has stored rx_req. */
  ghost predicate Leaving(s: State, to: Outcome, more: bool) {
    match s.reader
    case RRelease(o, m) => o == to && m == more
    case RFinish(exit) => exit == Dropped(more) && s.past.taken == to.upTo
    case RIdle(exit) => exit == Dropped(more) && s.past.taken == to.upTo
    case _ => false
  }

  lemma LeavingStep(s: State, a: Action, to: Outcome, more: bool)
    requires Inv(s) && Leaving(s, to, more) && !to.good && a != Poll
    ensures var t := Step(s, a);
            && t.isMessage == s.isMessage && Leaving(t, to, more) && |s.past.log| <= |t.past.log|
            && (s.reader.RIdle? ==> t.reader == s.reader)
            && (more ==> t.past.reported == s.past.reported)
            && (!more && s.isMessage ==> (t.past.reported || t.writer == WPublished <==>
                                           s.past.reported || s.writer == WPublished || |t.past.log| > |s.past.log|))
  {
    match a {
      case ReaderMoves =>
      case _ =>
    }
  }

  // Once rx_req is stored the writer reports exactly what it publishes, or has published and not yet looked; or,
  // with rx_req clear, nothing.
  lemma {:induction false} WhileLeaving(s: State, schedule: seq<Action>, to: Outcome, more: bool)
    requires Inv(s) && Leaving(s, to, more) && !to.good && Poll !in schedule
    ensures var t := Run(s, schedule);
            && Inv(t) && t.isMessage == s.isMessage && Leaving(t, to, more) && |s.past.log| <= |t.past.log|
            && (s.reader.RIdle? ==> t.reader == s.reader)
            && (more ==> t.past.reported == s.past.reported)
            && (!more && s.isMessage ==> (t.past.reported || t.writer == WPublished <==>
                                           s.past.reported || s.writer == WPublished || |t.past.log| > |s.past.log|))
    decreases |schedule|
  {
    if schedule != [] {
      assert schedule[0] in schedule;
      assert forall a <- schedule[1..] :: a in schedule;
      StepKeepsInv(s, schedule[0]);
      LeavingStep(s, schedule[0], to, more);
      WhileLeaving(Step(s, schedule[0]), schedule[1..], to, more);
    }
  }

  /** Packets wait, and the writer has neither reported rx_req_is_set nor is about to sample it set. */
  predicate Unwoken(s: State) {
    s.past.taken < |s.past.log| && !s.past.reported && !(s.writer == WPublished && s.sh.rxReq)
  }

  /** When a message queue is left without a wakeup after an oversized packet, decided by the moment the reader
      stores rx_req. Packets newer than the ones it drops must be there, and none reported since the call began; and
      either the compare before the store saw newer packets, or none is published after the store and the writer has
      no published one still to sample rx_req for. */
  lemma UnwokenExactly(s: State, schedule: seq<Action>, to: Outcome, more: bool)
    requires Inv(s) && s.isMessage && s.reader == RRequest(to, more) && !to.good && Poll !in schedule
    ensures var t := Run(ReaderStep(s), schedule);
            t.reader.RIdle? ==>
              && t.reader == RIdle(Dropped(more)) && t.past.taken == to.upTo
              && (Unwoken(t) <==>
                    && to.upTo < |t.past.log| && !s.past.reported
                    && (more || (s.writer != WPublished && |t.past.log| == |s.past.log|)))
  {
    ReaderKeepsInv(s);
    WhileLeaving(ReaderStep(s), schedule, to, more);
  }

  /** The driver stops polling after an oversized packet. If the compare saw newer packets, rx_req is clear, and the
      writer reports nothing until somebody polls again. */
  lemma DroppedIsDeaf(s: State, schedule: seq<Action>)
    requires Inv(s) && s.reader == RIdle(Dropped(true)) && Poll !in schedule
    ensures var t := Run(s, schedule);
            t.reader == s.reader && !t.sh.rxReq && t.past.reported == s.past.reported && t.past.taken == s.past.taken
  {
    WhileLeaving(s, schedule, Outcome(false, 0, s.past.taken, []), true);
  }

  /** Otherwise rx_req is set, and the writer reports, or is about to sample it, exactly if it had done so by then or
      has published since: a packet it published and sampled rx_req for between the compare and the store is not
      reported. */
  lemma DroppedAndArmed(s: State, schedule: seq<Action>)
    requires Inv(s) && s.isMessage && s.reader == RIdle(Dropped(false)) && Poll !in schedule
    ensures var t := Run(s, schedule);
            && t.reader == s.reader && t.sh.rxReq && |s.past.log| <= |t.past.log|
            && (t.past.reported || t.writer == WPublished <==>
                  s.past.reported || s.writer == WPublished || |t.past.log| > |s.past.log|)
  {
    WhileLeaving(s, schedule, Outcome(false, 0, s.past.taken, []), false);
  }

  /** A zero size word at the head, the other exit with packets waiting, stops the reader for good: no number of polls
      takes a packet any more, whatever is reported. */
  lemma {:induction false} ZeroSizeBlocks(s: State, schedule: seq<Action>)
    requires Inv(s) && s.past.taken < |s.past.log| && Announced(s.past.log[s.past.taken][0]) == 0
    ensures var t := Run(s, schedule);
            t.past.taken == s.past.taken < |t.past.log| && t.past.delivered == s.past.delivered
    decreases |schedule|
  {
    if schedule != [] {
      StepKeepsInv(s, schedule[0]);
      StepHistory(s, schedule[0]);
      ZeroSizeBlocks(Step(s, schedule[0]), schedule[1..]);
    }
  }

  ghost predicate Reaches(s: State, t: State) {
    exists schedule :: Run(s, schedule) == t
  }

  lemma {:induction false} RunThen(s: State, schedule: seq<Action>, a: Action)
    ensures Run(s, schedule + [a]) == Step(Run(s, schedule), a)
    decreases |schedule|
  {
    if schedule == [] {
      assert [] + [a] == [a];
    } else {
      assert (schedule + [a])[1..] == schedule[1..] + [a];
      RunThen(Step(s, schedule[0]), schedule[1..], a);
    }
  }

  // Plays one more action and returns the state it leads to.
  lemma Play(s: State, t: State, a: Action) returns (u: State)
    requires Reaches(s, t)
    ensures Reaches(s, u) && u == Step(t, a)
  {
    var schedule :| Run(s, schedule) == t;
    RunThen(s, schedule, a);
    u := Step(t, a);
  }

  function FreshRing(size: nat): State requires size > 0 {
    State(Shared(seq(size, _ => 0), 0, 0, true, false), WIdle(false), RIdle(Fresh),
          History([], [0], 0, [], false, false), true)
  }

  const Good: Packet := [4]            // one word, size 4 bytes
  const TooLong: Packet := [16384]     // its size word announces 4096 words

  // Five turns take a one-word packet through __write_queue when there is room for it.
  lemma Write(s: State, t: State, p: Packet) returns (u: State)
    requires Reaches(s, t) && t.writer.WIdle? && Framed(p) && |p| == 1 && t.sh.writeIdx + 1 < |t.sh.mem|
    requires t.sh.readIdx <= t.sh.writeIdx && t.sh.writeIdx - t.sh.readIdx + 1 < |t.sh.mem|
    ensures Reaches(s, u)
    ensures u == t.(
      sh := Shared(t.sh.mem[t.sh.writeIdx := p[0]], t.sh.readIdx, t.sh.writeIdx + 1, t.sh.rxReq, false),
      writer := WPublished, past := Publish(t.past, p))
  {
    u := Play(s, t, Submit(p));
    u := Play(s, u, WriterMoves);
    u := Play(s, u, WriterMoves);
    u := Play(s, u, WriterMoves);
    u := Play(s, u, WriterMoves);
  }

  // Ten turns take the packet Good through __read_queue.
  lemma Read(s: State, t: State) returns (u: State)
    requires Reaches(s, t) && t.reader.RIdle? && t.sh.readIdx + 1 < |t.sh.mem|
    requires t.sh.readIdx != t.sh.writeIdx && t.sh.mem[t.sh.readIdx] == 4
    ensures Reaches(s, u)
    ensures u == t.(
      sh := Shared(t.sh.mem, t.sh.readIdx + 1, t.sh.writeIdx,
                   t.sh.readIdx + 1 == t.sh.writeIdx && t.isMessage, t.sh.txReq),
      reader := RIdle(Delivered),
      past := t.past.(taken := t.past.taken + 1, delivered := t.past.delivered + [Receipt(t.past.taken, Good)],
                      reported := false, answered := t.past.answered || t.sh.txReq))
  {
    u := ReadHead(s, t);
    u := Play(s, u, ReaderMoves);
    u := Play(s, u, ReaderMoves);
    u := Play(s, u, ReaderMoves);
    u := Play(s, u, ReaderMoves);
  }

  lemma ReadHead(s: State, t: State) returns (u: State)
    requires Reaches(s, t) && t.reader.RIdle? && t.sh.readIdx + 1 < |t.sh.mem|
    requires t.sh.readIdx != t.sh.writeIdx && t.sh.mem[t.sh.readIdx] == 4
    ensures Reaches(s, u)
    ensures u == t.(reader := RCompare(Outcome(true, t.sh.readIdx + 1, t.past.taken + 1, Good)),
                    past := t.past.(reported := false))
  {
    u := Play(s, t, Poll);
    u := Play(s, u, ReaderMoves);
    u := Play(s, u, ReaderMoves);
    u := Play(s, u, ReaderMoves);
    u := Play(s, u, ReaderMoves);
    assert u.reader == RCopying(4, [4]) && PutSize([4], 4) == Good;
    u := Play(s, u, ReaderMoves);
  }

  // A reader that has sampled one oversized packet, and the writer that publishes another meanwhile.
  lemma SampleThenPublish(s: State) returns (t: State)
    requires s == FreshRing(4)
    ensures Reaches(s, t)
    ensures t == State(Shared([16384, 4, 0, 0], 0, 2, true, false), WPublished, RHead(1, 1),
                       History([TooLong, Good], [0, 1, 2], 0, [], false, false), true)
  {
    assert Run(s, []) == s;
    t := Write(s, s, TooLong);
    t := Play(s, t, WriterMoves);
    t := Play(s, t, Poll);
    t := Play(s, t, ReaderMoves);
    t := Play(s, t, ReaderMoves);
    assert t.sh.mem == [16384, 0, 0, 0];
    t := Write(s, t, Good);
    assert t.sh.mem == [16384, 4, 0, 0];
    assert t.past.log == [TooLong, Good] && t.past.bounds == [0, 1, 2];
  }

  /** The wakeup claim does not extend to the oversized exit: a message queue can be left with an unread
      packet, no report since the call began, and both parties idle. */
  lemma OversizedExitLosesWakeup() returns (t: State)
    ensures Reaches(FreshRing(4), t) && t.isMessage
    ensures t.reader == RIdle(Dropped(true)) && t.writer.WIdle?
    ensures t.past.taken < |t.past.log| && !t.past.reported
  {
    var s := FreshRing(4);
    t := SampleThenPublish(s);
    t := Play(s, t, ReaderMoves);
    t := Play(s, t, ReaderMoves);
    t := Play(s, t, ReaderMoves);
    t := Play(s, t, WriterMoves);
    t := Play(s, t, ReaderMoves);
    t := Play(s, t, ReaderMoves);
  }

  // A reader that has decided to set rx_req, and the writer that publishes a packet and finds it clear meanwhile.
  lemma CompareThenPublish(s: State) returns (t: State)
    requires s == FreshRing(4)
    ensures Reaches(s, t)
    ensures t == State(Shared([4, 16384, 4, 0], 1, 3, false, false), WIdle(false),
                       RRequest(Outcome(false, 2, 2, []), false),
                       History([Good, TooLong, Good], [0, 1, 2, 3], 1, [Receipt(0, Good)], false, false), true)
  {
    t := GoodThenTooLong(s);
    t := Play(s, t, Poll);
    t := Play(s, t, ReaderMoves);
    t := Play(s, t, ReaderMoves);
    t := Play(s, t, ReaderMoves);
    t := Play(s, t, ReaderMoves);
    assert t.reader == RRequest(Outcome(false, 2, 2, []), false);
    t := Write(s, t, Good);
    t := Play(s, t, WriterMoves);
    assert t.sh.mem == [4, 16384, 4, 0];
    assert t.past.log == [Good, TooLong, Good] && t.past.bounds == [0, 1, 2, 3];
  }

  // A call that delivers a packet with an oversized one behind it leaves rx_req clear.
  lemma GoodThenTooLong(s: State) returns (t: State)
    requires s == FreshRing(4)
    ensures Reaches(s, t)
    ensures t == State(Shared([4, 16384, 0, 0], 1, 2, false, false), WIdle(false), RIdle(Delivered),
                       History([Good, TooLong], [0, 1, 2], 1, [Receipt(0, Good)], false, false), true)
  {
    t := WriteBoth(s);
    t := Read(s, t);
  }

  lemma WriteBoth(s: State) returns (t: State)
    requires s == FreshRing(4)
    ensures Reaches(s, t)
    ensures t == State(Shared([4, 16384, 0, 0], 0, 2, true, false), WIdle(false), RIdle(Fresh),
                       History([Good, TooLong], [0, 1, 2], 0, [], true, false), true)
  {
    assert Run(s, []) == s;
    t := Write(s, s, Good);
    t := Play(s, t, WriterMoves);
    t := Write(s, t, TooLong);
    t := Play(s, t, WriterMoves);
    assert t.sh.mem == [4, 16384, 0, 0] && t.past.log == [Good, TooLong] && t.past.bounds == [0, 1, 2];
  }

  /** Nor does it when the compare saw nothing newer: a packet published and sampled for between the compare and the
      store of rx_req stays unreported although rx_req ends up set. */
  lemma LateStoreLosesWakeup() returns (t: State)
    ensures Reaches(FreshRing(4), t) && t.isMessage
    ensures t.reader == RIdle(Dropped(false)) && t.writer.WIdle? && t.sh.rxReq
    ensures t.past.taken < |t.past.log| && !t.past.reported
  {
    var s := FreshRing(4);
    t := CompareThenPublish(s);
    t := Play(s, t, ReaderMoves);
    t := Play(s, t, ReaderMoves);
    t := Play(s, t, ReaderMoves);
  }

  // A full ring of two words, with the writer of a second packet about to decide on a stale sample.
  lemma FillThenSample(s: State) returns (t: State)
    requires s == FreshRing(2)
    ensures Reaches(s, t)
    ensures t == State(Shared([4, 0], 0, 1, true, false), WSampled(Good, 0, 0), RIdle(Fresh),
                       History([Good], [0, 1], 0, [], true, false), true)
  {
    assert Run(s, []) == s;
    t := Write(s, s, Good);
    assert t.sh.mem == [4, 0] && t.past.log == [Good] && t.past.bounds == [0, 1];
    t := Play(s, t, WriterMoves);
    t := Play(s, t, Submit(Good));
    t := Play(s, t, WriterMoves);
  }

  // Meanwhile a whole call of the reader empties the ring.
  lemma ReadMeanwhile(s: State) returns (t: State)
    requires s == FreshRing(2)
    ensures Reaches(s, t)
    ensures t == State(Shared([4, 0], 1, 1, true, false), WSampled(Good, 0, 0), RIdle(Delivered),
                       History([Good], [0, 1], 1, [Receipt(0, Good)], false, false), true)
  {
    t := FillThenSample(s);
    t := Read(s, t);
  }

  /** The transmit side has no second look: the writer can be told "full" on a ring that is empty by then. */
  lemma FullOnEmptyRing() returns (t: State)
    ensures Reaches(FreshRing(2), t)
    ensures t.writer == WIdle(true) && t.past.taken == |t.past.log| && t.reader.RIdle? && !t.past.answered
  {
    t := ReadMeanwhile(FreshRing(2));
    t := Play(FreshRing(2), t, WriterMoves);
  }

  /** Nothing to read and nobody writing. */
  ghost predicate Quiet(s: State) {
    && Inv(s) && s.writer.WIdle? && s.past.taken == |s.past.log|
    && (s.reader.RIdle? || s.reader.RStart? || s.reader.RSampled? || s.reader.RArmed?)
  }

  /** And then no number of further polls answers it. */
  lemma {:induction false} QuietNeverAnswers(s: State, schedule: seq<Action>)
    requires Quiet(s) && (forall a <- schedule :: !a.Submit?)
    ensures var t := Run(s, schedule); Quiet(t) && t.past.answered == s.past.answered && t.writer == s.writer
    decreases |schedule|
  {
    if schedule != [] {
      assert schedule[0] in schedule;
      assert forall a <- schedule[1..] :: a in schedule;
      StepKeepsInv(s, schedule[0]);
      QuietNeverAnswers(Step(s, schedule[0]), schedule[1..]);
    }
  }

  /** The writer has asked for an interrupt, and the reader has answered, or has a packet to pass or a last look at
      tx_req to take. */
  ghost predicate Answerable(s: State) {
    && Inv(s) && s.writer == WIdle(true) && s.sh.txReq
    && (s.past.answered || s.past.taken < |s.past.log| || s.reader.RFinish?)
  }

  lemma AnswerableStep(s: State, a: Action)
    requires Answerable(s) && !a.Submit? && Inv(Step(s, a))
    ensures Answerable(Step(s, a))
  {
  }

  lemma {:induction false} StaysAnswerable(s: State, schedule: seq<Action>)
    requires Answerable(s) && (forall a <- schedule :: !a.Submit?)
    ensures Answerable(Run(s, schedule))
    decreases |schedule|
  {
    if schedule != [] {
      assert schedule[0] in schedule;
      assert forall a <- schedule[1..] :: a in schedule;
      StepKeepsInv(s, schedule[0]);
      AnswerableStep(s, schedule[0]);
      StaysAnswerable(Step(s, schedule[0]), schedule[1..]);
    }
  }

  /** When a writer that is told "full" is answered: by the time the reader has passed every packet and finished its
      call, exactly if at the refusal a packet was still to be passed or the reader was about to look at tx_req. */
  lemma AnsweredExactly(s: State, schedule: seq<Action>)
    requires Inv(s) && s.writer.WSampled? && WriterStep(s).writer == WIdle(true)
    requires forall a <- schedule :: !a.Submit?
    ensures var t := Run(WriterStep(s), schedule);
            t.past.taken == |t.past.log| && t.reader.RIdle? ==>
              (t.past.answered <==> s.past.taken < |s.past.log| || s.reader.RFinish?)
  {
    WriterKeepsInv(s);
    var u := WriterStep(s);
    if Answerable(u) {
      StaysAnswerable(u, schedule);
    } else {
      assert Quiet(u);
      QuietNeverAnswers(u, schedule);
    }
  }
}
