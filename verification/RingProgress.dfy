/** What a call on the ring comes to, in either direction: when a writer is refused, that a call ends, and what a call
    does that nobody disturbs. */
module RingProgress {
  import opened Packets
  import opened RingProtocol
  import opened RingInvariant

  /** The writer is refused exactly when the packet does not leave a slot free behind it, counting as unread all that
      was unread at its sample of read_idx, wherever in the ring the indices are. A refusal asks for an interrupt,
      an acceptance takes the request back, and neither touches anything else. */
  lemma RefusedExactly(s: State)
    requires Inv(s) && s.writer.WSampled?
    ensures var p, t := s.writer.packet, WriterStep(s);
            if Total(s.past) + |p| >= s.past.bounds[s.writer.asOf] + |s.sh.mem| then
              t == s.(sh := s.sh.(txReq := true), writer := WIdle(true), past := s.past.(answered := false))
            else
              t == s.(sh := s.sh.(txReq := false), writer := WCopying(p, 0))
  {
    BoundsGrow(s.past, s.writer.asOf, |s.past.log|);
    SpaceBetween(s.past.bounds[s.writer.asOf], Total(s.past), |s.sh.mem|);
  }

  // Turns.

  /** How many turns a call of the reader still needs at most. */
  function ReaderTurns(r: Reader): nat {
    match r
    case RIdle(_) => 0
    case RFinish(_) => 1
    case RRelease(_, _) => 2
    case RRequest(_, _) => 3
    case RCompare(_) => 4
    case RCopying(size, out) => if |out| < Announced(size) then 5 + Announced(size) - |out| else 5
    case RHead(_, _) => 6 + HUGE_WORDS
    case RDisarm(_, _) => 7 + HUGE_WORDS
    case RArmed(_, _) => 8 + HUGE_WORDS
    case RSampled(_, _) => 9 + HUGE_WORDS
    case RStart => 10 + HUGE_WORDS
  }

  /** And one of the writer. */
  function WriterTurns(w: Writer): nat {
    match w
    case WIdle(_) => 0
    case WPublished => 1
    case WCopying(p, k) => if k < |p| then 2 + |p| - k else 2
    case WSampled(p, _, _) => 3 + |p|
    case WStart(p) => 4 + |p|
  }

  function Turns(schedule: seq<Action>, a: Action): nat {
    if schedule == [] then 0 else (if schedule[0] == a then 1 else 0) + Turns(schedule[1..], a)
  }

  /** No call of the reader waits for the writer: with turns enough it ends, whatever the writer does meanwhile. */
  lemma {:induction false} ReaderEnds(s: State, schedule: seq<Action>)
    requires Poll !in schedule && Turns(schedule, ReaderMoves) >= ReaderTurns(s.reader)
    ensures Run(s, schedule).reader.RIdle?
    decreases |schedule|
  {
    if schedule != [] {
      assert schedule[0] in schedule;
      assert forall a <- schedule[1..] :: a in schedule;
      ReaderEnds(Step(s, schedule[0]), schedule[1..]);
    }
  }

  /** Nor does a call of the writer wait for the reader. */
  lemma {:induction false} WriterEnds(s: State, schedule: seq<Action>)
    requires (forall a <- schedule :: !a.Submit?) && Turns(schedule, WriterMoves) >= WriterTurns(s.writer)
    ensures Run(s, schedule).writer.WIdle?
    decreases |schedule|
  {
    if schedule != [] {
      assert schedule[0] in schedule;
      assert forall a <- schedule[1..] :: a in schedule;
      WriterEnds(Step(s, schedule[0]), schedule[1..]);
    }
  }

  // A call of the writer that the reader does not disturb.

  function WriterAlone(s: State, turns: nat): State
    decreases turns
  {
    if turns == 0 then s else WriterAlone(WriterStep(s), turns - 1)
  }

  /** The writer's call is over, and all that has changed is its answer and what it wrote. */
  ghost predicate Written(s: State, t: State, p: Packet) {
    && Inv(t) && t.writer == WIdle(false) && t.reader == s.reader && t.past.log == s.past.log + [p]
    && t.past.taken == s.past.taken && t.past.reported == (s.past.reported || s.sh.rxReq)
    && t.sh.readIdx == s.sh.readIdx && t.sh.rxReq == s.sh.rxReq && t.sh.txReq == s.sh.txReq
  }

  lemma PublishedAndReported(s: State)
    requires Inv(s) && s.writer.WCopying? && s.writer.done >= |s.writer.packet|
    ensures Written(s, WriterStep(WriterStep(s)), s.writer.packet)
  {
    WriterKeepsInv(s);
    WriterKeepsInv(WriterStep(s));
  }

  /** From the first word on: what was published before stays, and the packet joins it. */
  lemma {:induction false} CopiedAndPublished(s: State)
    requires Inv(s) && s.writer.WCopying?
    ensures Written(s, WriterAlone(s, WriterTurns(s.writer)), s.writer.packet)
    decreases WriterTurns(s.writer)
  {
    if s.writer.done < |s.writer.packet| {
      WriterKeepsInv(s);
      CopiedAndPublished(WriterStep(s));
    } else {
      PublishedAndReported(s);
      assert WriterAlone(s, 2) == WriterStep(WriterStep(s));
    }
  }

  // The sample of read_idx, taken now, and the decision.
  lemma DecidedNow(s: State)
    requires Inv(s) && s.writer.WStart?
    ensures var p, t := s.writer.packet, WriterStep(WriterStep(s));
            && Inv(t) && t.reader == s.reader
            && if Total(s.past) - s.past.bounds[s.past.taken] + |p| >= |s.sh.mem| then
                 t == s.(sh := s.sh.(txReq := true), writer := WIdle(true), past := s.past.(answered := false))
               else
                 t == s.(sh := s.sh.(txReq := false), writer := WCopying(p, 0))
  {
    WriterKeepsInv(s);
    WriterKeepsInv(WriterStep(s));
    RefusedExactly(WriterStep(s));
  }

  /** A packet handed to an idle writer is published, and reported if rx_req is set, exactly when it leaves a slot
      free behind it; otherwise the writer is told "full", and all that changes is the request for an interrupt. */
  lemma WrittenExactly(s: State, p: Packet)
    requires Inv(s) && s.writer.WIdle? && Framed(p) && |p| <= |s.sh.mem|
    ensures var u := Step(s, Submit(p));
            if Total(s.past) - s.past.bounds[s.past.taken] + |p| < |s.sh.mem| then
              Written(s.(sh := s.sh.(txReq := false)), WriterAlone(u, 4 + |p|), p)
            else
              WriterAlone(u, 2) ==
              s.(sh := s.sh.(txReq := true), writer := WIdle(true), past := s.past.(answered := false))
  {
    var u := Step(s, Submit(p));
    DecidedNow(u);
    var w := WriterStep(WriterStep(u));
    if w.writer.WCopying? {
      TwoTurns(u, 4 + |p|);
      AcceptedNow(s.(sh := s.sh.(txReq := false)), w, p);
    } else {
      TwoTurns(u, 2);
    }
  }

  lemma TwoTurns(s: State, turns: nat)
    requires turns >= 2
    ensures WriterAlone(s, turns) == WriterAlone(WriterStep(WriterStep(s)), turns - 2)
  {
  }

  lemma AcceptedNow(s: State, w: State, p: Packet)
    requires Inv(w) && w == s.(writer := WCopying(p, 0))
    ensures Written(s, WriterAlone(w, 2 + |p|), p)
  {
    assert WriterTurns(w.writer) == 2 + |p|;
    CopiedAndPublished(w);
  }

  // A call of the reader that the writer does not disturb.

  function ReaderAlone(s: State, turns: nat): State
    decreases turns
  {
    if turns == 0 then s else ReaderAlone(ReaderStep(s), turns - 1)
  }

  lemma {:induction false} ThenAlone(s: State, a: nat, b: nat)
    ensures ReaderAlone(s, a + b) == ReaderAlone(ReaderAlone(s, a), b)
    decreases a
  {
    if a > 0 {
      ThenAlone(ReaderStep(s), a - 1, b);
    }
  }

  // An idle reader stays idle.
  lemma {:induction false} IdleAlone(s: State, turns: nat)
    requires s.reader.RIdle?
    ensures ReaderAlone(s, turns) == s
    decreases turns
  {
    if turns > 0 {
      IdleAlone(s, turns - 1);
    }
  }

  lemma StaysIdle(s: State, turns: nat, more: nat)
    requires ReaderAlone(s, turns).reader.RIdle? && turns <= more
    ensures ReaderAlone(s, more) == ReaderAlone(s, turns)
  {
    ThenAlone(s, turns, more - turns);
    IdleAlone(ReaderAlone(s, turns), more - turns);
  }

  /** What a call has come to by itself: the reader has passed `upTo` packets, and the writer's side is as it was. */
  ghost predicate Ended(s: State, t: State, exit: Exit, upTo: nat, out: seq<Receipt>) {
    && t.reader == RIdle(exit) && t.writer == s.writer && t.sh.writeIdx == s.sh.writeIdx && t.sh.mem == s.sh.mem
    && t.sh.txReq == s.sh.txReq && t.past.log == s.past.log && t.past.bounds == s.past.bounds
    && t.past.taken == upTo && t.past.delivered == s.past.delivered + out
  }

  // The compare, rx_req, read_idx, and the look at tx_req.
  lemma Closes(s: State)
    requires Inv(s) && s.reader.RCompare?
    ensures Closed(s, ReaderStep(ReaderStep(ReaderStep(ReaderStep(s)))))
  {
    var h, to := s.past, s.reader.to;
    BoundsGrow(h, h.taken, to.upTo);
    BoundsGrow(h, to.upTo, |h.log|);
    SameSlotIfEqual(h.bounds[to.upTo], Total(h), |s.sh.mem|);
  }

  ghost predicate Closed(s: State, t: State)
    requires s.reader.RCompare?
  {
    var to := s.reader.to;
    var more := to.upTo < |s.past.log|;
    && Ended(s, t, if to.good then Delivered else Dropped(more), to.upTo,
             if to.good then [Receipt(s.past.taken, to.out)] else [])
    && t.sh.rxReq == (!more && s.isMessage) && t.past.answered == (s.past.answered || s.sh.txReq)
  }

  lemma ClosesAlone(s: State)
    requires Inv(s) && s.reader.RCompare?
    ensures Closed(s, ReaderAlone(s, 4))
  {
    Closes(s);
    FourTurns(s);
  }

  lemma FourTurns(s: State)
    ensures ReaderAlone(s, 4) == ReaderStep(ReaderStep(ReaderStep(ReaderStep(s))))
  {
    TwoLooks(s, 4);
    TwoLooks(ReaderStep(ReaderStep(s)), 2);
  }

  lemma TwoLooks(s: State, turns: nat)
    requires turns >= 2
    ensures ReaderAlone(s, turns) == ReaderAlone(ReaderStep(ReaderStep(s)), turns - 2)
  {
  }

  lemma {:induction false} CopiesAlone(s: State)
    requires Inv(s) && s.reader.RCopying?
    ensures var t, n := ReaderAlone(s, ReaderTurns(s.reader) - 4), s.past.taken + 1;
            && Inv(t) && t.reader.RCompare? && t == s.(reader := t.reader)
            && t.reader.to.good && t.reader.to.upTo == n && t.reader.to.out == s.past.log[s.past.taken]
    decreases ReaderTurns(s.reader)
  {
    ReaderKeepsInv(s);
    WordAt(s.sh, s.past, 0);
    if |s.reader.out| < Announced(s.reader.size) {
      CopiesAlone(ReaderStep(s));
    } else {
      assert ReaderAlone(s, 1) == ReaderStep(s);
    }
  }

  /** From the look at the head on: a zero size stops the reader, an oversized packet costs everything sampled, and any
      other is delivered. */
  lemma HeadAlone(s: State)
    requires Inv(s) && s.reader.RHead?
    ensures var h, t := s.past, ReaderAlone(s, 6 + HUGE_WORDS);
            var size := Announced(h.log[h.taken][0]);
            && (size == 0 ==> Ended(s, t, Stopped, h.taken, []) && t.sh.rxReq == s.sh.rxReq)
            && (0 < size <= HUGE_WORDS ==>
                  && Ended(s, t, Delivered, h.taken + 1, [Receipt(h.taken, h.log[h.taken])])
                  && t.sh.rxReq == (h.taken + 1 == |h.log| && s.isMessage))
            && (size > HUGE_WORDS ==>
                  && Ended(s, t, Dropped(s.reader.upTo < |h.log|), s.reader.upTo, [])
                  && t.sh.rxReq == (s.reader.upTo == |h.log| && s.isMessage))
  {
    assert Framed(s.past.log[s.past.taken]);
    WordAt(s.sh, s.past, 0);
    ReaderKeepsInv(s);
    var u := ReaderStep(s);
    if u.reader.RIdle? {
      IdleAlone(u, 5 + HUGE_WORDS);
    } else if u.reader.RCompare? {
      DropsAlone(u);
    } else {
      DeliversAlone(u);
    }
  }

  lemma DropsAlone(s: State)
    requires Inv(s) && s.reader.RCompare?
    ensures Closed(s, ReaderAlone(s, 5 + HUGE_WORDS))
  {
    ClosesAlone(s);
    StaysIdle(s, 4, 5 + HUGE_WORDS);
  }

  lemma DeliversAlone(s: State)
    requires Inv(s) && s.reader.RCopying? && s.reader.out == []
    ensures var h, t := s.past, ReaderAlone(s, 5 + HUGE_WORDS);
            && Ended(s, t, Delivered, h.taken + 1, [Receipt(h.taken, h.log[h.taken])])
            && t.sh.rxReq == (h.taken + 1 == |h.log| && s.isMessage)
  {
    var n := ReaderTurns(s.reader) - 4;
    CopiesAlone(s);
    CopiedThenCloses(s, ReaderAlone(s, n));
    ThenAlone(s, n, 4);
    StaysIdle(s, n + 4, 5 + HUGE_WORDS);
  }

  lemma CopiedThenCloses(s: State, u: State)
    requires Inv(u) && u.reader.RCompare? && u == s.(reader := u.reader)
    requires var to, h := u.reader.to, s.past; to.good && to.upTo == h.taken + 1 && to.out == h.log[h.taken]
    ensures var h, t := s.past, ReaderAlone(u, 4);
            && Ended(s, t, Delivered, h.taken + 1, [Receipt(h.taken, h.log[h.taken])])
            && t.sh.rxReq == (h.taken + 1 == |h.log| && s.isMessage)
  {
    ClosesAlone(u);
  }

  // The sample of write_idx and the compare.
  lemma LooksAlone(s: State)
    requires Inv(s) && s.reader == RStart
    ensures var h, v := s.past, ReaderAlone(s, 2);
            && Inv(v) && v.sh == s.sh.(rxReq := v.sh.rxReq) && v.past == h && v.writer == s.writer
            && (if h.taken == |h.log| then ReaderStep(v).reader == RIdle(Empty) && v.sh.rxReq == s.isMessage
                else v.reader == RHead(s.sh.writeIdx, |h.log|))
            && v.isMessage == s.isMessage
  {
    ReaderKeepsInv(s);
    ReaderKeepsInv(ReaderStep(s));
    BoundsGrow(s.past, s.past.taken, |s.past.log|);
    SameSlotIfEqual(s.past.bounds[s.past.taken], Total(s.past), |s.sh.mem|);
    TwoLooks(s, 2);
  }

  /** A call on an idle reader that the writer does not disturb: "empty" exactly when everything has been passed, with
      rx_req set on a message queue; and otherwise what the oldest packet calls for. */
  lemma ReadExactly(s: State)
    requires Inv(s) && s.reader.RIdle?
    ensures var h, t := s.past, ReaderAlone(Step(s, Poll), 10 + HUGE_WORDS);
            if h.taken == |h.log| then Ended(s, t, Empty, h.taken, []) && t.sh.rxReq == s.isMessage
            else
              var size := Announced(h.log[h.taken][0]);
              && (size == 0 ==> Ended(s, t, Stopped, h.taken, []))
              && (0 < size <= HUGE_WORDS ==> Ended(s, t, Delivered, h.taken + 1, [Receipt(h.taken, h.log[h.taken])]))
              && (size > HUGE_WORDS ==> Ended(s, t, Dropped(false), |h.log|, []))
  {
    var u := Step(s, Poll);
    LooksAlone(u);
    var v := ReaderAlone(u, 2);
    ThenAlone(u, 2, 8 + HUGE_WORDS);
    if s.past.taken == |s.past.log| {
      EmptyAlone(v);
    } else {
      HeadAlone(v);
      StaysIdle(v, 6 + HUGE_WORDS, 8 + HUGE_WORDS);
    }
  }

  lemma EmptyAlone(s: State)
    requires ReaderStep(s).reader == RIdle(Empty)
    ensures ReaderAlone(s, 8 + HUGE_WORDS) == ReaderStep(s)
  {
    IdleAlone(ReaderStep(s), 7 + HUGE_WORDS);
  }
}
