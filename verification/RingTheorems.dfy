/** What the ring protocol guarantees to its callers under every schedule, and what it does not. */
module RingTheorems {
  import opened Packets
  import opened RingProtocol
  import opened RingInvariant

  predicate Oversized(p: Packet) requires |p| > 0 {
    Announced(p[0]) > HUGE_WORDS
  }

  /** The i-th published packet is acceptable to the reader. */
  predicate Acceptable(log: seq<Packet>, i: nat) requires i < |log| {
    Framed(log[i]) && !Oversized(log[i])
  }

  /** Callers get published packets, each at most once and in order. */
  ghost predicate Receipts(h: History) {
    && (forall k :: 0 <= k < |h.delivered| ==> h.delivered[k].index < h.taken <= |h.log|)
    && (forall k :: 0 <= k < |h.delivered| ==>
          h.delivered[k].packet == h.log[h.delivered[k].index] && Readable(h.delivered[k].packet))
    && (forall j, k :: 0 <= j < k < |h.delivered| ==> h.delivered[j].index < h.delivered[k].index)
  }

  /** They get every packet, as long as none the reader has passed was oversized. */
  ghost predicate Complete(h: History) requires h.taken <= |h.log| {
    (forall i :: 0 <= i < h.taken ==> Acceptable(h.log, i)) ==>
      |h.delivered| == h.taken && forall k :: 0 <= k < h.taken ==> h.delivered[k].index == k
  }

  lemma DeliverKeepsReceipts(h: History, to: Outcome, size: nat)
    requires size > 0 && Recorded(h) && Receipts(h) && OutcomeInv(size, h, to)
    ensures Receipts(Pass(h, to))
  {
  }

  lemma DeliverKeepsComplete(h: History, to: Outcome, size: nat)
    requires size > 0 && Recorded(h) && Complete(h) && OutcomeInv(size, h, to)
    ensures Complete(Pass(h, to))
  {
    var t := Pass(h, to);
    if forall i :: 0 <= i < t.taken ==> Acceptable(t.log, i) {
      if h.taken < t.taken {
        assert Acceptable(t.log, h.taken);
      }
      assert forall i :: 0 <= i < h.taken ==> Acceptable(h.log, i) by {
        forall i | 0 <= i < h.taken ensures Acceptable(h.log, i) {
          assert Acceptable(t.log, i);
        }
      }
    }
  }

  lemma PublishKeepsOrder(h: History, p: Packet)
    requires Recorded(h) && Receipts(h) && Complete(h)
    ensures Receipts(Publish(h, p)) && Complete(Publish(h, p))
  {
    var t := Publish(h, p);
    assert forall i :: 0 <= i < h.taken ==> Acceptable(t.log, i) == Acceptable(h.log, i);
  }

  // What a step can do to the part of the history that matters here.
  lemma StepHistory(s: State, a: Action)
    requires Inv(s)
    ensures var h, t := s.past, Step(s, a).past;
            || (t.log == h.log && t.taken == h.taken && t.delivered == h.delivered)
            || (s.writer.WCopying? && t == Publish(h, s.writer.packet))
            || (s.reader.RRelease? && t == Pass(h, s.reader.to))
  {
  }

  lemma StepKeepsOrder(s: State, a: Action)
    requires Inv(s) && Receipts(s.past) && Complete(s.past)
    ensures Inv(Step(s, a)) && Receipts(Step(s, a).past) && Complete(Step(s, a).past)
  {
    StepKeepsInv(s, a);
    StepHistory(s, a);
    if s.writer.WCopying? {
      PublishKeepsOrder(s.past, s.writer.packet);
    }
    if s.reader.RRelease? {
      DeliverKeepsReceipts(s.past, s.reader.to, |s.sh.mem|);
      DeliverKeepsComplete(s.past, s.reader.to, |s.sh.mem|);
    }
  }

  lemma {:induction false} RunKeepsOrder(s: State, schedule: seq<Action>)
    requires Inv(s) && Receipts(s.past) && Complete(s.past)
    ensures var t := Run(s, schedule); Inv(t) && Receipts(t.past) && Complete(t.past)
    decreases |schedule|
  {
    if schedule != [] {
      StepKeepsOrder(s, schedule[0]);
      RunKeepsOrder(Step(s, schedule[0]), schedule[1..]);
    }
  }

  /** First in, first out, in every schedule from an empty ring: packets come out word for word as they went
      in, in order and at most once, and all of them when none was oversized. */
  lemma Fifo(s: State, schedule: seq<Action>)
    requires Initial(s)
    ensures var h := Run(s, schedule).past; h.taken <= |h.log| && Receipts(h) && Complete(h)
  {
    RunKeepsOrder(s, schedule);
  }

  /** Full is never taken for empty: equal indices mean that every published packet has been passed. */
  lemma EqualIndicesMeanEmpty(s: State, schedule: seq<Action>)
    requires Initial(s)
    ensures var t := Run(s, schedule);
            && t.sh.readIdx < |t.sh.mem| && t.sh.writeIdx < |t.sh.mem|
            && (t.sh.readIdx == t.sh.writeIdx <==> t.past.taken == |t.past.log|)
  {
    RunKeepsInv(s, schedule);
    var t := Run(s, schedule);
    BoundsGrow(t.past, t.past.taken, |t.past.log|);
    SameSlotIfEqual(t.past.bounds[t.past.taken], Total(t.past), |t.sh.mem|);
  }

  /** No lost wakeup on a message queue. When the reader has returned "empty", has not started again, and
      packets are waiting, the writer has reported rx_req_is_set or is about to sample it and will find it set. */
  lemma NoLostWakeup(s: State, schedule: seq<Action>)
    requires Initial(s) && s.isMessage
    ensures var t := Run(s, schedule);
            t.isMessage && (t.reader == RIdle(Empty) && t.past.taken < |t.past.log| ==>
              t.past.reported || (t.writer == WPublished && t.sh.rxReq && WriterStep(t).past.reported))
  {
    RunKeepsInv(s, schedule);
    RunKeepsType(s, schedule);
  }

  lemma {:induction false} RunKeepsType(s: State, schedule: seq<Action>)
    ensures Run(s, schedule).isMessage == s.isMessage
    decreases |schedule|
  {
    if schedule != [] {
      assert Step(s, schedule[0]).isMessage == s.isMessage;
      RunKeepsType(Step(s, schedule[0]), schedule[1..]);
    }
  }
}
