/** What every schedule of the ring protocol keeps. */
module RingInvariant {
  import opened Packets
  import opened RingProtocol

  /** The slot of the p-th word ever published. */
  function At(p: nat, size: nat): (slot: nat)
    requires size > 0
    ensures slot < size
  {
    if p < size then p else At(p - size, size)
  }

  lemma {:induction false} AtAhead(p: nat, k: nat, size: nat)
    requires 0 < size && k <= size
    ensures Slot(At(p, size), k, size) == At(p + k, size)
  {
    if p >= size {
      AtAhead(p - size, k, size);
    }
  }

  lemma {:induction false} AtApart(p: nat, q: nat, size: nat)
    requires p < q < p + size
    ensures At(p, size) != At(q, size)
  {
    if p >= size {
      AtApart(p - size, q - size, size);
    }
  }

  /** bounds[i] is the number of words published before packet i. */
  ghost predicate Bounds(log: seq<Packet>, bounds: seq<nat>) {
    && |bounds| == |log| + 1
    && bounds[0] == 0
    && (forall i {:trigger log[i]} :: 0 <= i < |log| ==> bounds[i + 1] == bounds[i] + |log[i]|)
  }

  lemma {:induction false} BoundsGrow(h: History, i: nat, j: nat)
    requires Recorded(h) && i <= j <= |h.log|
    ensures h.bounds[i] <= h.bounds[j]
    ensures i < j ==> h.bounds[i] < h.bounds[j]
    decreases j - i
  {
    if i < j {
      assert Framed(h.log[i]);
      BoundsGrow(h, i + 1, j);
    }
  }

  ghost predicate Recorded(h: History) {
    h.taken <= |h.log| && AllFramed(h.log) && Bounds(h.log, h.bounds)
  }

  /** The unread packets lie in the ring between the two indices, which never meet when it is full. */
  ghost predicate Layout(sh: Shared, h: History) {
    var size := |sh.mem|;
    && size > 0
    && Recorded(h)
    && Total(h) < h.bounds[h.taken] + size
    && sh.readIdx == At(h.bounds[h.taken], size)
    && sh.writeIdx == At(Total(h), size)
    && forall i, j {:trigger h.log[i][j]} :: h.taken <= i < |h.log| && 0 <= j < |h.log[i]| ==>
      sh.mem[At(h.bounds[i] + j, size)] == h.log[i][j]
  }

  ghost predicate WriterInv(w: Writer, sh: Shared, h: History) requires Layout(sh, h) {
    var size := |sh.mem|;
    match w
    case WStart(p) => Framed(p) && |p| <= size
    case WSampled(p, seen, asOf) =>
      && Framed(p) && |p| <= size
      && asOf <= h.taken && seen == At(h.bounds[asOf], size) && Total(h) < h.bounds[asOf] + size
    case WCopying(p, k) =>
      && Framed(p) && Total(h) + |p| < h.bounds[h.taken] + size && k <= |p|
      && forall j :: 0 <= j < k ==> sh.mem[At(Total(h) + j, size)] == p[j]
    case _ => true
  }

  /** A sampled write index, and how many packets had been published then. */
  ghost predicate Sample(size: nat, h: History, w: nat, upTo: nat) requires size > 0 && Recorded(h) {
    h.taken <= upTo <= |h.log| && w == At(h.bounds[upTo], size)
  }

  ghost predicate OutcomeInv(size: nat, h: History, to: Outcome) requires size > 0 && Recorded(h) {
    && Sample(size, h, to.next, to.upTo)
    && h.taken < |h.log|
    && (to.good ==> to.upTo == h.taken + 1 && to.out == h.log[h.taken] && Readable(to.out))
    && (!to.good ==> Announced(h.log[h.taken][0]) > HUGE_WORDS)
  }

  ghost predicate ReaderInv(r: Reader, size: nat, h: History) requires size > 0 && Recorded(h) {
    match r
    case RSampled(w, upTo) => Sample(size, h, w, upTo)
    case RArmed(w, upTo) => Sample(size, h, w, upTo) && upTo == h.taken
    case RDisarm(w, upTo) => Sample(size, h, w, upTo) && upTo == h.taken < |h.log|
    case RHead(w, upTo) => Sample(size, h, w, upTo) && h.taken < |h.log|
    case RCopying(word, out) =>
      h.taken < |h.log| && Readable(h.log[h.taken]) && word == h.log[h.taken][0] && out <= h.log[h.taken]
    case RCompare(to) => OutcomeInv(size, h, to)
    case RRequest(to, more) => OutcomeInv(size, h, to)
    case RRelease(to, more) => OutcomeInv(size, h, to)
    case _ => true
  }

  /** rx_req after the reader has armed it, and what the writer owes once the reader found nothing. */
  ghost predicate Wakeup(s: State) {
    match s.reader
    case RArmed(_, _) => s.sh.rxReq == s.isMessage
    case RIdle(Empty) =>
      && s.sh.rxReq == s.isMessage
      && (s.isMessage && s.past.taken < |s.past.log| ==> s.past.reported || s.writer == WPublished)
    case RIdle(Dropped(missed)) => s.sh.rxReq == (!missed && s.isMessage)
    case RFinish(Dropped(missed)) => s.sh.rxReq == (!missed && s.isMessage)
    case RFinish(exit) => exit == Delivered
    case RRelease(to, more) => s.sh.rxReq == (!more && s.isMessage)
    case _ => true
  }

  ghost predicate Inv(s: State) {
    && Layout(s.sh, s.past)
    && WriterInv(s.writer, s.sh, s.past)
    && ReaderInv(s.reader, |s.sh.mem|, s.past)
    && Wakeup(s)
  }

  // The words of a packet published but not yet taken are where the reader will look for them.
  lemma WordAt(sh: Shared, h: History, j: nat)
    requires Layout(sh, h) && h.taken < |h.log| && j < |h.log[h.taken]|
    ensures |h.log[h.taken]| < |sh.mem|
    ensures LoadWord(sh, Slot(sh.readIdx, j, |sh.mem|)) == h.log[h.taken][j]
  {
    assert h.bounds[h.taken + 1] == h.bounds[h.taken] + |h.log[h.taken]|;
    BoundsGrow(h, h.taken + 1, |h.log|);
    AtAhead(h.bounds[h.taken], j, |sh.mem|);
  }

  // Two positions less than a ring apart share a slot only if they are equal.
  lemma SameSlot(p: nat, q: nat, size: nat)
    requires p <= q < p + size && At(p, size) == At(q, size)
    ensures p == q
  {
    if p < q { AtApart(p, q, size); }
  }

  // One lemma for each shared-memory access of the reader.

  lemma ReaderSamples(s: State)
    requires Inv(s) && (s.reader.RStart? || s.reader.RDisarm? || s.reader.RFinish? || s.reader.RIdle?)
    ensures Inv(ReaderStep(s))
  {
  }

  lemma ReaderArms(s: State)
    requires Inv(s) && s.reader.RSampled?
    ensures Inv(ReaderStep(s))
  {
    var h := s.past;
    BoundsGrow(h, h.taken, s.reader.upTo);
    BoundsGrow(h, s.reader.upTo, |h.log|);
    if s.sh.readIdx == s.reader.w {
      SameSlot(h.bounds[h.taken], h.bounds[s.reader.upTo], |s.sh.mem|);
    }
  }

  lemma ReaderRechecks(s: State)
    requires Inv(s) && s.reader.RArmed?
    ensures Inv(ReaderStep(s))
    // "Empty" is returned only when every published packet has been taken.
    ensures ReaderStep(s).reader == RIdle(Empty) ==> s.past.taken == |s.past.log|
  {
    BoundsGrow(s.past, s.past.taken, |s.past.log|);
    if s.sh.writeIdx == s.reader.w {
      SameSlot(s.past.bounds[s.past.taken], Total(s.past), |s.sh.mem|);
    }
  }

  lemma ReaderLoadsHead(s: State)
    requires Inv(s) && s.reader.RHead?
    ensures Inv(ReaderStep(s))
  {
    assert Framed(s.past.log[s.past.taken]);
    WordAt(s.sh, s.past, 0);
  }

  lemma ReaderCopies(s: State)
    requires Inv(s) && s.reader.RCopying?
    ensures Inv(ReaderStep(s))
  {
    var h, out := s.past, s.reader.out;
    if |out| < Announced(s.reader.size) {
      WordAt(s.sh, h, |out|);
    } else {
      WordAt(s.sh, h, 0);
      AtAhead(h.bounds[h.taken], |out|, |s.sh.mem|);
    }
  }

  lemma ReaderSetsRequest(s: State)
    requires Inv(s) && (s.reader.RCompare? || s.reader.RRequest?)
    ensures Inv(ReaderStep(s))
  {
  }

  lemma ReaderReleases(s: State)
    requires Inv(s) && s.reader.RRelease?
    ensures Inv(ReaderStep(s))
  {
    BoundsGrow(s.past, s.past.taken, s.reader.to.upTo);
    ReleaseKeepsLayout(s.sh, s.past, s.reader.to);
  }

  // What is left after some packets have been passed lies where it lay.
  lemma ReleaseKeepsLayout(sh: Shared, h: History, to: Outcome)
    requires Layout(sh, h) && OutcomeInv(|sh.mem|, h, to) && h.bounds[h.taken] <= h.bounds[to.upTo]
    ensures Layout(sh.(readIdx := to.next), Pass(h, to))
  {
  }

  lemma ReaderKeepsInv(s: State)
    requires Inv(s)
    ensures Inv(ReaderStep(s))
  {
    match s.reader {
      case RSampled(_, _) => ReaderArms(s);
      case RArmed(_, _) => ReaderRechecks(s);
      case RHead(_, _) => ReaderLoadsHead(s);
      case RCopying(_, _) => ReaderCopies(s);
      case RCompare(_) => ReaderSetsRequest(s);
      case RRequest(_, _) => ReaderSetsRequest(s);
      case RRelease(_, _) => ReaderReleases(s);
      case _ => ReaderSamples(s);
    }
  }

  // One lemma for each shared-memory access of the writer.

  lemma WriterSamples(s: State)
    requires Inv(s) && (s.writer.WIdle? || s.writer.WStart? || s.writer.WPublished?)
    ensures Inv(WriterStep(s))
  {
  }

  // What __write_queue computes from two indices is the room left as of the sample.
  lemma SpaceBetween(r: nat, w: nat, size: nat)
    requires r <= w < r + size
    ensures EmptySpace(At(r, size), At(w, size), size) == r + size - w
  {
    AtAhead(r, w - r, size);
    SameSlotIfEqual(r, w, size);
  }

  lemma SameSlotIfEqual(r: nat, w: nat, size: nat)
    requires r <= w < r + size
    ensures At(r, size) == At(w, size) <==> r == w
  {
    if r < w { AtApart(r, w, size); }
  }

  // The sample of read_idx may be stale, but only ever understates the room.
  lemma RoomSinceSample(sh: Shared, h: History, asOf: nat, n: nat)
    requires Layout(sh, h) && asOf <= h.taken && Total(h) < h.bounds[asOf] + |sh.mem|
    requires EmptySpace(At(h.bounds[asOf], |sh.mem|), sh.writeIdx, |sh.mem|) > n
    ensures Total(h) + n < h.bounds[h.taken] + |sh.mem|
  {
    BoundsGrow(h, asOf, h.taken);
    BoundsGrow(h, asOf, |h.log|);
    SpaceBetween(h.bounds[asOf], Total(h), |sh.mem|);
  }

  lemma WriterDecides(s: State)
    requires Inv(s) && s.writer.WSampled?
    ensures Inv(WriterStep(s))
  {
    var n := |s.writer.packet|;
    if EmptySpace(s.writer.seen, s.sh.writeIdx, |s.sh.mem|) > n {
      RoomSinceSample(s.sh, s.past, s.writer.asOf, n);
    }
  }

  // A word stored past the end of the published words falls in no slot the reader may look at.
  lemma FreshSlot(s: State, p: nat)
    requires Layout(s.sh, s.past) && Total(s.past) <= p < s.past.bounds[s.past.taken] + |s.sh.mem|
    ensures forall q :: s.past.bounds[s.past.taken] <= q < p ==> At(q, |s.sh.mem|) != At(p, |s.sh.mem|)
  {
    forall q | s.past.bounds[s.past.taken] <= q < p
      ensures At(q, |s.sh.mem|) != At(p, |s.sh.mem|)
    {
      AtApart(q, p, |s.sh.mem|);
    }
  }

  // So the unread packets are still there after the store.
  lemma StoreKeepsLayout(s: State, p: nat, word: Word)
    requires Layout(s.sh, s.past) && Total(s.past) <= p < s.past.bounds[s.past.taken] + |s.sh.mem|
    ensures Layout(StoreWord(s.sh, At(p, |s.sh.mem|), word), s.past)
  {
    var h, size := s.past, |s.sh.mem|;
    FreshSlot(s, p);
    forall i, j {:trigger h.log[i][j]} | h.taken <= i < |h.log| && 0 <= j < |h.log[i]|
      ensures At(h.bounds[i] + j, size) != At(p, size)
    {
      BoundsGrow(h, h.taken, i);
      BoundsGrow(h, i + 1, |h.log|);
    }
  }

  lemma WriterStores(s: State)
    requires Inv(s) && s.writer.WCopying? && s.writer.done < |s.writer.packet|
    ensures Inv(WriterStep(s))
  {
    var h, k := s.past, s.writer.done;
    BoundsGrow(h, h.taken, |h.log|);
    AtAhead(Total(h), k, |s.sh.mem|);
    FreshSlot(s, Total(h) + k);
    StoreKeepsLayout(s, Total(h) + k, s.writer.packet[k]);
  }

  // Words stored after the end become the newest unread packet.
  lemma PublishKeepsLayout(sh: Shared, h: History, p: Packet)
    requires Layout(sh, h) && Framed(p) && Total(h) + |p| < h.bounds[h.taken] + |sh.mem|
    requires forall j :: 0 <= j < |p| ==> sh.mem[At(Total(h) + j, |sh.mem|)] == p[j]
    ensures Layout(sh.(writeIdx := Slot(sh.writeIdx, |p|, |sh.mem|)), Publish(h, p))
  {
    BoundsGrow(h, h.taken, |h.log|);
    AtAhead(Total(h), |p|, |sh.mem|);
  }

  lemma PublishKeepsReader(r: Reader, size: nat, h: History, p: Packet)
    requires size > 0 && Recorded(h) && Framed(p) && ReaderInv(r, size, h)
    ensures Recorded(Publish(h, p)) && ReaderInv(r, size, Publish(h, p))
  {
  }

  lemma WriterPublishes(s: State)
    requires Inv(s) && s.writer.WCopying? && s.writer.done >= |s.writer.packet|
    ensures Inv(WriterStep(s))
  {
    PublishKeepsLayout(s.sh, s.past, s.writer.packet);
    PublishKeepsReader(s.reader, |s.sh.mem|, s.past, s.writer.packet);
  }

  lemma WriterKeepsInv(s: State)
    requires Inv(s)
    ensures Inv(WriterStep(s))
  {
    match s.writer {
      case WSampled(_, _, _) => WriterDecides(s);
      case WCopying(p, k) => if k < |p| { WriterStores(s); } else { WriterPublishes(s); }
      case _ => WriterSamples(s);
    }
  }

  lemma StepKeepsInv(s: State, a: Action)
    requires Inv(s)
    ensures Inv(Step(s, a))
  {
    match a {
      case WriterMoves => WriterKeepsInv(s);
      case ReaderMoves => ReaderKeepsInv(s);
      case _ =>
    }
  }

  lemma {:induction false} RunKeepsInv(s: State, schedule: seq<Action>)
    requires Inv(s)
    ensures Inv(Run(s, schedule))
    decreases |schedule|
  {
    if schedule != [] {
      StepKeepsInv(s, schedule[0]);
      RunKeepsInv(Step(s, schedule[0]), schedule[1..]);
    }
  }
}
