/** The ring under interference. Writer and reader share only the words, the two indices and the two
    request flags, and each runs one shared-memory access at a time; a schedule picks who moves next.
    This is __write_queue against __read_queue with sequentially consistent memory. */
module RingProtocol {
  import opened Packets

  datatype Writer =
    | WIdle(full: bool)                             // full: the last call found no room
    | WStart(packet: Packet)                        // about to sample read_idx
    | WSampled(packet: Packet, seen: nat, asOf: nat)  // about to decide and to store tx_req
    | WCopying(packet: Packet, done: nat)           // about to store word `done`, or write_idx after the last
    | WPublished                                    // about to sample rx_req

  /** How the reader's last call ended. */
  datatype Exit =
    | Fresh                     // it has not read yet
    | Empty                     // nothing published (-ENODATA)
    | Delivered
    | Stopped                   // zero size word (-ENODATA)
    | Dropped(missed: bool)     // oversized packet (-ENODATA); missed: the compare saw newer packets

  /** What a read is about to do: the new read index, and the packets it passes (a history variable). */
  datatype Outcome = Outcome(good: bool, next: nat, upTo: nat, out: Packet)

  // w is the sampled write_idx; upTo is, as a history variable, how many packets it covers.
  datatype Reader =
    | RIdle(exit: Exit)
    | RStart                                     // about to sample write_idx
    | RSampled(w: nat, upTo: nat)                // about to compare, and to set rx_req if equal
    | RArmed(w: nat, upTo: nat)                  // about to sample write_idx again
    | RDisarm(w: nat, upTo: nat)                 // about to clear rx_req
    | RHead(w: nat, upTo: nat)                   // about to load the size word
    | RCopying(size: Word, out: Packet)          // about to load the next word
    | RCompare(to: Outcome)                      // about to sample write_idx
    | RRequest(to: Outcome, more: bool)          // about to store rx_req
    | RRelease(to: Outcome, more: bool)          // about to store read_idx
    | RFinish(exit: Exit)                        // about to sample tx_req

  datatype Shared = Shared(mem: seq<Word>, readIdx: nat, writeIdx: nat, rxReq: bool, txReq: bool)

  /** A packet handed to a caller, and which of the published packets it was. */
  datatype Receipt = Receipt(index: nat, packet: Packet)

  /** History variables: the packets published and how many words were before each; how many of them the
      reader has passed and those it handed out; whether the writer has reported rx_req_is_set since the
      reader last began a call or returned "empty"; whether the reader has reported tx_req since the writer
      last found the ring full. */
  datatype History = History(
    log: seq<Packet>, bounds: seq<nat>, taken: nat, delivered: seq<Receipt>, reported: bool, answered: bool)

  // isMessage: the queue type asks for receive interrupts.
  datatype State = State(sh: Shared, writer: Writer, reader: Reader, past: History, isMessage: bool)

  datatype Action =
    | Submit(packet: Packet)   // a caller enters __write_queue
    | WriterMoves
    | Poll                     // a caller enters __read_queue
    | ReaderMoves

  ghost predicate Initial(s: State) {
    && |s.sh.mem| > 0
    && s.sh.readIdx == s.sh.writeIdx == 0
    && s.writer == WIdle(false) && s.reader == RIdle(Fresh)
    && s.past == History([], [0], 0, [], false, false)
  }

  /** Words published so far. */
  function Total(h: History): nat {
    if h.bounds == [] then 0 else h.bounds[|h.bounds| - 1]
  }

  /** The slot k words after index i. */
  function Slot(i: nat, k: nat, size: nat): nat {
    if i + k < size then i + k else i + k - size
  }

  /** Free words as __write_queue counts them from two indices. */
  function EmptySpace(r: nat, w: nat, size: nat): int {
    if w >= r then size - (w - r) else r - w
  }

  /** The reader puts back the size word it validated. */
  function PutSize(out: Packet, size: Word): Packet {
    if out == [] then out else out[0 := size]
  }

  function StoreWord(sh: Shared, slot: nat, word: Word): Shared {
    if slot < |sh.mem| then sh.(mem := sh.mem[slot := word]) else sh
  }

  function LoadWord(sh: Shared, slot: nat): Word {
    if slot < |sh.mem| then sh.mem[slot] else 0
  }

  function Publish(h: History, p: Packet): History {
    h.(log := h.log + [p], bounds := h.bounds + [Total(h) + |p|])
  }

  function Pass(h: History, to: Outcome): History {
    h.(taken := to.upTo, delivered := if to.good then h.delivered + [Receipt(h.taken, to.out)] else h.delivered)
  }

  function WriterStep(s: State): State {
    var sh := s.sh;
    match s.writer
    case WIdle(_) => s
    case WStart(p) => s.(writer := WSampled(p, sh.readIdx, s.past.taken))
    case WSampled(p, seen, _) =>
      if EmptySpace(seen, sh.writeIdx, |sh.mem|) <= |p| then
        s.(sh := sh.(txReq := true), writer := WIdle(true), past := s.past.(answered := false))
      else
        s.(sh := sh.(txReq := false), writer := WCopying(p, 0))
    case WCopying(p, k) =>
      if k < |p| then
        s.(sh := StoreWord(sh, Slot(sh.writeIdx, k, |sh.mem|), p[k]), writer := WCopying(p, k + 1))
      else
        s.(sh := sh.(writeIdx := Slot(sh.writeIdx, |p|, |sh.mem|)), past := Publish(s.past, p), writer := WPublished)
    case WPublished => s.(past := s.past.(reported := s.past.reported || sh.rxReq), writer := WIdle(false))
  }

  function ReaderStep(s: State): State {
    var sh := s.sh;
    match s.reader
    case RIdle(_) => s
    case RStart => s.(reader := RSampled(sh.writeIdx, |s.past.log|))
    case RSampled(w, upTo) =>
      if sh.readIdx == w then s.(sh := sh.(rxReq := s.isMessage), reader := RArmed(w, upTo))
      else s.(reader := RHead(w, upTo))
    case RArmed(w, upTo) =>
      if sh.writeIdx == w then s.(reader := RIdle(Empty), past := s.past.(reported := false))
      else s.(reader := RDisarm(w, upTo))
    case RDisarm(w, upTo) => s.(sh := sh.(rxReq := false), reader := RHead(w, upTo))
    case RHead(w, upTo) =>
      var size := LoadWord(sh, sh.readIdx);
      if Announced(size) == 0 then s.(reader := RIdle(Stopped))
      else if Announced(size) <= HUGE_WORDS then s.(reader := RCopying(size, []))
      else s.(reader := RCompare(Outcome(false, w, upTo, [])))
    case RCopying(size, out) =>
      if |out| < Announced(size) then
        s.(reader := RCopying(size, out + [LoadWord(sh, Slot(sh.readIdx, |out|, |sh.mem|))]))
      else
        s.(reader := RCompare(
          Outcome(true, Slot(sh.readIdx, |out|, |sh.mem|), s.past.taken + 1, PutSize(out, size))))
    case RCompare(to) => s.(reader := RRequest(to, to.next != sh.writeIdx))
    case RRequest(to, more) => s.(sh := sh.(rxReq := !more && s.isMessage), reader := RRelease(to, more))
    case RRelease(to, more) =>
      s.(sh := sh.(readIdx := to.next), past := Pass(s.past, to),
         reader := RFinish(if to.good then Delivered else Dropped(more)))
    case RFinish(exit) =>
      s.(reader := RIdle(exit), past := s.past.(answered := s.past.answered || sh.txReq))
  }

  /** One turn of the schedule; a turn that the chosen party cannot use changes nothing. */
  function Step(s: State, a: Action): State {
    match a
    case Submit(p) =>
      // __write_queue turns away a packet with no words or with more than the ring can hold.
      if s.writer.WIdle? && Framed(p) && |p| <= |s.sh.mem| then s.(writer := WStart(p)) else s
    case WriterMoves => WriterStep(s)
    case Poll =>
      if s.reader.RIdle? then s.(reader := RStart, past := s.past.(reported := false)) else s
    case ReaderMoves => ReaderStep(s)
  }

  function Run(s: State, schedule: seq<Action>): State
    decreases |schedule|
  {
    if schedule == [] then s else Run(Step(s, schedule[0]), schedule[1..])
  }
}
