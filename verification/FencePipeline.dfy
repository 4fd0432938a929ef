/** The fence pipeline of one session as a transition system: any number of senders and fence threads, one
    flusher, and the firmware. A step is what happens under one lock or between two. */
module FencePipeline {
  import opened Packets
  import opened SessionQueue

  const FIRST_KTID: nat := 0x200   // MAX_PKT_IDX, where kernel_trans_id starts

  /** Where a command with fences is: with the sender that made it, on wait_list, on sched_list in the care of a
      thread, freed after that, or dropped by its sender before it was ever queued. */
  datatype Place = InHand(sender: nat) | Waiting | Scheduled(thread: nat) | Freed | Dropped

  /** A command, with how often its output fences have been signalled or cancelled and its fences released,
      whether it has gone to the firmware, and its number in the order of arrival on wait_list. */
  datatype Cmd = Cmd(kernel: bool, ktid: nat, place: Place, outputs: nat, releases: nat, sent: bool, ticket: nat)

  /** A sender inside its window, between the two changes of send_count. */
  datatype Sender = Mapping | Holding(cmd: nat) | Leaving

  /** A fence thread with a command: before the input fences, before session_send, before the response, before the
      output fences, before the command is freed. */
  datatype Stage = Begin | Sending | Receiving | Finishing | Retiring
  datatype Worker = Worker(cmd: nat, stage: Stage)

  /** The flusher: waiting for send_count, cleaning the lists, flushing the firmware, waiting for sched_list, and
      about to leave, having seen send_count at zero or not and sched_list empty or not. */
  datatype Flusher = Idle | Draining | Cleaning | Flushing | Emptying | Done(seenZero: bool, ok: bool)

  /** What the queue's lock and send_count guard. */
  datatype Door = Door(draining: bool, sendCount: int, senders: map<nat, Sender>, flusher: Flusher)

  datatype Lists = Lists(wait: seq<nat>, sched: seq<nat>, running: bool, arrived: nat, taken: nat)

  /** Transaction ids, what the firmware has been sent and not answered, everything it was ever sent, packets without
      a transaction id it has not answered, and the responses that have come back. */
  datatype Link = Link(transId: nat, wire: set<Kdata>, keys: set<Kdata>, bare: nat, inbox: Queues)

  datatype State = State(door: Door, cmds: seq<Cmd>, lists: Lists, threads: map<nat, Worker>, link: Link)

  ghost predicate Initial(s: State) {
    && !s.door.draining && s.door.sendCount == 0 && s.door.senders == map[] && s.door.flusher == Idle
    && s.cmds == [] && s.threads == map[]
    && s.lists.wait == [] && s.lists.sched == [] && s.lists.arrived == s.lists.taken == 0
    && s.link.transId >= FIRST_KTID && s.link.wire == {} && s.link.keys == {} && s.link.bare == 0
    && s.link.inbox == Queues([], [])
  }

  function KeyOf(ktid: nat): Kdata {
    FENCE_BIT + ktid % FENCE_BIT
  }

  // Senders (cvp_enqueue_pkt, cvp_populate_fences).

  datatype SenderStep =
    | Enter             // not draining: send_count goes up
    | Fail              // the frame cannot be mapped, or the packet is malformed
    | Make(kernel: bool)// a transaction id is taken and a command with fences made
    | SendPlain         // no fences: the packet goes to the firmware under its transaction id
    | SendBare          // persist buffers without a buffer: it goes without an id, its kernel data being 0
    | SendSoc           // fences left to the firmware: the packet goes first
    | Drop              // importing or sending failed: the command is freed again
    | Append            // onto wait_list
    | Leave             // send_count goes down

  predicate SenderCan(s: State, i: nat, step: SenderStep) {
    match step
    case Enter => i !in s.door.senders && !s.door.draining
    case Fail => i in s.door.senders && s.door.senders[i] == Mapping
    case Make(_) => i in s.door.senders && s.door.senders[i] == Mapping
    case SendPlain => i in s.door.senders && s.door.senders[i] == Mapping
    case SendBare => i in s.door.senders && s.door.senders[i] == Mapping
    case SendSoc => Holds(s, i) && !Held(s, i).kernel && !Held(s, i).sent
    case Drop => Holds(s, i) && !Held(s, i).sent
    case Append => Holds(s, i) && (Held(s, i).kernel || Held(s, i).sent)
    case Leave => i in s.door.senders && s.door.senders[i] == Leaving
  }

  predicate Holds(s: State, i: nat) {
    i in s.door.senders && s.door.senders[i].Holding? && s.door.senders[i].cmd < |s.cmds|
  }

  function Held(s: State, i: nat): Cmd
    requires Holds(s, i)
  {
    s.cmds[s.door.senders[i].cmd]
  }

  function At(door: Door, i: nat, pc: Sender): Door {
    door.(senders := door.senders[i := pc])
  }

  function Sent(link: Link, k: Kdata): Link {
    link.(wire := link.wire + {k}, keys := link.keys + {k})
  }

  function SenderDoes(s: State, i: nat, step: SenderStep): State
    requires SenderCan(s, i, step)
  {
    match step
    case Enter => s.(door := At(s.door, i, Mapping).(sendCount := s.door.sendCount + 1))
    case Fail => s.(door := At(s.door, i, Leaving))
    case Make(kernel) =>
      s.(door := At(s.door, i, Holding(|s.cmds|)),
         cmds := s.cmds + [Cmd(kernel, (s.link.transId + 1) % FENCE_BIT, InHand(i), 0, 0, false, 0)],
         link := s.link.(transId := s.link.transId + 1))
    case SendPlain =>
      s.(door := At(s.door, i, Leaving),
         link := Sent(s.link, (s.link.transId + 1) % FENCE_BIT).(transId := s.link.transId + 1))
    case SendBare => s.(door := At(s.door, i, Leaving), link := s.link.(bare := s.link.bare + 1))
    case SendSoc =>
      var id := s.door.senders[i].cmd;
      s.(cmds := s.cmds[id := s.cmds[id].(sent := true)], link := Sent(s.link, KeyOf(s.cmds[id].ktid)))
    case Drop =>
      var id := s.door.senders[i].cmd;
      s.(door := At(s.door, i, Leaving), cmds := s.cmds[id := s.cmds[id].(place := Dropped)])
    case Append =>
      var id := s.door.senders[i].cmd;
      s.(door := At(s.door, i, Leaving),
         cmds := s.cmds[id := s.cmds[id].(place := Waiting, ticket := s.lists.arrived)],
         lists := s.lists.(wait := s.lists.wait + [id], arrived := s.lists.arrived + 1))
    case Leave =>
      s.(door := s.door.(senders := s.door.senders - {i}, sendCount := s.door.sendCount - 1))
  }

  // Fence threads (cvp_fence_wait, cvp_fence_proc, cvp_fence_thread).

  datatype WorkerStep =
    | Take              // the head of wait_list moves to the tail of sched_list
    | Input(ok: bool)   // the input fences have been waited for; fences of the firmware are skipped
    | Send(ok: bool)    // session_send
    | Receive           // the response with the command's own kdata
    | GiveUp            // no response in time, or the session is going
    | Output            // the output fences are signalled, unless the firmware does it
    | Retire            // the fences are released and the command freed

  predicate WorkerCan(s: State, t: nat, step: WorkerStep) {
    match step
    case Take => t !in s.threads && s.lists.running && s.lists.wait != [] && s.lists.wait[0] < |s.cmds|
    case Input(_) => Works(s, t, Begin)
    case Send(_) => Works(s, t, Sending)
    case Receive => Works(s, t, Receiving) && Picked(s.link.inbox.fenced, KeyOf(Worked(s, t).ktid)).Some?
    case GiveUp => Works(s, t, Receiving)
    case Output => Works(s, t, Finishing)
    case Retire => Works(s, t, Retiring)
  }

  predicate Works(s: State, t: nat, stage: Stage) {
    t in s.threads && s.threads[t].stage == stage && s.threads[t].cmd < |s.cmds|
  }

  function Worked(s: State, t: nat): Cmd
    requires t in s.threads && s.threads[t].cmd < |s.cmds|
  {
    s.cmds[s.threads[t].cmd]
  }

  function Moved(threads: map<nat, Worker>, t: nat, stage: Stage): map<nat, Worker>
    requires t in threads
  {
    threads[t := Worker(threads[t].cmd, stage)]
  }

  /** list_del of a command. */
  function Unlinked(ids: seq<nat>, id: nat): seq<nat> {
    if ids == [] then [] else if ids[0] == id then ids[1..] else [ids[0]] + Unlinked(ids[1..], id)
  }

  function WorkerDoes(s: State, t: nat, step: WorkerStep): State
    requires WorkerCan(s, t, step)
  {
    match step
    case Take =>
      var id := s.lists.wait[0];
      s.(cmds := s.cmds[id := s.cmds[id].(place := Scheduled(t))],
         lists := s.lists.(wait := s.lists.wait[1..], sched := s.lists.sched + [id], taken := s.cmds[id].ticket + 1),
         threads := s.threads[t := Worker(id, Begin)])
    case Input(ok) =>
      s.(threads := Moved(s.threads, t, if !Worked(s, t).kernel then Receiving else if ok then Sending else Finishing))
    case Send(ok) =>
      if !ok then s.(threads := Moved(s.threads, t, Finishing))
      else
        var id := s.threads[t].cmd;
        s.(threads := Moved(s.threads, t, Receiving), cmds := s.cmds[id := s.cmds[id].(sent := true)],
           link := Sent(s.link, KeyOf(s.cmds[id].ktid)))
    case Receive =>
      s.(threads := Moved(s.threads, t, Finishing),
         link := s.link.(inbox := s.link.inbox.(fenced := Left(s.link.inbox.fenced, KeyOf(Worked(s, t).ktid)))))
    case GiveUp => s.(threads := Moved(s.threads, t, Finishing))
    case Output =>
      var id := s.threads[t].cmd;
      s.(threads := Moved(s.threads, t, Retiring),
         cmds := if s.cmds[id].kernel then s.cmds[id := s.cmds[id].(outputs := s.cmds[id].outputs + 1)] else s.cmds)
    case Retire =>
      var id := s.threads[t].cmd;
      s.(threads := s.threads - {t},
         cmds := s.cmds[id := s.cmds[id].(place := Freed, releases := s.cmds[id].releases + 1)],
         lists := s.lists.(sched := Unlinked(s.lists.sched, id)))
  }

  // The flusher (cvp_session_flush_all, cvp_clean_fence_queue, cvp_drain_fence_sched_list).

  datatype FlusherStep =
    | StartFlush        // OP_DRAINING
    | SeeZero           // send_count read as zero
    | TimeOut           // or too often not
    | Clean             // the kernel-fence commands on wait_list are cancelled and freed
    | Firmware(ok: bool)// the firmware's flush
    | SeeEmpty          // sched_list found empty
    | StillBusy         // or too often not
    | EndFlush          // OP_NORMAL
    | EndTeardown       // a session that is closed stays in OP_DRAINING

  predicate FlusherCan(s: State, step: FlusherStep) {
    match step
    case StartFlush => s.door.flusher == Idle
    case SeeZero => s.door.flusher == Draining && s.door.sendCount == 0
    case TimeOut => s.door.flusher == Draining
    case Clean => s.door.flusher == Cleaning
    case Firmware(_) => s.door.flusher == Flushing
    case SeeEmpty => s.door.flusher == Emptying && s.lists.sched == []
    case StillBusy => s.door.flusher == Emptying
    case EndFlush => s.door.flusher.Done?
    case EndTeardown => s.door.flusher == Flushing || s.door.flusher == Done(false, false)
  }

  function Cancelled(c: Cmd): Cmd {
    if c.kernel then c.(place := Freed, outputs := c.outputs + 1, releases := c.releases + 1) else c
  }

  /** The loop over wait_list: every kernel-fence command on it is taken off, cancelled, released and freed. */
  function CleanedCmds(cmds: seq<Cmd>, wait: seq<nat>): seq<Cmd>
    decreases |wait|
  {
    if wait == [] then cmds
    else if wait[0] < |cmds| then CleanedCmds(cmds[wait[0] := Cancelled(cmds[wait[0]])], wait[1..])
    else CleanedCmds(cmds, wait[1..])
  }

  function CleanedWait(cmds: seq<Cmd>, wait: seq<nat>): seq<nat>
    decreases |wait|
  {
    if wait == [] then []
    else if wait[0] < |cmds| && cmds[wait[0]].kernel then CleanedWait(cmds, wait[1..])
    else [wait[0]] + CleanedWait(cmds, wait[1..])
  }

  function FlusherDoes(s: State, step: FlusherStep): State
    requires FlusherCan(s, step)
  {
    match step
    case StartFlush => s.(door := s.door.(draining := true, flusher := Draining))
    case SeeZero => s.(door := s.door.(flusher := Cleaning))
    case TimeOut => s.(door := s.door.(flusher := Done(false, false)))
    case Clean =>
      s.(door := s.door.(flusher := Flushing), cmds := CleanedCmds(s.cmds, s.lists.wait),
         lists := s.lists.(wait := CleanedWait(s.cmds, s.lists.wait)))
    case Firmware(ok) => s.(door := s.door.(flusher := if ok then Emptying else Done(true, false)))
    case SeeEmpty => s.(door := s.door.(flusher := Done(true, true)))
    case StillBusy => s.(door := s.door.(flusher := Done(true, false)))
    case EndFlush => s.(door := s.door.(draining := false, flusher := Idle))
    case EndTeardown => s.(door := s.door.(flusher := Idle))
  }

  // The rest: the firmware answers, a client reads its queue, threads are started or stopped, other sessions take
  // transaction ids.

  datatype OtherStep =
    | Respond(k: Kdata, body: seq<Word>)
    | RespondBare(body: seq<Word>)
    | ReadPlain
    | SetRunning(running: bool)
    | OtherIds(n: nat)

  predicate OtherCan(s: State, step: OtherStep) {
    match step
    case Respond(k, _) => k in s.link.wire
    case RespondBare(_) => s.link.bare > 0
    case ReadPlain => s.link.inbox.plain != []
    case SetRunning(_) => true
    case OtherIds(_) => true
  }

  function OtherDoes(s: State, step: OtherStep): State
    requires OtherCan(s, step)
  {
    match step
    case Respond(k, body) =>
      s.(link := s.link.(wire := s.link.wire - {k}, inbox := Routed(s.link.inbox, Msg(k, body))))
    case RespondBare(body) =>
      s.(link := s.link.(bare := s.link.bare - 1, inbox := Routed(s.link.inbox, Msg(0, body))))
    case ReadPlain => s.(link := s.link.(inbox := s.link.inbox.(plain := s.link.inbox.plain[1..])))
    case SetRunning(running) => s.(lists := s.lists.(running := running))
    case OtherIds(n) => s.(link := s.link.(transId := s.link.transId + n))
  }

  // Runs.

  datatype Action =
    | BySender(i: nat, sender: SenderStep)
    | ByWorker(t: nat, worker: WorkerStep)
    | ByFlusher(flusher: FlusherStep)
    | ByOther(other: OtherStep)

  predicate Can(s: State, a: Action) {
    match a
    case BySender(i, step) => SenderCan(s, i, step)
    case ByWorker(t, step) => WorkerCan(s, t, step)
    case ByFlusher(step) => FlusherCan(s, step)
    case ByOther(step) => OtherCan(s, step)
  }

  function Does(s: State, a: Action): State
    requires Can(s, a)
  {
    match a
    case BySender(i, step) => SenderDoes(s, i, step)
    case ByWorker(t, step) => WorkerDoes(s, t, step)
    case ByFlusher(step) => FlusherDoes(s, step)
    case ByOther(step) => OtherDoes(s, step)
  }

  /** A run: each state but the first follows from the one before by some step. */
  ghost predicate Run(run: seq<State>, acts: seq<Action>) {
    && |run| == |acts| + 1 && Initial(run[0])
    && forall n :: 0 <= n < |acts| ==> Can(run[n], acts[n]) && run[n + 1] == Does(run[n], acts[n])
  }
}
