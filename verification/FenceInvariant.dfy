/** What every step of the fence pipeline keeps. */
module FenceInvariant {
  import opened FencePipeline

  /** The flusher has seen send_count at zero since it closed the door. */
  predicate Quiet(f: Flusher) {
    f == Cleaning || f == Flushing || f == Emptying || (f.Done? && f.seenZero)
  }

  /** The window: send_count is the number of senders inside, the door is shut while a flush is on, and nobody is
      inside once the flusher has seen zero. */
  ghost predicate Window(door: Door) {
    && door.sendCount == |door.senders|
    && (door.flusher != Idle ==> door.draining)
    && (Quiet(door.flusher) ==> door.senders == map[])
  }

  /** Commands in a sender's hands. */
  ghost predicate Handed(cmds: seq<Cmd>, senders: map<nat, Sender>) {
    && (forall i <- senders :: senders[i].Holding? ==>
          senders[i].cmd < |cmds| && cmds[senders[i].cmd].place == InHand(i))
    && (forall id {:trigger cmds[id]} :: 0 <= id < |cmds| && cmds[id].place.InHand? ==>
          var i := cmds[id].place.sender; i in senders && senders[i] == Holding(id))
  }

  /** Commands on wait_list, in the order they arrived, after everything that has left it for sched_list. */
  ghost predicate Queued(cmds: seq<Cmd>, lists: Lists) {
    && (forall n :: 0 <= n < |lists.wait| ==> lists.wait[n] < |cmds| && cmds[lists.wait[n]].place == Waiting)
    && (forall n :: 0 <= n < |lists.wait| ==> lists.taken <= cmds[lists.wait[n]].ticket < lists.arrived)
    && (forall m, n :: 0 <= m < n < |lists.wait| ==> cmds[lists.wait[m]].ticket < cmds[lists.wait[n]].ticket)
    && (forall id {:trigger cmds[id]} :: 0 <= id < |cmds| && cmds[id].place == Waiting ==> id in lists.wait)
    && lists.taken <= lists.arrived
  }

  /** Commands on sched_list, each with a thread of its own. */
  ghost predicate Served(cmds: seq<Cmd>, sched: seq<nat>, threads: map<nat, Worker>) {
    && (forall n :: 0 <= n < |sched| ==> sched[n] < |cmds| && cmds[sched[n]].place.Scheduled?)
    && (forall m, n :: 0 <= m < n < |sched| ==> sched[m] != sched[n])
    && (forall id {:trigger cmds[id]} :: 0 <= id < |cmds| && cmds[id].place.Scheduled? ==>
          id in sched && var t := cmds[id].place.thread; t in threads && threads[t].cmd == id)
    && (forall t <- threads :: threads[t].cmd < |cmds| && cmds[threads[t].cmd].place == Scheduled(t))
  }

  function Once(b: bool): nat {
    if b then 1 else 0
  }

  /** What has been done for a command follows from where it is. */
  ghost predicate Settled(c: Cmd, threads: map<nat, Worker>) {
    match c.place
    case InHand(_) => c.outputs == 0 && c.releases == 0 && (c.kernel ==> !c.sent)
    case Waiting => c.outputs == 0 && c.releases == 0 && (c.kernel <==> !c.sent)
    case Scheduled(t) =>
      && t in threads && c.releases == 0
      && c.outputs == Once(c.kernel && threads[t].stage == Retiring)
      && (c.kernel ==> (threads[t].stage in {Begin, Sending} ==> !c.sent))
      && (!c.kernel ==> c.sent && threads[t].stage != Sending)
    case Freed => c.outputs == Once(c.kernel) && c.releases == 1
    case Dropped => c.outputs == 0 && c.releases == 0 && !c.sent
  }

  ghost predicate AllSettled(cmds: seq<Cmd>, threads: map<nat, Worker>) {
    forall id :: 0 <= id < |cmds| ==> Settled(cmds[id], threads)
  }

  predicate Over(c: Cmd) {
    c.place == Freed || c.place == Dropped
  }

  /** Once the flusher has cleaned wait_list no kernel-fence command is on it, and once it has seen sched_list empty
      too, none is anywhere. */
  ghost predicate Flushed(s: State) {
    && (s.door.flusher in {Flushing, Emptying} || (s.door.flusher.Done? && s.door.flusher.seenZero) ==>
          forall n :: 0 <= n < |s.lists.wait| ==> s.lists.wait[n] < |s.cmds| && !s.cmds[s.lists.wait[n]].kernel)
    && (s.door.flusher == Done(true, true) ==>
          forall id :: 0 <= id < |s.cmds| && s.cmds[id].kernel ==> Over(s.cmds[id]))
  }

  ghost predicate Inv(s: State) {
    && Window(s.door)
    && Handed(s.cmds, s.door.senders)
    && Queued(s.cmds, s.lists)
    && Served(s.cmds, s.lists.sched, s.threads)
    && AllSettled(s.cmds, s.threads)
    && Flushed(s)
  }

  lemma InitiallyInv(s: State)
    requires Initial(s)
    ensures Inv(s)
  {
  }

  // Senders.

  lemma SenderMoves(s: State, i: nat, step: SenderStep)
    requires Inv(s) && SenderCan(s, i, step) && step in {Enter, Fail, SendPlain, SendBare, Leave}
    ensures Inv(SenderDoes(s, i, step))
  {
    SenderCounted(s, i, step);
    HandsMoved(s, i, step);
  }

  lemma SenderCounted(s: State, i: nat, step: SenderStep)
    requires Inv(s) && SenderCan(s, i, step)
    ensures Window(SenderDoes(s, i, step).door)
  {
  }

  lemma HandsMoved(s: State, i: nat, step: SenderStep)
    requires Inv(s) && SenderCan(s, i, step) && step in {Enter, Fail, SendPlain, SendBare, Leave}
    ensures Handed(s.cmds, SenderDoes(s, i, step).door.senders)
  {
  }

  lemma CommandMade(s: State, i: nat, kernel: bool)
    requires Inv(s) && SenderCan(s, i, Make(kernel))
    ensures Inv(SenderDoes(s, i, Make(kernel)))
  {
    var s' := SenderDoes(s, i, Make(kernel));
    MadeInHand(s.cmds, s'.cmds, s.door.senders, s'.door.senders, i);
    MadeNotWaiting(s.cmds, s'.cmds, s.lists);
    assert s'.cmds[..|s.cmds|] == s.cmds;
  }

  lemma MadeInHand(cmds: seq<Cmd>, cmds': seq<Cmd>, senders: map<nat, Sender>, senders': map<nat, Sender>, i: nat)
    requires Handed(cmds, senders) && i in senders && !senders[i].Holding?
    requires |cmds'| == |cmds| + 1 && cmds'[..|cmds|] == cmds && cmds'[|cmds|].place == InHand(i)
    requires senders' == senders[i := Holding(|cmds|)]
    ensures Handed(cmds', senders')
  {
    assert forall id :: 0 <= id < |cmds| ==> cmds'[id] == cmds[id];
  }

  lemma MadeNotWaiting(cmds: seq<Cmd>, cmds': seq<Cmd>, lists: Lists)
    requires Queued(cmds, lists)
    requires |cmds'| == |cmds| + 1 && cmds'[..|cmds|] == cmds && cmds'[|cmds|].place.InHand?
    ensures Queued(cmds', lists)
  {
    assert forall id :: 0 <= id < |cmds| ==> cmds'[id] == cmds[id];
  }

  lemma SocSent(s: State, i: nat)
    requires Inv(s) && SenderCan(s, i, SendSoc)
    ensures Inv(SenderDoes(s, i, SendSoc))
  {
    var s', id := SenderDoes(s, i, SendSoc), s.door.senders[i].cmd;
    PlacesKept(s, s');
    HeldSettled(s, s', id);
  }

  lemma CommandDropped(s: State, i: nat)
    requires Inv(s) && SenderCan(s, i, Drop)
    ensures Inv(SenderDoes(s, i, Drop))
  {
    var s', id := SenderDoes(s, i, Drop), s.door.senders[i].cmd;
    QueueKept(s.cmds, s'.cmds, id, s.lists, s'.lists);
    ServiceKept(s.cmds, s'.cmds, id, s.lists.sched, s.threads);
    HeldSettled(s, s', id);
  }

  // Only a command in a sender's hands has been dealt with, and rightly.
  lemma HeldSettled(s: State, s': State, id: nat)
    requires Inv(s) && s'.threads == s.threads && id < |s.cmds| == |s'.cmds|
    requires s'.cmds == s.cmds[id := s'.cmds[id]] && Settled(s'.cmds[id], s'.threads)
    ensures AllSettled(s'.cmds, s'.threads)
  {
    forall other | 0 <= other < |s'.cmds| ensures Settled(s'.cmds[other], s'.threads) {
      assert other != id ==> Settled(s.cmds[other], s.threads);
    }
  }

  lemma CommandAppended(s: State, i: nat)
    requires Inv(s) && SenderCan(s, i, Append)
    ensures Inv(SenderDoes(s, i, Append))
  {
    TailQueued(s, i);
  }

  lemma TailQueued(s: State, i: nat)
    requires Inv(s) && SenderCan(s, i, Append)
    ensures var s' := SenderDoes(s, i, Append); Queued(s'.cmds, s'.lists)
  {
  }

  lemma SenderKeepsInv(s: State, i: nat, step: SenderStep)
    requires Inv(s) && SenderCan(s, i, step)
    ensures Inv(SenderDoes(s, i, step))
  {
    match step {
      case Make(kernel) => CommandMade(s, i, kernel);
      case SendSoc => SocSent(s, i);
      case Drop => CommandDropped(s, i);
      case Append => CommandAppended(s, i);
      case _ => SenderMoves(s, i, step);
    }
  }

  // Fence threads.

  lemma HeadTaken(s: State, t: nat)
    requires Inv(s) && WorkerCan(s, t, Take)
    ensures Inv(WorkerDoes(s, t, Take))
  {
    var s' := WorkerDoes(s, t, Take);
    HeadLeaves(s, t);
    HeadServed(s, t);
    forall id | 0 <= id < |s'.cmds| ensures Settled(s'.cmds[id], s'.threads) {
      assert Settled(s.cmds[id], s.threads);
    }
  }

  lemma HeadServed(s: State, t: nat)
    requires Inv(s) && WorkerCan(s, t, Take)
    ensures var s' := WorkerDoes(s, t, Take);
            Served(s'.cmds, s'.lists.sched, s'.threads) && Handed(s'.cmds, s'.door.senders)
  {
  }

  lemma HeadLeaves(s: State, t: nat)
    requires Inv(s) && WorkerCan(s, t, Take)
    ensures var s' := WorkerDoes(s, t, Take); Queued(s'.cmds, s'.lists)
  {
    assert forall id :: id in s.lists.wait <==> id == s.lists.wait[0] || id in s.lists.wait[1..];
  }

  /** Commands may have been worked on, but none has moved, and each thread has the command it had. */
  ghost predicate NoneMoved(s: State, s': State) {
    && s'.door == s.door && s'.lists == s.lists && s'.threads.Keys == s.threads.Keys && |s'.cmds| == |s.cmds|
    && (forall id :: 0 <= id < |s.cmds| ==>
          var c, d := s.cmds[id], s'.cmds[id]; d == c.(outputs := d.outputs, sent := d.sent))
    && (forall t <- s.threads :: s'.threads[t].cmd == s.threads[t].cmd)
  }

  lemma PlacesKept(s: State, s': State)
    requires Inv(s) && NoneMoved(s, s')
    ensures Window(s'.door) && Handed(s'.cmds, s'.door.senders) && Queued(s'.cmds, s'.lists)
    ensures Served(s'.cmds, s'.lists.sched, s'.threads) && Flushed(s')
  {
    WaitersKept(s, s');
    ServiceUnmoved(s, s');
  }

  lemma WaitersKept(s: State, s': State)
    requires Inv(s) && NoneMoved(s, s')
    ensures Queued(s'.cmds, s'.lists) && Flushed(s')
  {
  }

  lemma ServiceUnmoved(s: State, s': State)
    requires Inv(s) && NoneMoved(s, s')
    ensures Served(s'.cmds, s'.lists.sched, s'.threads)
  {
  }

  // Only this thread's command has been worked on.
  lemma OneSettled(s: State, s': State, t: nat)
    requires Inv(s) && t in s.threads && s'.threads.Keys == s.threads.Keys
    requires forall u <- s.threads :: u != t ==> s'.threads[u] == s.threads[u]
    requires |s'.cmds| == |s.cmds| && s'.cmds == s.cmds[s.threads[t].cmd := s'.cmds[s.threads[t].cmd]]
    requires Settled(s'.cmds[s.threads[t].cmd], s'.threads)
    ensures AllSettled(s'.cmds, s'.threads)
  {
    forall id | 0 <= id < |s'.cmds| ensures Settled(s'.cmds[id], s'.threads) {
      assert Settled(s.cmds[id], s.threads);
    }
  }

  // A thread gets on with its command.
  lemma WorkedOn(s: State, s': State, t: nat, stage: Stage, outputs: nat, sent: bool)
    requires Inv(s) && t in s.threads
    requires s'.door == s.door && s'.lists == s.lists && s'.threads == Moved(s.threads, t, stage)
    requires var id := s.threads[t].cmd; s'.cmds == s.cmds[id := s.cmds[id].(outputs := outputs, sent := sent)]
    requires Settled(s'.cmds[s.threads[t].cmd], s'.threads)
    ensures Inv(s')
  {
    PlacesKept(s, s');
    OneSettled(s, s', t);
  }

  lemma WorkerMoves(s: State, t: nat, step: WorkerStep)
    requires Inv(s) && WorkerCan(s, t, step) && !step.Take? && !step.Output? && !step.Retire? && step != Send(true)
    ensures Inv(WorkerDoes(s, t, step))
  {
    var s', c := WorkerDoes(s, t, step), Worked(s, t);
    assert Settled(c, s.threads);
    assert s.cmds[s.threads[t].cmd := c.(outputs := c.outputs, sent := c.sent)] == s.cmds;
    WorkedOn(s, s', t, s'.threads[t].stage, c.outputs, c.sent);
  }

  lemma CommandSent(s: State, t: nat)
    requires Inv(s) && WorkerCan(s, t, Send(true))
    ensures Inv(WorkerDoes(s, t, Send(true)))
  {
    var c := Worked(s, t);
    assert Settled(c, s.threads);
    WorkedOn(s, WorkerDoes(s, t, Send(true)), t, Receiving, c.outputs, true);
  }

  lemma OutputSignalled(s: State, t: nat)
    requires Inv(s) && WorkerCan(s, t, Output)
    ensures Inv(WorkerDoes(s, t, Output))
  {
    var c := Worked(s, t);
    assert Settled(c, s.threads);
    assert s.cmds[s.threads[t].cmd := c.(outputs := c.outputs, sent := c.sent)] == s.cmds;
    WorkedOn(s, WorkerDoes(s, t, Output), t, Retiring, c.outputs + Once(c.kernel), c.sent);
  }

  lemma {:induction false} UnlinkedMembers(ids: seq<nat>, id: nat, other: nat)
    requires Distinct(ids)
    ensures other in Unlinked(ids, id) <==> other in ids && other != id
  {
    if ids != [] {
      assert ids == [ids[0]] + ids[1..];
      UnlinkedMembers(ids[1..], id, other);
      assert forall n :: 0 <= n < |ids[1..]| ==> ids[1..][n] == ids[n + 1];
    }
  }

  lemma {:induction false} UnlinkedDistinct(ids: seq<nat>, id: nat)
    requires Distinct(ids)
    ensures Distinct(Unlinked(ids, id))
  {
    if ids != [] && ids[0] != id {
      var rest := Unlinked(ids[1..], id);
      UnlinkedDistinct(ids[1..], id);
      UnlinkedMembers(ids[1..], id, ids[0]);
      assert ids[0] !in ids[1..];
      assert forall n :: 0 <= n < |rest| ==> rest[n] in rest;
    }
  }

  predicate Distinct(ids: seq<nat>) {
    forall m, n :: 0 <= m < n < |ids| ==> ids[m] != ids[n]
  }

  lemma CommandRetired(s: State, t: nat)
    requires Inv(s) && WorkerCan(s, t, Retire)
    ensures Inv(WorkerDoes(s, t, Retire))
  {
    RestServed(s, t);
    OthersPlaced(s, t);
    RetiredSettled(s, t);
  }

  lemma OthersPlaced(s: State, t: nat)
    requires Inv(s) && WorkerCan(s, t, Retire)
    ensures var s' := WorkerDoes(s, t, Retire);
            Queued(s'.cmds, s'.lists) && Handed(s'.cmds, s'.door.senders) && Flushed(s')
  {
    var s', id := WorkerDoes(s, t, Retire), s.threads[t].cmd;
    QueueKept(s.cmds, s'.cmds, id, s.lists, s'.lists);
    HandsKept(s.cmds, s'.cmds, id, s.door.senders);
    FlushKept(s, s', id);
  }

  // A command that is not on wait_list, before or after, does not matter to it.
  lemma QueueKept(cmds: seq<Cmd>, cmds': seq<Cmd>, id: nat, lists: Lists, lists': Lists)
    requires Queued(cmds, lists) && id < |cmds| == |cmds'| && cmds' == cmds[id := cmds'[id]]
    requires cmds[id].place != Waiting && cmds'[id].place != Waiting
    requires lists' == lists.(sched := lists'.sched)
    ensures Queued(cmds', lists')
  {
  }

  // And one that is in nobody's hands not to the senders.
  lemma HandsKept(cmds: seq<Cmd>, cmds': seq<Cmd>, id: nat, senders: map<nat, Sender>)
    requires Handed(cmds, senders) && id < |cmds| == |cmds'| && cmds' == cmds[id := cmds'[id]]
    requires !cmds[id].place.InHand? && !cmds'[id].place.InHand?
    ensures Handed(cmds', senders)
  {
  }

  // And one whose end this is not to the flusher.
  lemma FlushKept(s: State, s': State, id: nat)
    requires Flushed(s) && s'.door == s.door && s'.lists.wait == s.lists.wait && id < |s.cmds| == |s'.cmds|
    requires s'.cmds == s.cmds[id := s'.cmds[id]] && Over(s'.cmds[id]) && s'.cmds[id].kernel == s.cmds[id].kernel
    ensures Flushed(s')
  {
  }

  // And one that no thread has not to the threads.
  lemma ServiceKept(cmds: seq<Cmd>, cmds': seq<Cmd>, id: nat, sched: seq<nat>, threads: map<nat, Worker>)
    requires Served(cmds, sched, threads) && id < |cmds| == |cmds'| && cmds' == cmds[id := cmds'[id]]
    requires !cmds[id].place.Scheduled? && !cmds'[id].place.Scheduled?
    ensures Served(cmds', sched, threads)
  {
  }

  lemma RestServed(s: State, t: nat)
    requires Inv(s) && WorkerCan(s, t, Retire)
    ensures var s' := WorkerDoes(s, t, Retire); Served(s'.cmds, s'.lists.sched, s'.threads)
  {
    var id := s.threads[t].cmd;
    RestScheduled(s.lists.sched, id);
  }

  lemma RestScheduled(sched: seq<nat>, id: nat)
    requires Distinct(sched)
    ensures var left := Unlinked(sched, id);
            && Distinct(left)
            && (forall n :: 0 <= n < |left| ==> left[n] in sched && left[n] != id)
            && (forall other: nat :: other in left <==> other in sched && other != id)
  {
    var left := Unlinked(sched, id);
    UnlinkedDistinct(sched, id);
    forall other: nat ensures other in left <==> other in sched && other != id {
      UnlinkedMembers(sched, id, other);
    }
    assert forall n :: 0 <= n < |left| ==> left[n] in left;
  }

  lemma RetiredSettled(s: State, t: nat)
    requires Inv(s) && WorkerCan(s, t, Retire)
    ensures var s' := WorkerDoes(s, t, Retire); AllSettled(s'.cmds, s'.threads)
  {
    var s' := WorkerDoes(s, t, Retire);
    forall id | 0 <= id < |s'.cmds| ensures Settled(s'.cmds[id], s'.threads) {
      assert Settled(s.cmds[id], s.threads);
    }
  }

  lemma WorkerKeepsInv(s: State, t: nat, step: WorkerStep)
    requires Inv(s) && WorkerCan(s, t, step)
    ensures Inv(WorkerDoes(s, t, step))
  {
    match step {
      case Take => HeadTaken(s, t);
      case Output => OutputSignalled(s, t);
      case Retire => CommandRetired(s, t);
      case Send(ok) => if ok { CommandSent(s, t); } else { WorkerMoves(s, t, step); }
      case _ => WorkerMoves(s, t, step);
    }
  }

  // The flusher.

  lemma {:induction false} CleanedCmdsExactly(cmds: seq<Cmd>, wait: seq<nat>)
    requires Distinct(wait) && forall n :: 0 <= n < |wait| ==> wait[n] < |cmds|
    ensures |CleanedCmds(cmds, wait)| == |cmds|
    ensures forall id: nat :: id < |cmds| ==>
              CleanedCmds(cmds, wait)[id] == if id in wait then Cancelled(cmds[id]) else cmds[id]
    decreases |wait|
  {
    if wait != [] {
      var once := cmds[wait[0] := Cancelled(cmds[wait[0]])];
      CleanedCmdsExactly(once, wait[1..]);
      assert wait == [wait[0]] + wait[1..];
      forall n | 0 <= n < |wait[1..]| ensures wait[1..][n] != wait[0] {
        assert wait[1..][n] == wait[n + 1];
      }
    }
  }

  ghost predicate Rising(cmds: seq<Cmd>, ids: seq<nat>) {
    && (forall n :: 0 <= n < |ids| ==> ids[n] < |cmds|)
    && (forall m, n :: 0 <= m < n < |ids| ==> cmds[ids[m]].ticket < cmds[ids[n]].ticket)
  }

  lemma {:induction false} CleanedWaitExactly(cmds: seq<Cmd>, wait: seq<nat>)
    requires Rising(cmds, wait)
    ensures Rising(cmds, CleanedWait(cmds, wait))
    ensures forall id: nat :: id in CleanedWait(cmds, wait) <==> id in wait && (id < |cmds| ==> !cmds[id].kernel)
  {
    if wait != [] {
      var rest := CleanedWait(cmds, wait[1..]);
      CleanedWaitExactly(cmds, wait[1..]);
      assert wait == [wait[0]] + wait[1..];
      forall n | 0 <= n < |rest| ensures cmds[wait[0]].ticket < cmds[rest[n]].ticket {
        assert rest[n] in rest;
      }
    }
  }

  lemma WaitCleaned(s: State)
    requires Inv(s)
    ensures var wait, left := s.lists.wait, CleanedWait(s.cmds, s.lists.wait);
            && Distinct(wait) && Rising(s.cmds, left)
            && (forall n :: 0 <= n < |left| ==> left[n] in wait && !s.cmds[left[n]].kernel)
            && (forall id :: 0 <= id < |s.cmds| && s.cmds[id].place == Waiting && !s.cmds[id].kernel ==> id in left)
    ensures var now := CleanedCmds(s.cmds, s.lists.wait);
            && |now| == |s.cmds|
            && (forall id :: 0 <= id < |now| ==>
                  now[id] == if s.cmds[id].place == Waiting then Cancelled(s.cmds[id]) else s.cmds[id])
  {
    var wait, left := s.lists.wait, CleanedWait(s.cmds, s.lists.wait);
    CleanedCmdsExactly(s.cmds, wait);
    CleanedWaitExactly(s.cmds, wait);
    assert forall n :: 0 <= n < |left| ==> left[n] in left;
    assert forall id :: 0 <= id < |s.cmds| ==> (id in wait <==> s.cmds[id].place == Waiting);
  }

  lemma RestQueued(s: State)
    requires Inv(s) && FlusherCan(s, Clean)
    ensures var s' := FlusherDoes(s, Clean); Queued(s'.cmds, s'.lists) && Flushed(s')
  {
    WaitCleaned(s);
    RestWaits(s.cmds, FlusherDoes(s, Clean).cmds, s.lists, CleanedWait(s.cmds, s.lists.wait));
  }

  lemma RestWaits(cmds: seq<Cmd>, now: seq<Cmd>, lists: Lists, left: seq<nat>)
    requires Queued(cmds, lists) && Rising(cmds, left) && |now| == |cmds|
    requires forall n :: 0 <= n < |left| ==> left[n] in lists.wait && !cmds[left[n]].kernel
    requires forall id :: 0 <= id < |cmds| && cmds[id].place == Waiting && !cmds[id].kernel ==> id in left
    requires forall id :: 0 <= id < |now| ==>
               now[id] == if cmds[id].place == Waiting then Cancelled(cmds[id]) else cmds[id]
    ensures Queued(now, lists.(wait := left))
  {
  }

  lemma ListsCleaned(s: State)
    requires Inv(s) && FlusherCan(s, Clean)
    ensures Inv(FlusherDoes(s, Clean))
  {
    var s' := FlusherDoes(s, Clean);
    WaitCleaned(s);
    RestQueued(s);
    forall id | 0 <= id < |s'.cmds| ensures Settled(s'.cmds[id], s'.threads) {
      assert Settled(s.cmds[id], s.threads);
    }
  }

  lemma FlusherKeepsInv(s: State, step: FlusherStep)
    requires Inv(s) && FlusherCan(s, step)
    ensures Inv(FlusherDoes(s, step))
  {
    if step == Clean {
      ListsCleaned(s);
    } else if step == SeeEmpty {
      NothingLeft(s);
    }
  }

  // Nobody holds a command, none is on sched_list, and none with kernel fences on wait_list.
  lemma NothingLeft(s: State)
    requires Inv(s) && FlusherCan(s, SeeEmpty)
    ensures forall id :: 0 <= id < |s.cmds| && s.cmds[id].kernel ==> Over(s.cmds[id])
  {
  }

  lemma StepKeepsInv(s: State, a: Action)
    requires Inv(s) && Can(s, a)
    ensures Inv(Does(s, a))
  {
    match a {
      case BySender(i, step) => SenderKeepsInv(s, i, step);
      case ByWorker(t, step) => WorkerKeepsInv(s, t, step);
      case ByFlusher(step) => FlusherKeepsInv(s, step);
      case ByOther(step) => OtherKeepsInv(s, step);
    }
  }

  lemma OtherKeepsInv(s: State, step: OtherStep)
    requires Inv(s) && OtherCan(s, step)
    ensures Inv(OtherDoes(s, step))
  {
  }

  lemma {:induction false} RunKeepsInv(run: seq<State>, acts: seq<Action>, n: nat)
    requires Run(run, acts) && n < |run|
    ensures Inv(run[n])
  {
    if n == 0 {
      InitiallyInv(run[0]);
    } else {
      RunKeepsInv(run, acts, n - 1);
      StepKeepsInv(run[n - 1], acts[n - 1]);
    }
  }

  lemma NthStep(run: seq<State>, acts: seq<Action>, n: nat)
    requires Run(run, acts) && 0 < n < |run|
    ensures Inv(run[n - 1]) && Can(run[n - 1], acts[n - 1]) && run[n] == Does(run[n - 1], acts[n - 1])
  {
    RunKeepsInv(run, acts, n - 1);
    assert run[n - 1 + 1] == Does(run[n - 1], acts[n - 1]);
  }
}
