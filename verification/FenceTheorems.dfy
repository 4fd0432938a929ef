/** What the fence pipeline promises in every run. */
module FenceTheorems {
  import opened FencePipeline
  import opened FenceInvariant

  /** At every moment send_count is the number of senders inside the window, and once a flusher has seen it at zero
      there is nobody inside until it opens the door again. */
  lemma Quiescence(run: seq<State>, acts: seq<Action>, n: nat)
    requires Run(run, acts) && n < |run|
    ensures run[n].door.sendCount == |run[n].door.senders|
    ensures Quiet(run[n].door.flusher) ==> run[n].door.draining && run[n].door.senders == map[]
  {
    RunKeepsInv(run, acts, n);
  }

  /** While it is quiet no step adds a command to wait_list: a step leaves it alone, takes its head, or cleans it. */
  lemma NothingAppended(s: State, a: Action)
    requires Inv(s) && Quiet(s.door.flusher) && Can(s, a)
    ensures var before, after := s.lists.wait, Does(s, a).lists.wait;
            && Does(s, a).lists.arrived == s.lists.arrived
            && (after == before || (before != [] && after == before[1..]) || after == CleanedWait(s.cmds, before))
  {
    match a {
      case BySender(i, step) =>
      case ByWorker(t, step) =>
      case ByFlusher(step) =>
      case ByOther(step) =>
    }
  }

  /** From the moment the flusher sees zero to any later moment of the same flush, nothing arrives on wait_list. */
  lemma {:induction false} QuietPeriod(run: seq<State>, acts: seq<Action>, m: nat, n: nat)
    requires Run(run, acts) && m <= n < |run|
    requires forall k :: m <= k <= n ==> Quiet(run[k].door.flusher)
    ensures run[n].lists.arrived == run[m].lists.arrived
    decreases n
  {
    if m < n {
      QuietPeriod(run, acts, m, n - 1);
      QuietStep(run, acts, n);
    }
  }

  lemma QuietStep(run: seq<State>, acts: seq<Action>, n: nat)
    requires Run(run, acts) && 0 < n < |run| && Quiet(run[n - 1].door.flusher)
    ensures run[n].lists.arrived == run[n - 1].lists.arrived
  {
    NthStep(run, acts, n);
    NothingAppended(run[n - 1], acts[n - 1]);
  }

  /** A flush that succeeds leaves no kernel-fence command behind: when the flusher has found sched_list empty, each
      one ever made has been freed, its output fences signalled or cancelled once and its fences released once, or
      was dropped by its sender before it was queued. */
  lemma FlushLeavesNothing(run: seq<State>, acts: seq<Action>, n: nat, id: nat)
    requires Run(run, acts) && n < |run| && run[n].door.flusher == Done(true, true)
    requires id < |run[n].cmds| && run[n].cmds[id].kernel
    ensures var c := run[n].cmds[id]; c.place == Dropped || (c.place == Freed && c.outputs == 1 && c.releases == 1)
  {
    RunKeepsInv(run, acts, n);
    assert Settled(run[n].cmds[id], run[n].threads);
  }

  /** In every run a kernel-fence command's output fences are dealt with at most once and its fences released at most
      once; both exactly once by the time it is freed, whoever frees it. */
  lemma OutputsOnce(run: seq<State>, acts: seq<Action>, n: nat, id: nat)
    requires Run(run, acts) && n < |run| && id < |run[n].cmds|
    ensures var c := run[n].cmds[id];
            && c.outputs <= 1 && c.releases <= 1 && c.releases <= Once(c.place == Freed)
            && (c.place == Freed ==> c.releases == 1 && c.outputs == Once(c.kernel))
            && (c.outputs > 0 ==> c.kernel)
  {
    RunKeepsInv(run, acts, n);
    assert Settled(run[n].cmds[id], run[n].threads);
  }

  /** Every command is in exactly one place: in the hands of one sender that has it, once on wait_list, once on
      sched_list with one thread, or in none of these. */
  lemma OnePlace(run: seq<State>, acts: seq<Action>, n: nat, id: nat)
    requires Run(run, acts) && n < |run| && id < |run[n].cmds|
    ensures var s := run[n];
            && (s.cmds[id].place == Waiting <==> id in s.lists.wait)
            && (s.cmds[id].place.Scheduled? <==> id in s.lists.sched)
            && (forall i <- s.door.senders :: s.door.senders[i] == Holding(id) <==> s.cmds[id].place == InHand(i))
            && (forall t <- s.threads :: s.threads[t].cmd == id <==> s.cmds[id].place == Scheduled(t))
            && Distinct(s.lists.wait) && Distinct(s.lists.sched)
  {
    RunKeepsInv(run, acts, n);
  }

  function Rank(p: Place): nat {
    match p case InHand(_) => 0 case Waiting => 1 case Scheduled(_) => 2 case Freed => 3 case Dropped => 3
  }

  ghost predicate Forward(c: Cmd, d: Cmd) {
    d.kernel == c.kernel && d.ktid == c.ktid && (d.place == c.place || Rank(d.place) > Rank(c.place))
  }

  /** Commands are never forgotten, only move forward, and never change hands among threads. */
  lemma OnlyForward(s: State, a: Action, id: nat)
    requires Inv(s) && Can(s, a) && id < |s.cmds|
    ensures |Does(s, a).cmds| >= |s.cmds| && Forward(s.cmds[id], Does(s, a).cmds[id])
  {
    match a {
      case BySender(i, step) => SenderForward(s, i, step, id);
      case ByWorker(t, step) => WorkerForward(s, t, step, id);
      case ByFlusher(step) => if step == Clean { WaitCleaned(s); }
      case ByOther(step) =>
    }
  }

  lemma SenderForward(s: State, i: nat, step: SenderStep, id: nat)
    requires Inv(s) && SenderCan(s, i, step) && id < |s.cmds|
    ensures |SenderDoes(s, i, step).cmds| >= |s.cmds| && Forward(s.cmds[id], SenderDoes(s, i, step).cmds[id])
  {
  }

  lemma WorkerForward(s: State, t: nat, step: WorkerStep, id: nat)
    requires Inv(s) && WorkerCan(s, t, step) && id < |s.cmds|
    ensures |WorkerDoes(s, t, step).cmds| == |s.cmds| && Forward(s.cmds[id], WorkerDoes(s, t, step).cmds[id])
  {
    if step == Take {
      HeadWaits(s);
    } else {
      WorkedServed(s, t);
    }
    WorkedForward(s, t, step, id);
  }

  lemma HeadWaits(s: State)
    requires Inv(s) && s.lists.wait != []
    ensures s.lists.wait[0] < |s.cmds| && s.cmds[s.lists.wait[0]].place == Waiting
  {
  }

  lemma WorkedServed(s: State, t: nat)
    requires Inv(s) && t in s.threads
    ensures s.threads[t].cmd < |s.cmds| && Worked(s, t).place == Scheduled(t)
  {
  }

  lemma WorkedForward(s: State, t: nat, step: WorkerStep, id: nat)
    requires WorkerCan(s, t, step) && id < |s.cmds|
    requires if step == Take then s.cmds[s.lists.wait[0]].place == Waiting
             else t in s.threads && s.threads[t].cmd < |s.cmds| && Worked(s, t).place == Scheduled(t)
    ensures |WorkerDoes(s, t, step).cmds| == |s.cmds| && Forward(s.cmds[id], WorkerDoes(s, t, step).cmds[id])
  {
  }

  /** First in, first out: a thread takes the command that arrived before every other waiting one and after every
      one taken before. */
  lemma TakenInOrder(s: State, t: nat)
    requires Inv(s) && WorkerCan(s, t, Take)
    ensures var head := s.lists.wait[0];
            && s.lists.taken <= s.cmds[head].ticket
            && WorkerDoes(s, t, Take).lists.taken == s.cmds[head].ticket + 1
            && forall id :: 0 <= id < |s.cmds| && s.cmds[id].place == Waiting && id != head ==>
                 s.cmds[head].ticket < s.cmds[id].ticket
  {
    forall id | 0 <= id < |s.cmds| && s.cmds[id].place == Waiting && id != s.lists.wait[0]
      ensures s.cmds[s.lists.wait[0]].ticket < s.cmds[id].ticket
    {
      var n :| 0 <= n < |s.lists.wait| && s.lists.wait[n] == id;
    }
  }

  /** Of two commands taken in a run, the one taken later arrived later. */
  lemma {:induction false} Fifo(run: seq<State>, acts: seq<Action>, m: nat, n: nat, t: nat, u: nat)
    requires Run(run, acts) && m < n < |acts|
    requires acts[m] == ByWorker(t, Take) && acts[n] == ByWorker(u, Take)
    ensures WorkerCan(run[m], t, Take) && WorkerCan(run[n], u, Take)
    ensures run[m].cmds[run[m].lists.wait[0]].ticket < run[n].cmds[run[n].lists.wait[0]].ticket
  {
    assert Can(run[m], acts[m]) && Can(run[n], acts[n]);
    RunKeepsInv(run, acts, m);
    RunKeepsInv(run, acts, n);
    TakenInOrder(run[m], t);
    TakenInOrder(run[n], u);
    TakenGrows(run, acts, m + 1, n);
  }

  lemma {:induction false} TakenGrows(run: seq<State>, acts: seq<Action>, m: nat, n: nat)
    requires Run(run, acts) && m <= n < |run|
    ensures run[m].lists.taken <= run[n].lists.taken
    decreases n
  {
    if m < n {
      TakenGrows(run, acts, m, n - 1);
      TakenAtStep(run, acts, n);
    }
  }

  lemma TakenAtStep(run: seq<State>, acts: seq<Action>, n: nat)
    requires Run(run, acts) && 0 < n < |run|
    ensures run[n - 1].lists.taken <= run[n].lists.taken
  {
    NthStep(run, acts, n);
    TakenStep(run[n - 1], acts[n - 1]);
  }

  lemma TakenStep(s: State, a: Action)
    requires Inv(s) && Can(s, a)
    ensures s.lists.taken <= Does(s, a).lists.taken
  {
  }
}
