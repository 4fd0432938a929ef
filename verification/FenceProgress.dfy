/** Everybody inside the fence pipeline gets out, and what a flush waits for. */
module FenceProgress {
  import opened FencePipeline
  import opened FenceInvariant
  import opened FenceTheorems

  /** How many steps a thread still has with its command at most. */
  function StepsLeft(stage: Stage): nat {
    match stage case Begin => 5 case Sending => 4 case Receiving => 3 case Finishing => 2 case Retiring => 1
  }

  /** Nobody inside the pipeline is ever stuck: a thread with a command, a sender inside its window and a flusher each
      have a step to take that needs nobody else's; an open door lets senders in, a waiting command can be taken, and a
      flusher goes on once there is nobody to wait for. */
  lemma NeverStuck(s: State)
    requires Inv(s)
    ensures !s.door.draining ==> forall i :: i !in s.door.senders ==> SenderCan(s, i, Enter)
    ensures s.lists.running && s.lists.wait != [] ==> forall t :: t !in s.threads ==> WorkerCan(s, t, Take)
    ensures s.door.flusher == Draining && s.door.senders == map[] ==> FlusherCan(s, SeeZero)
    ensures s.door.flusher == Emptying && s.threads == map[] ==> FlusherCan(s, SeeEmpty)
    ensures forall t <- s.threads :: exists step :: WorkerCan(s, t, step) && step != Receive && step != Take
    ensures forall i <- s.door.senders :: exists step :: SenderCan(s, i, step)
    ensures s.door.flusher != Idle ==> exists step :: FlusherCan(s, step)
  {
    forall t <- s.threads ensures exists step :: WorkerCan(s, t, step) && step != Receive && step != Take {
      var step := match s.threads[t].stage
        case Begin => Input(true)
        case Sending => Send(true)
        case Receiving => GiveUp
        case Finishing => Output
        case Retiring => Retire;
      assert WorkerCan(s, t, step);
    }
    forall i <- s.door.senders ensures exists step :: SenderCan(s, i, step) {
      var step := match s.door.senders[i]
        case Mapping => Fail
        case Holding(cmd) => if s.cmds[cmd].sent then Append else Drop
        case Leaving => SenderStep.Leave;
      assert SenderCan(s, i, step);
    }
    if s.lists.sched != [] {
      var id := s.lists.sched[0];
      assert s.cmds[id].place.thread in s.threads;
    }
    if s.door.flusher != Idle {
      var step := match s.door.flusher
        case Draining => TimeOut
        case Cleaning => Clean
        case Flushing => Firmware(true)
        case Emptying => StillBusy
        case _ => EndFlush;
      assert FlusherCan(s, step);
    }
  }

  /** The thread is done with the command, or has it and no more than that many steps to go. */
  ghost predicate Within(s: State, t: nat, id: nat, left: int) {
    && id < |s.cmds|
    && (s.cmds[id].place == Freed ||
        (s.cmds[id].place == Scheduled(t) && t in s.threads && s.threads[t].cmd == id &&
         StepsLeft(s.threads[t].stage) <= left))
  }

  predicate StepOf(a: Action, t: nat) {
    a.ByWorker? && a.t == t
  }

  lemma OneStepNearer(s: State, a: Action, t: nat, id: nat, left: int)
    requires Inv(s) && Can(s, a) && Within(s, t, id, left)
    ensures Within(Does(s, a), t, id, if StepOf(a, t) then left - 1 else left)
  {
    OnlyForward(s, a, id);
    match a {
      case BySender(i, step) => SenderLeaves(s, i, step, t, id);
      case ByWorker(u, step) => WorkerNearer(s, u, step, t, id, left);
      case ByFlusher(step) => if step == Clean { WaitCleaned(s); }
      case ByOther(step) =>
    }
  }

  lemma SenderLeaves(s: State, i: nat, step: SenderStep, t: nat, id: nat)
    requires Inv(s) && SenderCan(s, i, step) && id < |s.cmds| && !s.cmds[id].place.InHand?
    ensures SenderDoes(s, i, step).threads == s.threads && id < |SenderDoes(s, i, step).cmds|
    ensures SenderDoes(s, i, step).cmds[id].place == s.cmds[id].place
  {
  }

  lemma WorkerNearer(s: State, u: nat, step: WorkerStep, t: nat, id: nat, left: int)
    requires Inv(s) && WorkerCan(s, u, step) && Within(s, t, id, left)
    ensures Within(WorkerDoes(s, u, step), t, id, if u == t then left - 1 else left)
  {
    if u == t {
      OwnStep(s, t, step, id, left);
    } else {
      OthersStep(s, u, step, t, id, left);
    }
  }

  lemma OwnStep(s: State, t: nat, step: WorkerStep, id: nat, left: int)
    requires Inv(s) && WorkerCan(s, t, step) && Within(s, t, id, left)
    ensures Within(WorkerDoes(s, t, step), t, id, left - 1)
  {
    WorkerForward(s, t, step, id);
  }

  lemma OthersStep(s: State, u: nat, step: WorkerStep, t: nat, id: nat, left: int)
    requires Inv(s) && WorkerCan(s, u, step) && Within(s, t, id, left) && u != t
    ensures Within(WorkerDoes(s, u, step), t, id, left)
  {
    WorkerForward(s, u, step, id);
  }

  function StepsOf(acts: seq<Action>, t: nat): nat {
    if acts == [] then 0 else StepsOf(acts[..|acts| - 1], t) + if StepOf(acts[|acts| - 1], t) then 1 else 0
  }

  /** After acts[m..n], of what was left at m. */
  ghost predicate Nearing(run: seq<State>, acts: seq<Action>, m: nat, n: nat, t: nat, id: nat, left: int)
    requires m <= n <= |acts| && n < |run|
  {
    Within(run[n], t, id, left - StepsOf(acts[m..n], t))
  }

  lemma {:induction false} NearerLater(run: seq<State>, acts: seq<Action>, m: nat, n: nat, t: nat, id: nat, left: int)
    requires Run(run, acts) && m <= n < |run| && Within(run[m], t, id, left)
    ensures Nearing(run, acts, m, n, t, id, left)
    decreases n
  {
    if m == n {
      assert acts[m..n] == [];
    } else {
      NearerLater(run, acts, m, n - 1, t, id, left);
      NearerNext(run, acts, m, n, t, id, left);
    }
  }

  lemma NearerNext(run: seq<State>, acts: seq<Action>, m: nat, n: nat, t: nat, id: nat, left: int)
    requires Run(run, acts) && m < n < |run| && Nearing(run, acts, m, n - 1, t, id, left)
    ensures Nearing(run, acts, m, n, t, id, left)
  {
    StepsSnoc(acts, m, n, t);
    NearerStep(run, acts, n, t, id, left - StepsOf(acts[m..n - 1], t));
  }

  lemma NearerStep(run: seq<State>, acts: seq<Action>, n: nat, t: nat, id: nat, left: int)
    requires Run(run, acts) && 0 < n < |run| && Within(run[n - 1], t, id, left)
    ensures Within(run[n], t, id, if StepOf(acts[n - 1], t) then left - 1 else left)
  {
    NthStep(run, acts, n);
    OneStepNearer(run[n - 1], acts[n - 1], t, id, left);
  }

  lemma StepsSnoc(acts: seq<Action>, m: nat, n: nat, t: nat)
    requires m < n <= |acts|
    ensures StepsOf(acts[m..n], t) == StepsOf(acts[m..n - 1], t) + if StepOf(acts[n - 1], t) then 1 else 0
  {
    assert acts[m..n][..n - m - 1] == acts[m..n - 1];
  }

  /** A command that a thread has taken is freed by the time the thread has made the steps it has left, at most five,
      whatever everybody else does meanwhile. */
  lemma TakenIsFreed(run: seq<State>, acts: seq<Action>, m: nat, n: nat, t: nat)
    requires Run(run, acts) && m <= n < |run| && t in run[m].threads
    requires StepsOf(acts[m..n], t) >= StepsLeft(run[m].threads[t].stage)
    ensures var id := run[m].threads[t].cmd; id < |run[n].cmds| && run[n].cmds[id].place == Freed
  {
    RunKeepsInv(run, acts, m);
    NearerLater(run, acts, m, n, t, run[m].threads[t].cmd, StepsLeft(run[m].threads[t].stage));
  }

  // Flushes.

  /** A flush gets to wait for sched_list, and to succeed, only after the firmware's own flush did. */
  lemma {:induction false} FirmwareFlushed(run: seq<State>, acts: seq<Action>, n: nat)
    requires Run(run, acts) && n < |run| && run[n].door.flusher in {Emptying, Done(true, true)}
    ensures exists m :: 0 <= m < n && acts[m] == ByFlusher(Firmware(true)) && NoNewFlush(acts, m, n)
  {
    if n > 0 {
      FlusherCameAt(run, acts, n);
      if acts[n - 1] == ByFlusher(Firmware(true)) {
        assert NoNewFlush(acts, n - 1, n);
      } else {
        FirmwareFlushed(run, acts, n - 1);
        var m :| 0 <= m < n - 1 && acts[m] == ByFlusher(Firmware(true)) && NoNewFlush(acts, m, n - 1);
        StillNoNewFlush(acts, m, n);
      }
    }
  }

  predicate NoNewFlush(acts: seq<Action>, m: int, n: int)
    requires 0 <= m <= n <= |acts|
  {
    ByFlusher(StartFlush) !in acts[m..n]
  }

  lemma StillNoNewFlush(acts: seq<Action>, m: nat, n: nat)
    requires m < n <= |acts| && NoNewFlush(acts, m, n - 1) && acts[n - 1] != ByFlusher(StartFlush)
    ensures NoNewFlush(acts, m, n)
  {
    assert acts[m..n] == acts[m..n - 1] + [acts[n - 1]];
  }

  lemma FlusherCameAt(run: seq<State>, acts: seq<Action>, n: nat)
    requires Run(run, acts) && 0 < n < |run| && run[n].door.flusher in {Emptying, Done(true, true)}
    ensures acts[n - 1] != ByFlusher(StartFlush)
    ensures acts[n - 1] != ByFlusher(Firmware(true)) ==> run[n - 1].door.flusher in {Emptying, Done(true, true)}
  {
    NthStep(run, acts, n);
    FlusherCame(run[n - 1], acts[n - 1]);
  }

  lemma FlusherCame(s: State, a: Action)
    requires Can(s, a) && Does(s, a).door.flusher in {Emptying, Done(true, true)}
    ensures a != ByFlusher(StartFlush)
    ensures a != ByFlusher(Firmware(true)) ==> s.door.flusher in {Emptying, Done(true, true)}
  {
  }

  /** The door is shut exactly from the start of a flush to its end; after one that ends a session it stays shut. */
  lemma {:induction false} DrainingExactly(run: seq<State>, acts: seq<Action>, n: nat)
    requires Run(run, acts) && n < |run|
    ensures run[n].door.draining <==>
            exists m :: 0 <= m < n && acts[m] == ByFlusher(StartFlush) && NotReopened(acts, m, n)
  {
    if n > 0 {
      DrainingExactly(run, acts, n - 1);
      DoorMoved(run, acts, n);
      if run[n].door.draining {
        if acts[n - 1] == ByFlusher(StartFlush) {
          assert NotReopened(acts, n - 1, n);
        } else {
          var m :| 0 <= m < n - 1 && acts[m] == ByFlusher(StartFlush) && NotReopened(acts, m, n - 1);
          NotReopenedNext(acts, m, n);
        }
      } else if m :| 0 <= m < n && acts[m] == ByFlusher(StartFlush) && NotReopened(acts, m, n) {
        StillReopened(acts, m, n);
        assert false;
      }
    }
  }

  predicate NotReopened(acts: seq<Action>, m: int, n: int)
    requires 0 <= m <= n <= |acts|
  {
    ByFlusher(EndFlush) !in acts[m..n]
  }

  lemma NotReopenedNext(acts: seq<Action>, m: nat, n: nat)
    requires m < n <= |acts| && NotReopened(acts, m, n - 1) && acts[n - 1] != ByFlusher(EndFlush)
    ensures NotReopened(acts, m, n)
  {
    assert acts[m..n] == acts[m..n - 1] + [acts[n - 1]];
  }

  lemma StillReopened(acts: seq<Action>, m: nat, n: nat)
    requires m < n <= |acts| && NotReopened(acts, m, n)
    ensures NotReopened(acts, m, n - 1) && acts[n - 1] != ByFlusher(EndFlush)
  {
    assert acts[m..n] == acts[m..n - 1] + [acts[n - 1]];
  }

  lemma DoorMoved(run: seq<State>, acts: seq<Action>, n: nat)
    requires Run(run, acts) && 0 < n < |run|
    ensures run[n].door.draining <==>
            acts[n - 1] == ByFlusher(StartFlush) || (run[n - 1].door.draining && acts[n - 1] != ByFlusher(EndFlush))
  {
    NthStep(run, acts, n);
    DoorStep(run[n - 1], acts[n - 1]);
  }

  lemma DoorStep(s: State, a: Action)
    requires Can(s, a)
    ensures Does(s, a).door.draining <==>
            a == ByFlusher(StartFlush) || (s.door.draining && a != ByFlusher(EndFlush))
  {
  }
}
