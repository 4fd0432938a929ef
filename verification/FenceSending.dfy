/** What becomes of a command with fences on its way to the firmware: when it is sent, that one whose input fences or
    sending failed never is, and that its answer finds its thread. */
module FenceSending {
  import opened Packets
  import opened SessionQueue
  import opened FencePipeline
  import opened FenceInvariant
  import opened FenceRouting
  import opened FenceTheorems

  // Sending.

  /** The step that sends a command: its thread's, once the input fences are there, or, for fences of the firmware, its
      sender's. */
  predicate Sends(s: State, a: Action, id: nat) {
    match a
    case ByWorker(t, step) => step == Send(true) && t in s.threads && s.threads[t].cmd == id
    case BySender(i, step) => step == SendSoc && Holds(s, i) && s.door.senders[i].cmd == id
    case _ => false
  }

  lemma SentByStep(s: State, a: Action, id: nat)
    requires Inv(s) && Can(s, a) && id < |Does(s, a).cmds|
    ensures Does(s, a).cmds[id].sent <==> (id < |s.cmds| && s.cmds[id].sent) || Sends(s, a, id)
    ensures Sends(s, a, id) ==> id < |s.cmds|
  {
    match a {
      case BySender(i, step) => SentBySender(s, i, step, id);
      case ByWorker(t, step) => SentByWorker(s, t, step, id);
      case ByFlusher(step) => if step == Clean { WaitCleaned(s); }
      case ByOther(step) =>
    }
  }

  lemma SentBySender(s: State, i: nat, step: SenderStep, id: nat)
    requires SenderCan(s, i, step) && id < |SenderDoes(s, i, step).cmds|
    ensures SenderDoes(s, i, step).cmds[id].sent <==>
            (id < |s.cmds| && s.cmds[id].sent) || (step == SendSoc && s.door.senders[i].cmd == id)
  {
  }

  lemma SentByWorker(s: State, t: nat, step: WorkerStep, id: nat)
    requires WorkerCan(s, t, step) && id < |WorkerDoes(s, t, step).cmds|
    ensures WorkerDoes(s, t, step).cmds[id].sent <==>
            (id < |s.cmds| && s.cmds[id].sent) || (step == Send(true) && s.threads[t].cmd == id)
  {
  }

  /** In every run a command has gone to the firmware exactly if such a step has been taken for it. */
  lemma {:induction false} SentExactly(run: seq<State>, acts: seq<Action>, n: nat, id: nat)
    requires Run(run, acts) && n < |run| && id < |run[n].cmds|
    ensures run[n].cmds[id].sent <==> exists m :: 0 <= m < n && Sends(run[m], acts[m], id)
  {
    if n > 0 {
      RunKeepsInv(run, acts, n - 1);
      NthStep(run, acts, n);
      SentByStep(run[n - 1], acts[n - 1], id);
      if id < |run[n - 1].cmds| {
        SentExactly(run, acts, n - 1, id);
      } else {
        NotMadeYet(run, acts, n - 1, id);
      }
    }
  }

  // A command that has not been made has not been sent.
  lemma {:induction false} NotMadeYet(run: seq<State>, acts: seq<Action>, n: nat, id: nat)
    requires Run(run, acts) && n < |run| && id >= |run[n].cmds|
    ensures forall m :: 0 <= m < n ==> !Sends(run[m], acts[m], id)
  {
    if n > 0 {
      RunKeepsInv(run, acts, n - 1);
      NthStep(run, acts, n);
      if id < |run[n - 1].cmds| {
        OnlyForward(run[n - 1], acts[n - 1], id);
      }
      NotMadeYet(run, acts, n - 1, id);
      assert Can(run[n - 1], acts[n - 1]);
    }
  }

  /** A thread sends only after the input fences of that very command have been waited for with success. */
  lemma {:induction false} SentAfterInputs(run: seq<State>, acts: seq<Action>, n: nat, t: nat)
    requires Run(run, acts) && n < |run| && Works(run[n], t, Sending)
    ensures Worked(run[n], t).kernel
    ensures exists m :: 0 <= m < n && acts[m] == ByWorker(t, Input(true)) && Works(run[m], t, Begin) &&
                        run[m].threads[t].cmd == run[n].threads[t].cmd
  {
    if n > 0 {
      RunKeepsInv(run, acts, n - 1);
      NthStep(run, acts, n);
      var s, a := run[n - 1], acts[n - 1];
      if Works(s, t, Sending) && s.threads[t].cmd == run[n].threads[t].cmd {
        SentAfterInputs(run, acts, n - 1, t);
        OnlyForward(s, a, s.threads[t].cmd);
      } else {
        StartsSending(s, a, t);
      }
    }
  }

  lemma StartsSending(s: State, a: Action, t: nat)
    requires Inv(s) && Can(s, a) && Works(Does(s, a), t, Sending)
    requires !(Works(s, t, Sending) && s.threads[t].cmd == Does(s, a).threads[t].cmd)
    ensures a == ByWorker(t, Input(true)) && Works(s, t, Begin) && s.threads[t].cmd == Does(s, a).threads[t].cmd
    ensures Worked(Does(s, a), t).kernel
  {
    match a {
      case ByWorker(u, step) => WorkerStartsSending(s, u, step, t);
      case _ =>
    }
  }

  lemma WorkerStartsSending(s: State, u: nat, step: WorkerStep, t: nat)
    requires Inv(s) && WorkerCan(s, u, step) && Works(WorkerDoes(s, u, step), t, Sending)
    requires !(Works(s, t, Sending) && s.threads[t].cmd == WorkerDoes(s, u, step).threads[t].cmd)
    ensures u == t && step == Input(true) && Works(s, t, Begin)
    ensures s.threads[t].cmd == WorkerDoes(s, u, step).threads[t].cmd && Worked(s, t).kernel
  {
  }

  /** With the input fences there the thread goes on to send; without them, or if sending fails, it turns to the output
      fences; and a command of the firmware's fences, which was sent before, to the response. */
  lemma InputsDecide(s: State, t: nat, ok: bool)
    requires Inv(s) && WorkerCan(s, t, Input(ok))
    ensures var u := WorkerDoes(s, t, Input(ok));
            && u.cmds == s.cmds && u.link == s.link
            && (Worked(s, t).kernel && ok ==> WorkerCan(u, t, Send(true)) && WorkerCan(u, t, Send(false)))
            && (Worked(s, t).kernel && !ok ==> WorkerCan(u, t, Output) && !WorkerCan(u, t, Send(true)))
            && (!Worked(s, t).kernel ==> Worked(s, t).sent && WorkerCan(u, t, GiveUp) && !WorkerCan(u, t, Send(true)))
  {
    assert Settled(Worked(s, t), s.threads);
  }

  /** A command made with kernel fences can be queued and not sent by its sender; one with fences of the firmware must
      be sent first, and is then queued and not dropped. Either has a transaction id of its own, the next one. */
  lemma MadeThenQueued(s: State, i: nat, kernel: bool)
    requires Inv(s) && SenderCan(s, i, Make(kernel))
    ensures var u := SenderDoes(s, i, Make(kernel));
            && Holds(u, i) && Held(u, i).kernel == kernel && Held(u, i).ktid == u.link.transId % FENCE_BIT
            && u.link.transId == s.link.transId + 1
            && (kernel ==> SenderCan(u, i, Append) && !SenderCan(u, i, SendSoc))
            && (!kernel ==> SenderCan(u, i, SendSoc) && !SenderCan(u, i, Append))
            && (!kernel ==> var v := SenderDoes(u, i, SendSoc); SenderCan(v, i, Append) && !SenderCan(v, i, Drop))
  {
  }

  /** The firmware's answer to a command's data reaches the thread that waits for it, if there is room in the queue. */
  lemma ResponseArrives(s: State, t: nat, body: seq<Word>)
    requires Inv(s) && Routing(s) && s.link.transId < FENCE_BIT && Works(s, t, Receiving)
    requires OtherCan(s, Respond(KeyOf(Worked(s, t).ktid), body)) && |s.link.inbox.fenced| < 128
    ensures var k := KeyOf(Worked(s, t).ktid); var u := OtherDoes(s, Respond(k, body));
            && WorkerCan(u, t, Receive) && Picked(u.link.inbox.fenced, k) == Some(Msg(k, body))
            && Picked(WorkerDoes(u, t, Receive).link.inbox.fenced, k) == None
            && WorkerDoes(u, t, Receive).link.inbox == s.link.inbox
  {
    var k, before := KeyOf(Worked(s, t).ktid), s.link.inbox.fenced;
    RoutedExactly(s.link.inbox, Msg(k, body));
    FirstAt(before, k, |before|);
    FirstAt(before + [Msg(k, body)], k, |before|);
    assert (before + [Msg(k, body)])[..|before|] + (before + [Msg(k, body)])[|before| + 1..] == before;
  }

  // Failure.

  /** A command with kernel fences that was not sent, and whose thread is past sending. */
  ghost predicate Abandoned(s: State, id: nat) {
    && id < |s.cmds| && s.cmds[id].kernel && !s.cmds[id].sent
    && match s.cmds[id].place
       case Scheduled(t) => t in s.threads && s.threads[t].cmd == id && s.threads[t].stage in {Finishing, Retiring}
       case place => place == Freed
  }

  lemma AbandonedByWorker(s: State, t: nat, step: WorkerStep, id: nat)
    requires Inv(s) && WorkerCan(s, t, step) && Abandoned(s, id)
    ensures Abandoned(WorkerDoes(s, t, step), id)
  {
    WorkerForward(s, t, step, id);
  }

  lemma AbandonedBySender(s: State, i: nat, step: SenderStep, id: nat)
    requires Inv(s) && SenderCan(s, i, step) && Abandoned(s, id)
    ensures Abandoned(SenderDoes(s, i, step), id)
  {
  }

  lemma StaysAbandoned(s: State, a: Action, id: nat)
    requires Inv(s) && Can(s, a) && Abandoned(s, id)
    ensures Abandoned(Does(s, a), id) && Does(s, a).cmds[id].ktid == s.cmds[id].ktid
  {
    OnlyForward(s, a, id);
    match a {
      case BySender(i, step) => AbandonedBySender(s, i, step, id);
      case ByWorker(t, step) => AbandonedByWorker(s, t, step, id);
      case ByFlusher(step) => if step == Clean { WaitCleaned(s); }
      case ByOther(step) =>
    }
  }

  /** A wait for input fences, or a sending, that failed. */
  predicate Fails(step: WorkerStep) {
    step == Input(false) || step == Send(false)
  }

  lemma FailureAbandons(s: State, t: nat, step: WorkerStep)
    requires Inv(s) && WorkerCan(s, t, step) && Fails(step) && Worked(s, t).kernel
    ensures Abandoned(WorkerDoes(s, t, step), s.threads[t].cmd)
    ensures WorkerDoes(s, t, step).cmds[s.threads[t].cmd].ktid == Worked(s, t).ktid
  {
    assert Settled(Worked(s, t), s.threads);
  }

  lemma {:induction false} AbandonedLater(run: seq<State>, acts: seq<Action>, m: nat, n: nat, id: nat)
    requires Run(run, acts) && m <= n < |run| && Abandoned(run[m], id)
    ensures Abandoned(run[n], id) && run[n].cmds[id].ktid == run[m].cmds[id].ktid
    decreases n
  {
    if m < n {
      AbandonedLater(run, acts, m, n - 1, id);
      AbandonedNext(run, acts, n, id);
    }
  }

  lemma AbandonedNext(run: seq<State>, acts: seq<Action>, n: nat, id: nat)
    requires Run(run, acts) && 0 < n < |run| && Abandoned(run[n - 1], id)
    ensures Abandoned(run[n], id) && run[n].cmds[id].ktid == run[n - 1].cmds[id].ktid
  {
    NthStep(run, acts, n);
    StaysAbandoned(run[n - 1], acts[n - 1], id);
  }

  /** Once waiting for its input fences or sending has failed, a command never goes to the firmware, however the run
      goes on: it is not sent, and until the counter goes round its data is not among what the firmware was sent. */
  lemma FailureIsNeverSent(run: seq<State>, acts: seq<Action>, m: nat, n: nat, t: nat, step: WorkerStep)
    requires Run(run, acts) && m < n < |run| && acts[m] == ByWorker(t, step) && Fails(step)
    requires t in run[m].threads && run[m].threads[t].cmd < |run[m].cmds| && Worked(run[m], t).kernel
    ensures var id := run[m].threads[t].cmd;
            && Abandoned(run[n], id) && !run[n].cmds[id].sent && run[n].cmds[id].ktid == run[m].cmds[id].ktid
            && (run[n].link.transId < FENCE_BIT ==> KeyOf(run[n].cmds[id].ktid) !in run[n].link.keys)
  {
    NthStep(run, acts, m + 1);
    FailureAbandons(run[m], t, step);
    AbandonedLater(run, acts, m + 1, n, run[m].threads[t].cmd);
    RunKeepsRouting(run, acts, n);
    NotAmongKeys(run[n], run[m].threads[t].cmd);
  }

  lemma NotAmongKeys(s: State, id: nat)
    requires Routing(s) && id < |s.cmds| && !s.cmds[id].sent
    ensures s.link.transId < FENCE_BIT ==> KeyOf(s.cmds[id].ktid) !in s.link.keys
  {
  }
}
