/** Responses find their way: transaction ids are distinct, each goes to the firmware once, and each answer waits in
    the right queue for exactly one thread. */
module FenceRouting {
  import opened Lists
  import opened Packets
  import opened SessionQueue
  import opened FencePipeline
  import opened FenceInvariant

  /** Commands have transaction ids of their own, above the ids packets are numbered by. */
  ghost predicate Numbered(cmds: seq<Cmd>, transId: nat) {
    && (forall id :: 0 <= id < |cmds| ==> FIRST_KTID < cmds[id].ktid <= transId)
    && (forall i, j :: 0 <= i < j < |cmds| ==> cmds[i].ktid < cmds[j].ktid)
  }

  /** What the firmware was ever sent under an id: nothing twice, and a command's data exactly when the command was
      sent. */
  ghost predicate Keyed(cmds: seq<Cmd>, keys: set<Kdata>, transId: nat) {
    && (forall k <- keys :: k % FENCE_BIT <= transId)
    && (forall id :: 0 <= id < |cmds| ==> (cmds[id].sent <==> KeyOf(cmds[id].ktid) in keys))
  }

  /** Responses in one queue: to data that was sent and is not awaited from the firmware any more, all different, those
      without an id aside. */
  ghost predicate Filed(msgs: seq<Msg>, fenced: bool, wire: set<Kdata>, keys: set<Kdata>) {
    && |msgs| <= MAX_MSGS
    && (forall n :: 0 <= n < |msgs| ==>
          var k := msgs[n].kdata; Fenced(k) == fenced && (k == 0 || (k in keys && k !in wire)))
    && (forall m, n :: 0 <= m < n < |msgs| ==> msgs[m].kdata != msgs[n].kdata || msgs[m].kdata == 0)
  }

  /** All of it, until the transaction counter has gone round. */
  ghost predicate Routing(s: State) {
    s.link.transId < FENCE_BIT ==>
      && s.link.transId >= FIRST_KTID
      && Numbered(s.cmds, s.link.transId)
      && Keyed(s.cmds, s.link.keys, s.link.transId)
      && s.link.wire <= s.link.keys
      && Filed(s.link.inbox.fenced, true, s.link.wire, s.link.keys)
      && Filed(s.link.inbox.plain, false, s.link.wire, s.link.keys)
  }

  // What changes commands without touching their numbers or their being sent.
  ghost predicate SameKeys(cmds: seq<Cmd>, cmds': seq<Cmd>) {
    && |cmds| == |cmds'|
    && forall id :: 0 <= id < |cmds| ==> cmds'[id].ktid == cmds[id].ktid && cmds'[id].sent == cmds[id].sent
  }

  lemma SameRouting(s: State, s': State)
    requires Routing(s) && SameKeys(s.cmds, s'.cmds) && s'.link == s.link.(bare := s'.link.bare)
    ensures Routing(s')
  {
  }

  // A command that was not sent before goes to the firmware.
  lemma KeySent(s: State, s': State, id: nat)
    requires Routing(s) && id < |s.cmds| && !s.cmds[id].sent
    requires s'.cmds == s.cmds[id := s.cmds[id].(sent := true)] && s'.link == Sent(s.link, KeyOf(s.cmds[id].ktid))
    ensures Routing(s')
  {
    if s.link.transId < FENCE_BIT {
      forall i | 0 <= i < |s.cmds| && i != id ensures KeyOf(s.cmds[i].ktid) != KeyOf(s.cmds[id].ktid) {
        assert s.cmds[i].ktid != s.cmds[id].ktid;
      }
    }
  }

  lemma PlainSent(s: State, i: nat)
    requires Routing(s) && SenderCan(s, i, SendPlain)
    ensures Routing(SenderDoes(s, i, SendPlain))
  {
    var k := (s.link.transId + 1) % FENCE_BIT;
    if s.link.transId + 1 < FENCE_BIT {
      assert k == s.link.transId + 1 && k % FENCE_BIT == k;
      assert k !in s.link.keys;
    }
  }

  lemma SenderKeepsRouting(s: State, i: nat, step: SenderStep)
    requires Inv(s) && Routing(s) && SenderCan(s, i, step)
    ensures Routing(SenderDoes(s, i, step))
  {
    match step {
      case Make(kernel) => NumberTaken(s, i, kernel);
      case SendPlain => PlainSent(s, i);
      case SendSoc => KeySent(s, SenderDoes(s, i, step), s.door.senders[i].cmd);
      case _ => SameRouting(s, SenderDoes(s, i, step));
    }
  }

  lemma NumberTaken(s: State, i: nat, kernel: bool)
    requires Routing(s) && SenderCan(s, i, Make(kernel))
    ensures Routing(SenderDoes(s, i, Make(kernel)))
  {
    if s.link.transId + 1 < FENCE_BIT {
      var ktid := (s.link.transId + 1) % FENCE_BIT;
      assert ktid == s.link.transId + 1;
      assert KeyOf(ktid) % FENCE_BIT == ktid;
      assert KeyOf(ktid) !in s.link.keys;
    }
  }

  lemma WorkerKeepsRouting(s: State, t: nat, step: WorkerStep)
    requires Inv(s) && Routing(s) && WorkerCan(s, t, step)
    ensures Routing(WorkerDoes(s, t, step))
  {
    match step {
      case Send(ok) =>
        if ok {
          assert Settled(Worked(s, t), s.threads);
          KeySent(s, WorkerDoes(s, t, step), s.threads[t].cmd);
        } else {
          SameRouting(s, WorkerDoes(s, t, step));
        }
      case Receive => Received(s, t);
      case _ => SameRouting(s, WorkerDoes(s, t, step));
    }
  }

  lemma LeftAt(msgs: seq<Msg>, k: Kdata) returns (i: nat)
    ensures i <= |msgs|
    ensures Left(msgs, k) == if i < |msgs| then Without(msgs, i) else msgs
    ensures Picked(msgs, k) == if i < |msgs| then Some(msgs[i]) else None
    ensures (forall j :: 0 <= j < i ==> msgs[j].kdata != k) && (i < |msgs| ==> msgs[i].kdata == k)
  {
    i := 0;
    while i < |msgs| && msgs[i].kdata != k
      invariant i <= |msgs| && forall j :: 0 <= j < i ==> msgs[j].kdata != k
    {
      i := i + 1;
    }
    FirstAt(msgs, k, i);
  }

  lemma LeftFiled(msgs: seq<Msg>, k: Kdata, fenced: bool, wire: set<Kdata>, keys: set<Kdata>)
    requires Filed(msgs, fenced, wire, keys) && k != 0
    ensures Filed(Left(msgs, k), fenced, wire, keys)
    ensures forall n :: 0 <= n < |Left(msgs, k)| ==> Left(msgs, k)[n].kdata != k
  {
    var i := LeftAt(msgs, k);
    if i < |msgs| {
      RestFiled(msgs, i, fenced, wire, keys);
    }
  }

  lemma RestFiled(msgs: seq<Msg>, i: nat, fenced: bool, wire: set<Kdata>, keys: set<Kdata>)
    requires Filed(msgs, fenced, wire, keys) && i < |msgs|
    ensures Filed(Without(msgs, i), fenced, wire, keys)
    ensures msgs[i].kdata != 0 ==>
              forall n :: 0 <= n < |Without(msgs, i)| ==> Without(msgs, i)[n].kdata != msgs[i].kdata
  {
    var rest := Without(msgs, i);
    assert forall n :: 0 <= n < |rest| ==> rest[n] == msgs[if n < i then n else n + 1];
  }

  lemma Received(s: State, t: nat)
    requires Routing(s) && WorkerCan(s, t, Receive)
    ensures Routing(WorkerDoes(s, t, Receive))
  {
    if s.link.transId < FENCE_BIT {
      LeftFiled(s.link.inbox.fenced, KeyOf(Worked(s, t).ktid), true, s.link.wire, s.link.keys);
    }
  }

  lemma FlusherKeepsRouting(s: State, step: FlusherStep)
    requires Inv(s) && Routing(s) && FlusherCan(s, step)
    ensures Routing(FlusherDoes(s, step))
  {
    if step == Clean {
      WaitCleaned(s);
    }
    SameRouting(s, FlusherDoes(s, step));
  }

  lemma OtherKeepsRouting(s: State, step: OtherStep)
    requires Routing(s) && OtherCan(s, step)
    ensures Routing(OtherDoes(s, step))
  {
  }

  lemma StepKeepsRouting(s: State, a: Action)
    requires Inv(s) && Routing(s) && Can(s, a)
    ensures Routing(Does(s, a))
  {
    match a {
      case BySender(i, step) => SenderKeepsRouting(s, i, step);
      case ByWorker(t, step) => WorkerKeepsRouting(s, t, step);
      case ByFlusher(step) => FlusherKeepsRouting(s, step);
      case ByOther(step) => OtherKeepsRouting(s, step);
    }
  }

  lemma {:induction false} RunKeepsRouting(run: seq<State>, acts: seq<Action>, n: nat)
    requires Run(run, acts) && n < |run|
    ensures Inv(run[n]) && Routing(run[n])
  {
    RunKeepsInv(run, acts, n);
    if n > 0 {
      RunKeepsRouting(run, acts, n - 1);
      StepKeepsRouting(run[n - 1], acts[n - 1]);
    }
  }

  /** A thread that receives takes a response that carries its own data; there is no second one of the kind, and
      the rest keep their order. */
  lemma OwnResponse(s: State, t: nat)
    requires Routing(s) && WorkerCan(s, t, Receive) && s.link.transId < FENCE_BIT
    ensures var k, before := KeyOf(Worked(s, t).ktid), s.link.inbox.fenced;
            var after := WorkerDoes(s, t, Receive).link.inbox.fenced;
            && Worked(s, t).ktid > FIRST_KTID && Picked(before, k).Some? && Picked(before, k).value.kdata == k
            && Picked(after, k) == None && Others(after, k) == Others(before, k) && |after| == |before| - 1
  {
    var k, before := KeyOf(Worked(s, t).ktid), s.link.inbox.fenced;
    TakesOwnOldest(before, k);
    var i := LeftAt(before, k);
    LeftFiled(before, k, true, s.link.wire, s.link.keys);
    FirstAt(Left(before, k), k, |Left(before, k)|);
  }

  /** What any other thread would find is as before. */
  lemma OthersFindTheirs(s: State, t: nat, u: nat)
    requires Inv(s) && Routing(s) && WorkerCan(s, t, Receive) && s.link.transId < FENCE_BIT
    requires u != t && Works(s, u, Receiving)
    ensures var k, after := KeyOf(Worked(s, u).ktid), WorkerDoes(s, t, Receive).link.inbox.fenced;
            k != KeyOf(Worked(s, t).ktid) && Picked(after, k) == Picked(s.link.inbox.fenced, k)
  {
    KeysApart(s, t, u);
    WaitersCommute(s.link.inbox.fenced, KeyOf(Worked(s, t).ktid), KeyOf(Worked(s, u).ktid));
  }

  lemma KeysApart(s: State, t: nat, u: nat)
    requires Inv(s) && Routing(s) && s.link.transId < FENCE_BIT
    requires t in s.threads && u in s.threads && t != u
    ensures s.threads[t].cmd < |s.cmds| && s.threads[u].cmd < |s.cmds|
    ensures KeyOf(Worked(s, t).ktid) != KeyOf(Worked(s, u).ktid)
  {
    assert s.threads[u].cmd != s.threads[t].cmd;
    assert Worked(s, u).ktid != Worked(s, t).ktid;
  }
}
