/** The queues of responses a session keeps: which one a response goes to, and how a waiter takes its own. */
module SessionQueue {
  import opened Packets

  const MAX_MSGS: nat := 128

  type Kdata = k: int | 0 <= k < 0x1_0000_0000_0000_0000

  /** A response, with the kernel data the firmware echoes and the rest of the packet. */
  datatype Msg = Msg(kdata: Kdata, body: seq<Word>)

  datatype Queues = Queues(plain: seq<Msg>, fenced: seq<Msg>)

  predicate Fenced(k: Kdata) {
    k >= FENCE_BIT
  }

  /** A full queue takes no more. */
  function Accepted(msgs: seq<Msg>, m: Msg): seq<Msg> {
    if |msgs| >= MAX_MSGS then msgs else msgs + [m]
  }

  /** hfi_process_session_cvp_msg: the fence bit of the echoed data chooses the queue. */
  function Routed(q: Queues, m: Msg): Queues {
    if Fenced(m.kdata) then q.(fenced := Accepted(q.fenced, m)) else q.(plain := Accepted(q.plain, m))
  }

  /** A response with the fence bit, bit 63 of its data, joins the end of one queue, and any other the end of the other,
      if fewer than 128 are there; nothing else changes. */
  lemma RoutedExactly(q: Queues, m: Msg)
    ensures m.kdata >= 0x8000_0000_0000_0000 ==>
              Routed(q, m) == Queues(q.plain, if |q.fenced| < 128 then q.fenced + [m] else q.fenced)
    ensures m.kdata < 0x8000_0000_0000_0000 ==>
              Routed(q, m) == Queues(if |q.plain| < 128 then q.plain + [m] else q.plain, q.fenced)
  {
  }

  /** The first message for one waiter. */
  function Picked(msgs: seq<Msg>, k: Kdata): Option<Msg> {
    if msgs == [] then None else if msgs[0].kdata == k then Some(msgs[0]) else Picked(msgs[1..], k)
  }

  /** The messages that stay when it is taken. */
  function Left(msgs: seq<Msg>, k: Kdata): seq<Msg> {
    if msgs == [] then [] else if msgs[0].kdata == k then msgs[1..] else [msgs[0]] + Left(msgs[1..], k)
  }

  /** Those of one waiter, in order. */
  function Only(msgs: seq<Msg>, k: Kdata): seq<Msg> {
    if msgs == [] then [] else if msgs[0].kdata == k then [msgs[0]] + Only(msgs[1..], k) else Only(msgs[1..], k)
  }

  /** Those of everybody else, in order. */
  function Others(msgs: seq<Msg>, k: Kdata): seq<Msg> {
    if msgs == [] then [] else if msgs[0].kdata == k then Others(msgs[1..], k) else [msgs[0]] + Others(msgs[1..], k)
  }

  /** Taking a message takes the waiter's oldest and nobody else's: the others stay, in their order. */
  lemma {:induction false} TakesOwnOldest(msgs: seq<Msg>, k: Kdata)
    ensures Picked(msgs, k) == (if Only(msgs, k) == [] then None else Some(Only(msgs, k)[0]))
    ensures Only(Left(msgs, k), k) == if Only(msgs, k) == [] then [] else Only(msgs, k)[1..]
    ensures Others(Left(msgs, k), k) == Others(msgs, k)
    ensures |Left(msgs, k)| == |msgs| - if Picked(msgs, k).Some? then 1 else 0
  {
    if msgs != [] && msgs[0].kdata != k {
      TakesOwnOldest(msgs[1..], k);
      assert Left(msgs, k)[1..] == Left(msgs[1..], k);
    }
  }

  /** Two waiters do not disturb each other, whichever comes first. */
  lemma {:induction false} WaitersCommute(msgs: seq<Msg>, a: Kdata, b: Kdata)
    requires a != b
    ensures Picked(Left(msgs, a), b) == Picked(msgs, b)
    ensures Left(Left(msgs, a), b) == Left(Left(msgs, b), a)
  {
    if msgs != [] {
      WaitersCommute(msgs[1..], a, b);
      assert msgs[0].kdata != a ==> Left(msgs, a)[1..] == Left(msgs[1..], a);
      assert msgs[0].kdata != b ==> Left(msgs, b)[1..] == Left(msgs[1..], b);
    }
  }

  // The first message of a waiter is at i, or there is none.
  lemma {:induction false} FirstAt(msgs: seq<Msg>, k: Kdata, i: nat)
    requires i <= |msgs| && forall j :: 0 <= j < i ==> msgs[j].kdata != k
    requires i < |msgs| ==> msgs[i].kdata == k
    ensures Picked(msgs, k) == if i < |msgs| then Some(msgs[i]) else None
    ensures Left(msgs, k) == if i < |msgs| then msgs[..i] + msgs[i + 1..] else msgs
  {
    if i > 0 {
      assert forall j :: 0 <= j < i - 1 ==> msgs[1..][j] == msgs[j + 1];
      FirstAt(msgs[1..], k, i - 1);
    }
  }

  datatype QueueState = Init | Active | Started | Stopped | Invalid

  /** What a waiter learns: nothing yet, or a message, or that the session is being deleted. */
  datatype News = Nothing | Got(msg: Msg) | Deleted

  /** One queue as the driver keeps it, with its count beside the list. */
  class Queue {
    var msgs: seq<Msg>
    var msgCount: nat
    var state: QueueState

    ghost predicate Valid()
      reads this
    {
      msgCount == |msgs| <= MAX_MSGS
    }

    constructor ()
      ensures Valid() && msgs == [] && state == Init
    {
      msgs, msgCount, state := [], 0, Init;
    }

    method Enqueue(m: Msg) returns (ok: bool)
      requires Valid()
      modifies `msgs, `msgCount
      ensures Valid() && msgs == Accepted(old(msgs), m) && (ok <==> |old(msgs)| < 128)
      ensures ok ==> msgs == old(msgs) + [m]
      ensures !ok ==> msgs == old(msgs)
    {
      if msgCount >= MAX_MSGS {
        return false;
      }
      msgs, msgCount := msgs + [m], msgCount + 1;
      return true;
    }

    /** cvp_msg_pending: without a waiter's data the head of the list, with it the first message that carries it. */
    method MsgPending(ktid: Option<Kdata>) returns (news: News)
      requires Valid()
      modifies `msgs, `msgCount
      ensures Valid()
      ensures news == Deleted <==> state in {Init, Invalid}
      ensures state in {Init, Invalid} ==> msgs == old(msgs)
      ensures state !in {Init, Invalid} && ktid.None? ==>
                if old(msgs) == [] then news == Nothing && msgs == []
                else news == Got(old(msgs)[0]) && msgs == old(msgs)[1..]
      ensures state !in {Init, Invalid} && ktid.Some? ==>
                && msgs == Left(old(msgs), ktid.value)
                && news == match Picked(old(msgs), ktid.value) case None => Nothing case Some(m) => Got(m)
    {
      if state == Init || state == Invalid {
        return Deleted;
      }
      if msgs == [] {
        return Nothing;
      }
      if ktid.None? {
        news := Got(msgs[0]);
        msgs, msgCount := msgs[1..], msgCount - 1;
        return;
      }
      var m := PullOwn(ktid.value);
      return match m case None => Nothing case Some(own) => Got(own);
    }

    // The scan for a waiter's own message.
    method PullOwn(k: Kdata) returns (m: Option<Msg>)
      requires Valid()
      modifies `msgs, `msgCount
      ensures Valid() && msgs == Left(old(msgs), k) && m == Picked(old(msgs), k)
    {
      var i := 0;
      while i < |msgs| && msgs[i].kdata != k
        invariant i <= |msgs| && msgs == old(msgs) && msgCount == old(msgCount)
        invariant forall j :: 0 <= j < i ==> msgs[j].kdata != k
      {
        i := i + 1;
      }
      FirstAt(msgs, k, i);
      if i == |msgs| {
        return None;
      }
      m := Some(msgs[i]);
      msgs, msgCount := msgs[..i] + msgs[i + 1..], msgCount - 1;
    }
  }

  /** The receiving side of a session. */
  class Inbox {
    const plain: Queue
    const fenced: Queue

    constructor ()
      ensures plain.Valid() && fenced.Valid() && plain != fenced && fresh(plain) && fresh(fenced)
      ensures plain.msgs == [] && fenced.msgs == []
    {
      plain := new Queue();
      fenced := new Queue();
    }

    ghost function Contents(): Queues
      reads plain, fenced
    {
      Queues(plain.msgs, fenced.msgs)
    }

    /** A response goes to one of the two queues, if there is room in it; the other is left alone. */
    method Deliver(m: Msg) returns (ok: bool)
      requires plain.Valid() && fenced.Valid() && plain != fenced
      modifies plain, fenced
      ensures plain.Valid() && fenced.Valid() && Contents() == Routed(old(Contents()), m)
      ensures ok <==> |old(if m.kdata >= 0x8000_0000_0000_0000 then fenced.msgs else plain.msgs)| < 128
      ensures plain.state == old(plain.state) && fenced.state == old(fenced.state)
    {
      if m.kdata >= FENCE_BIT {
        ok := fenced.Enqueue(m);
      } else {
        ok := plain.Enqueue(m);
      }
    }
  }
}
