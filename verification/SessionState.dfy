/** The states a session climbs through, and the chain of handlers that takes it from one to another. */
module SessionState {
  const EINVAL: int := -22
  const ETIMEDOUT: int := -110
  const ECONNRESET: int := -104

  // enum instance_state.
  const UNINIT_DONE: nat := 1
  const INIT: nat := 2
  const INIT_DONE: nat := 3
  const OPEN: nat := 4
  const OPEN_DONE: nat := 5
  const CLOSE: nat := 6
  const CLOSE_DONE: nat := 7
  const UNINIT: nat := 8
  const INVALID: nat := 9

  /** What happens while one transition is made: the result of the call it makes or the code in the firmware's answer,
      whether an answer came in time, and whether a system error invalidates the session before or after its state is
      changed. */
  datatype Event = Event(rc: int, answered: bool, before: bool, after: bool)

  /** One event for every transition, by the state it starts from. */
  type World = nat -> Event

  /** get_flipped_state. */
  function Flipped(present: int, target: int): int {
    if present < 0 || present > INVALID || target < 0 || target > INVALID then EINVAL
    else if present == INIT_DONE && target > CLOSE then UNINIT
    else if present == INVALID then CLOSE
    else present
  }

  // A climb, as one uniform loop over the states.

  predicate Waits(k: nat) {
    k == OPEN || k == CLOSE
  }

  /** Where the transition from state k leads. */
  function Above(k: nat): nat {
    if k < UNINIT then k + 1 else UNINIT
  }

  /** The result of the transition from k when the session is in state s. */
  function Result(k: nat, s: nat, e: Event): int {
    if k >= CLOSE_DONE then 0
    else if !Waits(k) then (if k == INIT_DONE && e.rc != 0 then EINVAL else e.rc)
    else if !e.answered then ETIMEDOUT
    else if s == INVALID then ECONNRESET
    else e.rc
  }

  /** A step and its trace: the state after it, its result, and the states entered on the way. */
  datatype Trip = Trip(state: nat, rc: int, path: seq<nat>)

  function Entered(s: nat, next: nat): Trip {
    if s == INVALID then Trip(s, 0, []) else Trip(next, 0, [next])
  }

  function Hit(t: Trip, error: bool): Trip {
    if error then Trip(Entered(t.state, INVALID).state, t.rc, t.path + Entered(t.state, INVALID).path) else t
  }

  function Transition(k: nat, s: nat, e: Event): Trip {
    var t := Hit(Trip(s, 0, []), e.before);
    var rc := Result(k, t.state, e);
    var u := if rc == 0 then Entered(t.state, Above(k)) else Trip(t.state, rc, []);
    Hit(Trip(u.state, rc, t.path + u.path), e.after)
  }

  /** From transition k on: until one fails, or the target is at or below the flipped state. */
  function Climb(k: nat, s: nat, target: nat, world: World): Trip
    decreases UNINIT + 1 - k
  {
    var t := Transition(k, s, world(k));
    if t.rc != 0 || target <= Flipped(t.state, target) then t
    else if k >= CLOSE_DONE then t.(rc := EINVAL)
    else
      var rest := Climb(k + 1, t.state, target, world);
      Trip(rest.state, rest.rc, t.path + rest.path)
  }

  /** The code of the firmware's last answer (prev_hfi_error_code) after transition k. */
  function NotedAt(k: nat, s: nat, e: Event, prev: int): int {
    if Waits(k) && e.answered && Hit(Trip(s, 0, []), e.before).state != INVALID then e.rc else prev
  }

  /** And after the climb from k. */
  function Noted(k: nat, s: nat, target: nat, world: World, prev: int): int
    decreases UNINIT + 1 - k
  {
    var t, p := Transition(k, s, world(k)), NotedAt(k, s, world(k), prev);
    if t.rc != 0 || target <= Flipped(t.state, target) || k >= CLOSE_DONE then p
    else Noted(k + 1, t.state, target, world, p)
  }

  /** One state at a time, or straight to INVALID, which is never left. */
  ghost predicate Stairs(path: seq<nat>) {
    forall i :: 0 <= i < |path| - 1 ==>
      path[i] != INVALID && (path[i + 1] == INVALID || path[i + 1] == path[i] + 1)
  }

  // The state a climb may be in before transition k.
  predicate Ready(k: nat, s: nat) {
    s == INVALID || (s == k && UNINIT_DONE <= k < UNINIT)
  }

  lemma TransitionIsStep(k: nat, s: nat, e: Event)
    requires UNINIT_DONE <= k <= UNINIT && Ready(k, s)
    ensures var t := Transition(k, s, e);
            && Stairs([s] + t.path) && t.state == ([s] + t.path)[|t.path|]
            && (t.rc == 0 ==> t.state == k + 1 || t.state == INVALID)
            && (t.state == s || t.state == k + 1 || t.state == INVALID)
  {
  }

  lemma StairsJoin(s: nat, a: seq<nat>, b: seq<nat>)
    requires Stairs([s] + a) && Stairs([([s] + a)[|a|]] + b)
    ensures Stairs([s] + (a + b)) && ([s] + (a + b))[|a + b|] == ([([s] + a)[|a|]] + b)[|b|]
  {
    var all, last := [s] + (a + b), [([s] + a)[|a|]] + b;
    forall i | 0 <= i < |all| - 1
      ensures all[i] != INVALID && (all[i + 1] == INVALID || all[i + 1] == all[i] + 1)
    {
      if i < |a| {
        assert all[i] == ([s] + a)[i] && all[i + 1] == ([s] + a)[i + 1];
      } else {
        assert all[i] == last[i - |a|] && all[i + 1] == last[i - |a| + 1];
      }
    }
  }

  /** Whatever fails and whenever errors strike, a climb goes one state at a time, and leaves INVALID never. */
  lemma {:induction false} ClimbIsStairs(k: nat, s: nat, target: nat, world: World)
    requires UNINIT_DONE <= k <= CLOSE_DONE && Ready(k, s)
    ensures var t := Climb(k, s, target, world); Stairs([s] + t.path) && t.state == ([s] + t.path)[|t.path|]
    decreases UNINIT + 1 - k
  {
    var t := Transition(k, s, world(k));
    TransitionIsStep(k, s, world(k));
    if t.rc == 0 && target > Flipped(t.state, target) && k < CLOSE_DONE {
      ClimbIsStairs(k + 1, t.state, target, world);
      StairsJoin(s, t.path, Climb(k + 1, t.state, target, world).path);
    }
  }

  /** A target above the start that the handlers can reach: up to CLOSE from anywhere, beyond it from OPEN on. */
  predicate Reachable(k: nat, target: nat) {
    UNINIT_DONE <= k < target <= UNINIT && (target <= CLOSE || k >= OPEN)
  }

  /** A climb that succeeds ends exactly at its target, or in INVALID after a system error. */
  lemma {:induction false} SuccessIsTarget(k: nat, s: nat, target: nat, world: World)
    requires Reachable(k, target) && Ready(k, s) && Climb(k, s, target, world).rc == 0
    ensures Climb(k, s, target, world).state in {target, INVALID}
    decreases UNINIT + 1 - k
  {
    TransitionIsStep(k, s, world(k));
    var t := Transition(k, s, world(k));
    if target > Flipped(t.state, target) && k < CLOSE_DONE {
      if k + 1 < target {
        SuccessIsTarget(k + 1, t.state, target, world);
      }
    }
  }

  // Failures.

  /** A transition that goes through undisturbed. */
  predicate Clean(k: nat, e: Event) {
    e.rc == 0 && !e.before && !e.after && (Waits(k) ==> e.answered)
  }

  /** The calls before the first that fails go through, the call of transition j fails other than by a timeout, no
      error strikes meanwhile, and no error code is on record by then: none was before, or an answer has cleared it. */
  ghost predicate Stumbles(k: nat, j: nat, target: nat, world: World, prev: int) {
    && k <= j < target && j < CLOSE_DONE && !Waits(j)
    && (forall i :: k <= i < j ==> Clean(i, world(i)))
    && world(j).rc != 0 && (world(j).rc != ETIMEDOUT || j == INIT_DONE) && !world(j).before && !world(j).after
    && (prev == 0 || k <= OPEN < j || k <= CLOSE < j)
  }

  ghost predicate WillStumble(k: nat, target: nat, world: World, prev: int) {
    exists j :: Stumbles(k, j, target, world, prev)
  }

  /** The handlers fail short of the target, without INVALID, a timeout or an error code to tell. */
  predicate Unreported(t: Trip, noted: int, target: nat) {
    t.rc != 0 && t.rc != ETIMEDOUT && noted == 0 && t.state != target && t.state != INVALID
  }

  lemma {:induction false} InvalidStays(k: nat, target: nat, world: World)
    ensures Climb(k, INVALID, target, world).state == INVALID
    decreases UNINIT + 1 - k
  {
    var t := Transition(k, INVALID, world(k));
    if t.rc == 0 && target > Flipped(t.state, target) && k < CLOSE_DONE {
      InvalidStays(k + 1, target, world);
    }
  }

  // One transition from an undisturbed state: it goes through, it fails, or an error strikes.
  lemma OneTransition(k: nat, e: Event, prev: int)
    requires UNINIT_DONE <= k < UNINIT
    ensures var t := Transition(k, k, e);
            && (Clean(k, e) ==> t == Trip(k + 1, 0, [k + 1]) && NotedAt(k, k, e, prev) == if Waits(k) then 0 else prev)
            && (e.before || e.after ==> t.state == INVALID)
            && (!e.before && !e.after && t.rc == 0 && k < CLOSE_DONE ==> Clean(k, e))
            && (!e.before && !e.after && t.rc != 0 ==> t.state == k)
  {
  }

  // What the first transition does not decide, the rest decides.
  lemma LaterStumble(k: nat, target: nat, world: World, prev: int)
    requires UNINIT_DONE <= k && Clean(k, world(k))
    ensures var rest := if Waits(k) then 0 else prev;
            WillStumble(k, target, world, prev) <==> WillStumble(k + 1, target, world, rest)
  {
    var rest := if Waits(k) then 0 else prev;
    if WillStumble(k, target, world, prev) {
      var j :| Stumbles(k, j, target, world, prev);
      assert Stumbles(k + 1, j, target, world, rest);
    }
    if WillStumble(k + 1, target, world, rest) {
      var j: nat :| Stumbles(k + 1, j, target, world, rest);
      assert Stumbles(k, j, target, world, prev);
    }
  }

  /** A failed climb to a reachable target goes unreported exactly when one of the calls on the way stumbles. */
  lemma {:induction false} UnreportedExactly(k: nat, target: nat, world: World, prev: int)
    requires Reachable(k, target)
    ensures Unreported(Climb(k, k, target, world), Noted(k, k, target, world, prev), target) <==>
            WillStumble(k, target, world, prev)
    decreases UNINIT + 1 - k
  {
    var e, t := world(k), Transition(k, k, world(k));
    OneTransition(k, e, prev);
    if e.before || e.after {
      StruckClimb(k, target, world);
    } else if t.rc != 0 {
      assert !Clean(k, e);
      assert Unreported(t, NotedAt(k, k, e, prev), target) <==> Stumbles(k, k, target, world, prev);
    } else if k + 1 < target {
      LaterStumble(k, target, world, prev);
      UnreportedExactly(k + 1, target, world, if Waits(k) then 0 else prev);
    }
  }

  lemma StruckClimb(k: nat, target: nat, world: World)
    requires UNINIT_DONE <= k < UNINIT && (world(k).before || world(k).after)
    ensures Climb(k, k, target, world).state == INVALID
  {
    OneTransition(k, world(k), 0);
    if k < CLOSE_DONE {
      InvalidStays(k + 1, target, world);
    }
  }

  /** A climb that fails is not at its target. */
  lemma {:induction false} FailureIsShort(k: nat, s: nat, target: nat, world: World)
    requires Reachable(k, target) && Ready(k, s) && Climb(k, s, target, world).rc != 0
    ensures Climb(k, s, target, world).state != target
    decreases UNINIT + 1 - k
  {
    TransitionIsStep(k, s, world(k));
    var t := Transition(k, s, world(k));
    if t.rc == 0 && target > Flipped(t.state, target) && k < CLOSE_DONE {
      if k + 1 < target {
        FailureIsShort(k + 1, t.state, target, world);
      } else {
        InvalidStays(k + 1, target, world);
      }
    }
  }

  /** All of it about one climb to a reachable target. */
  lemma ClimbOutcome(k: nat, target: nat, world: World, prev: int)
    requires Reachable(k, target)
    ensures var t := Climb(k, k, target, world);
            && (t.rc == 0 ==> t.state in {target, INVALID}) && (t.rc != 0 ==> t.state != target)
            && (Unreported(t, Noted(k, k, target, world, prev), target) <==> WillStumble(k, target, world, prev))
  {
    UnreportedExactly(k, target, world, prev);
    if Climb(k, k, target, world).rc == 0 {
      SuccessIsTarget(k, k, target, world);
    } else {
      FailureIsShort(k, k, target, world);
    }
  }

  /** What the first transition that does not go through answers: a timeout for an answer that did not come, a reset for
      one that came to a session invalidated meanwhile, and otherwise the code of the call or of the answer. */
  function Answer(j: nat, e: Event): int {
    if Waits(j) && !e.answered then ETIMEDOUT
    else if Waits(j) && e.before then ECONNRESET
    else if j == INIT_DONE && e.rc != 0 then EINVAL
    else e.rc
  }

  /** A climb ends with it, where it is, or in INVALID if an error struck. */
  lemma {:induction false} FirstFailure(k: nat, j: nat, target: nat, world: World)
    requires Reachable(k, target) && k <= j < target && j < CLOSE_DONE
    requires (forall i :: k <= i < j ==> Clean(i, world(i))) && Answer(j, world(j)) != 0
    ensures var e, t := world(j), Climb(k, k, target, world);
            t.rc == Answer(j, e) && t.state == if e.before || e.after then INVALID else j
    decreases UNINIT + 1 - k
  {
    OneTransition(k, world(k), 0);
    if k < j {
      assert Clean(k, world(k));
      FirstFailure(k + 1, j, target, world);
    }
  }

  predicate Smooth(e: Event) {
    e.rc == 0 && e.answered && !e.before && !e.after
  }

  lemma SmoothStep(k: nat, e: Event)
    requires UNINIT_DONE <= k < UNINIT && Smooth(e)
    ensures Transition(k, k, e) == Trip(k + 1, 0, [k + 1])
  {
  }

  /** Without failures and errors a reachable target is reached, through every state in between. */
  lemma {:induction false} SmoothClimb(k: nat, target: nat, world: World)
    requires Reachable(k, target) && forall n :: Smooth(world(n))
    ensures Climb(k, k, target, world) == Trip(target, 0, seq(target - k, i requires 0 <= i < target - k => k + 1 + i))
    decreases UNINIT + 1 - k
  {
    SmoothStep(k, world(k));
    RangeSteps(k, target);
    if k + 1 < target {
      SmoothClimb(k + 1, target, world);
    }
  }

  lemma RangeSteps(k: nat, target: nat)
    requires k < target
    ensures seq(target - k, i requires 0 <= i < target - k => k + 1 + i) ==
            [k + 1] + seq(target - (k + 1), i requires 0 <= i < target - (k + 1) => k + 1 + 1 + i)
  {
  }

  /** From below OPEN a target beyond CLOSE is not climbed to: from INIT_DONE the session jumps to UNINIT, from
      further below it stays at INIT_DONE, and both count as success. */
  lemma BeyondCloseFromBelow(target: nat, world: World)
    requires CLOSE < target <= UNINIT && forall n :: Smooth(world(n))
    ensures Climb(Flipped(INIT_DONE, target), INIT_DONE, target, world) == Trip(UNINIT, 0, [UNINIT])
    ensures Climb(INIT, INIT, target, world) == Trip(INIT_DONE, 0, [INIT_DONE])
    ensures Climb(UNINIT_DONE, UNINIT_DONE, target, world) == Trip(INIT_DONE, 0, [INIT, INIT_DONE])
  {
    assert Smooth(world(INIT_DONE)) && Smooth(world(INIT)) && Smooth(world(UNINIT_DONE)) && Smooth(world(UNINIT));
  }

  lemma Associative(a: seq<nat>, b: seq<nat>, c: seq<nat>)
    ensures a + (b + c) == a + b + c
  {
  }

  lemma FirstFails(k: nat, s: nat, target: nat, world: World)
    requires !Waits(k) && k < CLOSE_DONE && world(k).rc != 0 && !world(k).before && !world(k).after
    ensures Climb(k, s, target, world) == Trip(s, Result(k, s, world(k)), [])
    ensures forall prev :: Noted(k, s, target, world, prev) == prev
  {
  }

  class Inst {
    var state: nat
    var prevError: int         // prev_hfi_error_code
    ghost var trace: seq<nat>  // every state entered since the object was made

    ghost predicate Valid()
      reads this
    {
      UNINIT_DONE <= state <= INVALID
    }

    constructor (state: nat)
      requires UNINIT_DONE <= state <= INVALID
      ensures Valid() && this.state == state && prevError == 0 && trace == []
    {
      this.state, prevError, trace := state, 0, [];
    }

    /** change_cvp_inst_state: nothing leaves INVALID. */
    method ChangeState(next: nat)
      requires Valid() && UNINIT_DONE <= next <= INVALID
      modifies `state, `trace
      ensures Valid()
      ensures state == Entered(old(state), next).state && trace == old(trace) + Entered(old(state), next).path
    {
      if state == INVALID {
        return;
      }
      state, trace := next, trace + [next];
    }

    // A system error may strike.
    method Strike(error: bool)
      requires Valid()
      modifies `state, `trace
      ensures Valid()
      ensures var t := Hit(Trip(old(state), 0, []), error); state == t.state && trace == old(trace) + t.path
    {
      if error {
        ChangeState(INVALID);
      }
    }

    /** wait_for_state and wait_for_sess_signal_receipt: nothing happens if the climb began at the state awaited or
        above it. */
    method WaitForState(k: nat, flipped: nat, e: Event) returns (rc: int)
      requires Valid() && Waits(k)
      modifies `state, `trace, `prevError
      ensures Valid()
      ensures flipped > k ==> rc == 0 && state == old(state) && trace == old(trace) && prevError == old(prevError)
      ensures flipped <= k ==>
                && rc == Result(k, old(state), e)
                && (var t := if rc == 0 then Entered(old(state), Above(k)) else Trip(old(state), rc, []);
                    state == t.state && trace == old(trace) + t.path)
                && prevError == if e.answered && old(state) != INVALID then e.rc else old(prevError)
    {
      if flipped >= k + 1 {
        return 0;
      }
      if !e.answered {
        return ETIMEDOUT;
      }
      if state == INVALID {
        return ECONNRESET;
      }
      rc, prevError := e.rc, e.rc;
      if rc == 0 {
        ChangeState(k + 1);
      }
    }

    /** One transition: waiting for the firmware, or a call followed by the change of state. The climb began no higher
        than here. */
    method Move(k: nat, flipped: nat, e: Event) returns (rc: int)
      requires Valid() && UNINIT_DONE <= k <= UNINIT && flipped <= k
      modifies `state, `trace, `prevError
      ensures Valid()
      ensures var t := Transition(k, old(state), e); rc == t.rc && state == t.state && trace == old(trace) + t.path
      ensures prevError == NotedAt(k, old(state), e, old(prevError))
    {
      Strike(e.before);
      if Waits(k) {
        rc := WaitForState(k, flipped, e);
      } else {
        rc := CallForState(k, flipped, e);
      }
      Strike(e.after);
    }

    /** The call a transition makes, and the change of state if it succeeds. Making a session (from INIT_DONE) and
        ending one (from OPEN_DONE) are left out if the climb began above. */
    method CallForState(k: nat, flipped: nat, e: Event) returns (rc: int)
      requires Valid() && !Waits(k) && UNINIT_DONE <= k <= UNINIT
      modifies `state, `trace
      ensures Valid()
      ensures k in {INIT_DONE, OPEN_DONE} && flipped > k ==> rc == 0 && state == old(state) && trace == old(trace)
      ensures !(k in {INIT_DONE, OPEN_DONE} && flipped > k) ==>
                && rc == Result(k, old(state), e)
                && var t := if rc == 0 then Entered(old(state), Above(k)) else Trip(old(state), rc, []);
                   state == t.state && trace == old(trace) + t.path
    {
      if (k == INIT_DONE || k == OPEN_DONE) && flipped >= k + 1 {
        return 0;
      }
      rc := if k >= CLOSE_DONE then 0 else if k == INIT_DONE && e.rc != 0 then EINVAL else e.rc;
      if rc == 0 {
        ChangeState(Above(k));
      }
    }

    /** The handler of the transition from k, which goes on with the next one: cvp_init_handler for UNINIT_DONE,
        cvp_init_done_handler for INIT, and so on up to cvp_invalid_handler, the end of the chain. */
    method Handler(k: nat, target: nat, flipped: nat, world: World) returns (rc: int)
      requires Valid() && UNINIT_DONE <= k <= UNINIT && flipped <= k
      modifies `state, `trace, `prevError
      ensures Valid()
      ensures var t := Climb(k, old(state), target, world);
              rc == t.rc && state == t.state && trace == old(trace) + t.path
      ensures prevError == Noted(k, old(state), target, world, old(prevError))
      decreases UNINIT - k
    {
      ghost var t := Transition(k, state, world(k));
      rc := Move(k, flipped, world(k));
      if rc != 0 || target <= Flipped(state, target) {
        return;
      }
      if k >= CLOSE_DONE {
        return EINVAL;
      }
      rc := Handler(k + 1, target, flipped, world);
      Associative(old(trace), t.path, Climb(k + 1, t.state, target, world).path);
    }

    /** msm_cvp_comm_try_state. `inner` is what the handlers answered: the caller learns of a timeout, and of other
        failures only while the firmware's last answer carried an error code. So 0 is answered short of a reachable
        target, without INVALID to tell, exactly when a call on the way is going to stumble. */
    method TryState(target: nat, coreUninit: bool, world: World) returns (rc: int, ghost inner: int)
      requires Valid() && UNINIT_DONE <= target <= INVALID
      modifies `state, `trace, `prevError
      ensures Valid()
      ensures old(state) == INVALID && coreUninit ==> rc == EINVAL && state == INVALID
      ensures !(old(state) == INVALID && coreUninit) ==>
                var t := Climb(Flipped(old(state), target), old(state), target, world);
                && inner == t.rc
                && prevError == Noted(Flipped(old(state), target), old(state), target, world, old(prevError))
                && rc == (if inner == ETIMEDOUT then ETIMEDOUT else if inner != 0 && prevError != 0 then EINVAL else 0)
                && state == (if inner == ETIMEDOUT && OPEN_DONE <= t.state < CLOSE_DONE then INVALID else t.state)
                && trace == old(trace) + t.path + (if state != t.state then [INVALID] else [])
      ensures Reachable(old(state), target) ==>
                && (inner == 0 ==> state in {target, INVALID}) && (inner != 0 ==> state != target)
                && (rc == 0 && state !in {target, INVALID} <==>
                      WillStumble(old(state), target, world, old(prevError)))
    {
      inner := EINVAL;
      if state == INVALID && coreUninit {
        return EINVAL, inner;
      }
      if Reachable(state, target) {
        ClimbOutcome(state, target, world, prevError);
      }
      var flipped := Flipped(state, target);
      var result := Handler(flipped, target, flipped, world);
      inner := result;
      rc := ResultCheck(result);
    }

    /** msm_cvp_state_result_check: after a timeout a session that the firmware knows is killed. */
    method ResultCheck(input: int) returns (rc: int)
      requires Valid()
      modifies `state, `trace
      ensures Valid()
      ensures rc == if input == ETIMEDOUT then ETIMEDOUT else if input != 0 && prevError != 0 then EINVAL else 0
      ensures state == if input == ETIMEDOUT && OPEN_DONE <= old(state) < CLOSE_DONE then INVALID else old(state)
      ensures trace == old(trace) + if state != old(state) then [INVALID] else []
    {
      if input == ETIMEDOUT {
        if OPEN_DONE <= state < CLOSE_DONE {
          ChangeState(INVALID);
        }
        return ETIMEDOUT;
      }
      if input != 0 && prevError != 0 {
        return EINVAL;
      }
      return 0;
    }
  }

  /** A failure that is not reported: creating the session fails, and the caller is told that it has been opened. */
  method SilentFailure(world: World) returns (inst: Inst, rc: int)
    requires world(INIT_DONE) == Event(EINVAL, true, false, false)
    ensures rc == 0 && inst.state == INIT_DONE
  {
    FirstFails(INIT_DONE, INIT_DONE, OPEN, world);
    inst := new Inst(INIT_DONE);
    ghost var inner;
    rc, inner := inst.TryState(OPEN, false, world);
  }
}
