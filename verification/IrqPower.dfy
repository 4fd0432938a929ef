/** The interrupt line of the core and its power state: the interrupt handler, the threaded handler, power-on and
    power-off as the steps they take, in any interleaving the device lock allows. */
module IrqPower {
  import opened Packets

  /** How far a power operation under the lock has got: powering on (power_enabled set; intr_status cleared), or
      powering off (the line disabled; intr_status cleared). */
  datatype PowerPc = NoPower | Voted | OnCleared | OffMasked | OffCleared

  /** The threaded handler: not running; running before it has the lock; with the lock before and after it has
      cleared the interrupt; having read intr_status into its local copy; after giving the lock back. */
  datatype Handler = Asleep | Woken | Locked | Cleared | Sampled(wd: bool) | Released(wd: bool)

  datatype Owner = Free | ByHandler | ByOther

  /** `depth` counts disable_irq against enable_irq; the line is enabled at zero. `wd` is the watchdog bit of
      intr_status; `pending` an interrupt taken whose threaded handler has not started. */
  datatype State = State(depth: int, powered: bool, wd: bool, pending: bool,
                         handler: Handler, owner: Owner, power: PowerPc)

  /** After probing: the line was disabled once and nothing is powered. */
  const INITIAL := State(1, false, false, false, Asleep, Free, NoPower)

  datatype Step =
    | Isr                // disable_irq_nosync, and the thread is woken
    | Wake
    | HandlerLock
    | Clear(wd: bool)    // intr_status takes the bits the register shows
    | Sample             // the local copy of intr_status
    | HandlerUnlock
    | Retire             // enable_irq, unless the copy has the watchdog bit
    | OtherLock
    | OtherUnlock
    | OnBegin            // power_enabled
    | OnFail
    | OnClear            // intr_status = 0
    | OnEnable           // enable_irq
    | OffMask            // disable_irq_nosync, unless intr_status has the watchdog bit
    | OffClear           // intr_status = 0
    | OffDone            // power_enabled = false

  predicate MayPower(s: State) {
    s.owner == ByOther || (s.owner == ByHandler && s.handler == Locked)
  }

  predicate Can(s: State, step: Step) {
    match step
    case Isr => s.depth == 0
    case Wake => s.pending && s.handler == Asleep
    case HandlerLock => s.handler == Woken && s.owner == Free
    case Clear(_) => s.handler == Locked && s.power == NoPower && s.powered
    case Sample => (s.handler == Locked && s.power == NoPower) || s.handler == Cleared
    case HandlerUnlock => s.handler.Sampled?
    case Retire => s.handler.Released?
    case OtherLock => s.owner == Free
    case OtherUnlock => s.owner == ByOther && s.power == NoPower
    case OnBegin => MayPower(s) && s.power == NoPower && !s.powered
    case OnFail => s.power == Voted
    case OnClear => s.power == Voted
    case OnEnable => s.power == OnCleared
    case OffMask => MayPower(s) && s.power == NoPower && s.powered
    case OffClear => s.power == OffMasked
    case OffDone => s.power == OffCleared
  }

  function Do(s: State, step: Step): State
    requires Can(s, step)
  {
    match step
    case Isr => s.(depth := s.depth + 1, pending := true)
    case Wake => s.(handler := Woken, pending := false)
    case HandlerLock => s.(handler := Locked, owner := ByHandler)
    case Clear(wd) => s.(handler := Cleared, wd := s.wd || wd)
    case Sample => s.(handler := Sampled(s.wd))
    case HandlerUnlock => s.(handler := Released(s.handler.wd), owner := Free)
    case Retire => s.(handler := Asleep, depth := if s.handler.wd then s.depth else s.depth - 1)
    case OtherLock => s.(owner := ByOther)
    case OtherUnlock => s.(owner := Free)
    case OnBegin => s.(powered := true, power := Voted)
    case OnFail => s.(powered := false, power := NoPower)
    case OnClear => s.(wd := false, power := OnCleared)
    case OnEnable => s.(depth := s.depth - 1, power := NoPower)
    case OffMask => s.(depth := if s.wd then s.depth else s.depth + 1, power := OffMasked)
    case OffClear => s.(wd := false, power := OffCleared)
    case OffDone => s.(powered := false, power := NoPower)
  }

  ghost predicate Run(run: seq<State>, steps: seq<Step>) {
    && |run| == |steps| + 1 && run[0] == INITIAL
    && forall n :: 0 <= n < |steps| ==> Can(run[n], steps[n]) && run[n + 1] == Do(run[n], steps[n])
  }

  function One(b: bool): int {
    if b then 1 else 0
  }

  // What the power state holds of the depth: one while the device is off or between states, or while the watchdog
  // bit keeps the line off.
  function PowerShare(s: State): int {
    if s.power == NoPower && s.powered then One(s.wd) else 1
  }

  // What interrupts that are being handled hold of it.
  function HandlerShare(s: State): int {
    One(s.pending) +
    match s.handler
    case Asleep => 0
    case Woken => 1
    case Locked => 1
    case Cleared => One(!s.wd)
    case Sampled(wd) => One(!wd)
    case Released(wd) => One(!wd)
  }

  ghost predicate Inv(s: State) {
    && s.depth == PowerShare(s) + HandlerShare(s) && HandlerShare(s) <= 1
    && (s.wd ==> s.powered && !s.pending && s.handler !in {Woken, Locked} && s.power in {NoPower, OffMasked})
    && (s.power != NoPower ==> s.powered && MayPower(s))
    && (s.owner == ByHandler <==> s.handler in {Locked, Cleared} || s.handler.Sampled?)
    && (s.handler == Cleared ==> s.powered && s.power == NoPower)
    && (s.handler.Sampled? ==> s.handler.wd == s.wd && s.power == NoPower)
  }

  lemma StepKeepsInv(s: State, step: Step)
    requires Inv(s) && Can(s, step)
    ensures Inv(Do(s, step))
  {
  }

  lemma {:induction false} RunKeepsInv(run: seq<State>, steps: seq<Step>, n: nat)
    requires Run(run, steps) && n < |run|
    ensures Inv(run[n])
  {
    if n > 0 {
      RunKeepsInv(run, steps, n - 1);
      assert Can(run[n - 1], steps[n - 1]) && run[n - 1 + 1] == Do(run[n - 1], steps[n - 1]);
      StepKeepsInv(run[n - 1], steps[n - 1]);
    }
  }

  /** An interrupt has been taken and its handler has yet to undo the disabling. */
  predicate Outstanding(s: State) {
    s.handler == Woken || (s.handler.Released? && !s.handler.wd)
  }

  /** In every run, whenever nobody has the lock, the depth is one for a device that is off, one for each interrupt
      taken whose handler has not retired and has not seen the watchdog bit, and one for a device that is on with the
      watchdog bit latched. */
  lemma DepthFormula(run: seq<State>, steps: seq<Step>, n: nat)
    requires Run(run, steps) && n < |run| && run[n].owner == Free
    ensures var s := run[n];
            s.depth == One(!s.powered) + One(s.pending) + One(Outstanding(s)) + One(s.powered && s.wd)
  {
    RunKeepsInv(run, steps, n);
  }

  /** No enable_irq is ever unbalanced: whoever enables the line finds it disabled. */
  lemma EnablesBalanced(run: seq<State>, steps: seq<Step>, n: nat)
    requires Run(run, steps) && n < |steps|
    ensures run[n].depth >= 0
    ensures Do(run[n], steps[n]).depth < run[n].depth ==> run[n].depth > 0
  {
    RunKeepsInv(run, steps, n);
    assert Can(run[n], steps[n]);
  }

  /** A device that is on, idle and without the watchdog bit has its interrupt enabled; and an interrupt is only ever
      taken from a device that is on, with no earlier one outstanding. */
  lemma EnabledWhenIdle(run: seq<State>, steps: seq<Step>, n: nat)
    requires Run(run, steps) && n < |run|
    ensures var s := run[n];
            && (s.owner == Free && s.powered && !s.wd && !s.pending && s.handler == Asleep ==> s.depth == 0)
            && (s.depth == 0 ==> s.powered && s.power == NoPower && !s.wd && !s.pending && !Outstanding(s))
  {
    RunKeepsInv(run, steps, n);
  }

  /** A latched watchdog bit keeps the line off until power-on clears it, however the steps fall. */
  lemma WatchdogMutes(run: seq<State>, steps: seq<Step>, m: nat, n: nat)
    requires Run(run, steps) && m <= n < |run| && run[m].wd && run[m].owner == Free
    requires forall k :: m <= k < n ==> steps[k] != OnEnable
    ensures run[n].depth > 0 && (n < |steps| ==> steps[n] != Isr)
    decreases n
  {
    MutedUntilPowered(run, steps, m, n);
    if n < |steps| {
      assert Can(run[n], steps[n]);
    }
  }

  // The line stays off: the bit is latched, or the device is being powered off or is off.
  predicate Muted(s: State) {
    s.wd || s.power != NoPower || !s.powered
  }

  lemma {:induction false} MutedUntilPowered(run: seq<State>, steps: seq<Step>, m: nat, n: nat)
    requires Run(run, steps) && m <= n < |run| && run[m].wd && run[m].owner == Free
    requires forall k :: m <= k < n ==> steps[k] != OnEnable
    ensures Muted(run[n]) && run[n].depth > 0
    decreases n
  {
    RunKeepsInv(run, steps, n);
    if m < n {
      MutedUntilPowered(run, steps, m, n - 1);
      assert Can(run[n - 1], steps[n - 1]) && run[n - 1 + 1] == Do(run[n - 1], steps[n - 1]);
    }
  }

  /** The bit is latched exactly if some pass of the handler has found it in the register and no power operation has
      cleared it since. */
  lemma {:induction false} LatchedExactly(run: seq<State>, steps: seq<Step>, n: nat)
    requires Run(run, steps) && n < |run|
    ensures run[n].wd <==> exists m :: 0 <= m < n && steps[m] == Clear(true) && NotCleared(steps, m, n)
  {
    if n > 0 {
      LatchedExactly(run, steps, n - 1);
      assert Can(run[n - 1], steps[n - 1]) && run[n - 1 + 1] == Do(run[n - 1], steps[n - 1]);
      if run[n].wd {
        if steps[n - 1] == Clear(true) {
          assert NotCleared(steps, n - 1, n);
        } else {
          var m :| 0 <= m < n - 1 && steps[m] == Clear(true) && NotCleared(steps, m, n - 1);
          assert NotCleared(steps, m, n);
        }
      } else if m :| 0 <= m < n && steps[m] == Clear(true) && NotCleared(steps, m, n) {
        assert m < n - 1 && NotCleared(steps, m, n - 1);
        assert false;
      }
    }
  }

  predicate NotCleared(steps: seq<Step>, m: int, n: int)
    requires 0 <= m <= n <= |steps|
  {
    forall k :: m <= k < n ==> steps[k] != OnClear && steps[k] != OffClear
  }

  // Whole operations.

  function DoAll(s: State, steps: seq<Step>): Option<State>
    decreases |steps|
  {
    if steps == [] then Some(s)
    else if !Can(s, steps[0]) then None
    else DoAll(Do(s, steps[0]), steps[1..])
  }

  /** A pass of the handler, once it is awake and has the lock free, undoes the disabling of the line, unless the
      register had the watchdog bit. */
  lemma HandledOnce(s: State, bit: bool)
    requires Inv(s) && s.owner == Free && s.powered && s.handler == Woken
    ensures DoAll(s, [HandlerLock, Clear(bit), Sample, HandlerUnlock, Retire])
            == Some(s.(handler := Asleep, wd := bit, depth := if bit then s.depth else s.depth - 1))
  {
    var s1 := Do(s, HandlerLock);
    var s2 := Do(s1, Clear(bit));
    var s3 := Do(s2, Sample);
    var s4 := Do(s3, HandlerUnlock);
    Then(s, [HandlerLock, Clear(bit), Sample, HandlerUnlock, Retire]);
    Then(s1, [Clear(bit), Sample, HandlerUnlock, Retire]);
    Then(s2, [Sample, HandlerUnlock, Retire]);
    Then(s3, [HandlerUnlock, Retire]);
    Then(s4, [Retire]);
  }

  /** An interrupt handled to the end leaves the line enabled again, unless the register had the watchdog bit. */
  lemma OneInterrupt(s: State, bit: bool)
    requires Inv(s) && s.owner == Free && s.depth == 0 && s.handler == Asleep
    ensures DoAll(s, [Isr, Wake, HandlerLock, Clear(bit), Sample, HandlerUnlock, Retire])
            == Some(s.(wd := bit, depth := One(bit)))
  {
    var s1 := Do(s, Isr);
    Then(s, [Isr, Wake, HandlerLock, Clear(bit), Sample, HandlerUnlock, Retire]);
    Then(s1, [Wake, HandlerLock, Clear(bit), Sample, HandlerUnlock, Retire]);
    HandledOnce(Do(s1, Wake), bit);
  }

  lemma Then(s: State, steps: seq<Step>)
    requires steps != [] && Can(s, steps[0])
    ensures DoAll(s, steps) == DoAll(Do(s, steps[0]), steps[1..])
  {
  }

  /** Powering off takes the line down once, unless the watchdog bit keeps it down, and forgets the bit. */
  lemma PowerOff(s: State)
    requires Inv(s) && s.owner == Free && s.powered
    ensures DoAll(s, [OtherLock, OffMask, OffClear, OffDone, OtherUnlock])
            == Some(s.(powered := false, wd := false, depth := if s.wd then s.depth else s.depth + 1))
  {
    var s1 := Do(s, OtherLock);
    var s2 := Do(s1, OffMask);
    var s3 := Do(s2, OffClear);
    var s4 := Do(s3, OffDone);
    Then(s, [OtherLock, OffMask, OffClear, OffDone, OtherUnlock]);
    Then(s1, [OffMask, OffClear, OffDone, OtherUnlock]);
    Then(s2, [OffClear, OffDone, OtherUnlock]);
    Then(s3, [OffDone, OtherUnlock]);
    Then(s4, [OtherUnlock]);
  }

  /** Powering on takes that back; failing to leaves everything as it was. */
  lemma PowerOn(s: State)
    requires Inv(s) && s.owner == Free && !s.powered
    ensures DoAll(s, [OtherLock, OnBegin, OnClear, OnEnable, OtherUnlock])
            == Some(s.(powered := true, depth := s.depth - 1))
    ensures DoAll(s, [OtherLock, OnBegin, OnFail, OtherUnlock]) == Some(s)
  {
    var s1 := Do(s, OtherLock);
    var s2 := Do(s1, OnBegin);
    var s3 := Do(s2, OnClear);
    var s4 := Do(s3, OnEnable);
    Then(s, [OtherLock, OnBegin, OnClear, OnEnable, OtherUnlock]);
    Then(s1, [OnBegin, OnClear, OnEnable, OtherUnlock]);
    Then(s2, [OnClear, OnEnable, OtherUnlock]);
    Then(s3, [OnEnable, OtherUnlock]);
    Then(s4, [OtherUnlock]);
    Then(s, [OtherLock, OnBegin, OnFail, OtherUnlock]);
    Then(s1, [OnBegin, OnFail, OtherUnlock]);
    Then(s2, [OnFail, OtherUnlock]);
    Then(Do(s2, OnFail), [OtherUnlock]);
  }

  /** Nothing waits for ever: a power operation can go on, and so can a handler that has the lock or does not need it;
      and with the lock free everybody who wants it can have it. */
  lemma NeverStuck(s: State)
    requires Inv(s)
    ensures s.power != NoPower ==> exists step :: step in {OnClear, OnEnable, OffClear, OffDone} && Can(s, step)
    ensures s.power == NoPower && s.handler == Locked ==> Can(s, Sample)
    ensures s.handler == Cleared ==> Can(s, Sample)
    ensures s.handler.Sampled? ==> Can(s, HandlerUnlock)
    ensures s.handler.Released? ==> Can(s, Retire)
    ensures s.owner == Free ==> Can(s, OtherLock) && (s.handler == Woken ==> Can(s, HandlerLock))
    ensures s.pending && s.handler == Asleep ==> Can(s, Wake)
  {
    var step := match s.power
      case NoPower => Isr
      case Voted => OnClear
      case OnCleared => OnEnable
      case OffMasked => OffClear
      case OffCleared => OffDone;
    assert s.power != NoPower ==> Can(s, step);
  }
}
