/** What the sessions of the core ask for, in exact arithmetic, and which clock that needs. */
module PowerDemand {
  import opened Packets

  const HW_THREADS: nat := 9
  const RT_PRIO_THRESHOLD: nat := 1

  /** One figure a session declares: cycles of a hardware block, of the firmware, their operational peaks, and
      bandwidth with its peak. */
  datatype Figure = Cycles(block: nat) | FwCycles | OpCycles(block: nat) | FwOpCycles | DdrBw | DdrOpBw

  /** A session: whether its state lets it count, its priority, and its figures. */
  datatype Session = Session(live: bool, priority: Word, figures: Figure -> Word)

  /** is_subblock_profile_existed. */
  predicate Profiled(s: Session) {
    exists j :: 0 <= j < HW_THREADS && s.figures(Cycles(j)) != 0
  }

  predicate Realtime(s: Session) {
    s.priority > RT_PRIO_THRESHOLD
  }

  /** What a session adds to one side of the sums, realtime or not. */
  function Share(s: Session, rt: bool, f: Figure): Word {
    if s.live && Profiled(s) && Realtime(s) == rt then s.figures(f) else 0
  }

  function Total(ss: seq<Session>, rt: bool, f: Figure): nat {
    if ss == [] then 0 else Total(ss[..|ss| - 1], rt, f) + Share(ss[|ss| - 1], rt, f)
  }

  function Max(a: int, b: int): int {
    if a >= b then a else b
  }

  function Min(a: int, b: int): int {
    if a <= b then a else b
  }

  function Peak(ss: seq<Session>, rt: bool, f: Figure): Word {
    if ss == [] then 0 else Max(Peak(ss[..|ss| - 1], rt, f), Share(ss[|ss| - 1], rt, f))
  }

  /** The greatest of a list of sums. */
  function Greatest(xs: seq<nat>): nat {
    if xs == [] then 0 else Max(Greatest(xs[..|xs| - 1]), xs[|xs| - 1])
  }

  function BlockTotals(ss: seq<Session>, rt: bool): seq<nat> {
    seq(HW_THREADS, j requires 0 <= j < HW_THREADS => Total(ss, rt, Cycles(j)))
  }

  function BlockPeaks(ss: seq<Session>, rt: bool): seq<nat> {
    seq(HW_THREADS, j requires 0 <= j < HW_THREADS => Peak(ss, rt, OpCycles(j)))
  }

  /** The steady demand of one side: the busiest block, or the firmware if it is busier. */
  function Steady(ss: seq<Session>, rt: bool): nat {
    Max(Greatest(BlockTotals(ss, rt)), Total(ss, rt, FwCycles))
  }

  /** The peak demand of one side, clamped to the top rate. */
  function PeakDemand(ss: seq<Session>, rt: bool, top: Word): nat {
    Min(Max(Greatest(BlockPeaks(ss, rt)), Peak(ss, rt, FwOpCycles)), top)
  }

  function Bandwidth(ss: seq<Session>, rt: bool): nat {
    Max(Total(ss, rt, DdrBw), Peak(ss, rt, DdrOpBw))
  }

  function Demand(ss: seq<Session>): nat {
    Steady(ss, true) + Steady(ss, false)
  }

  /** The rate the clock must reach. */
  function Needed(ss: seq<Session>, top: Word): nat {
    Max(Demand(ss), Max(PeakDemand(ss, true, top), PeakDemand(ss, false, top)))
  }

  function TotalBandwidth(ss: seq<Session>, low: Word, high: Word): nat {
    Max(Min(Bandwidth(ss, true) + Bandwidth(ss, false), high), low)
  }

  // Bounds.

  lemma {:induction false} TotalBounded(ss: seq<Session>, rt: bool, f: Figure)
    ensures Total(ss, rt, f) <= |ss| * 0xFFFF_FFFF
  {
    if ss != [] {
      TotalBounded(ss[..|ss| - 1], rt, f);
    }
  }

  lemma {:induction false} GreatestOf(xs: seq<nat>)
    ensures forall j :: 0 <= j < |xs| ==> xs[j] <= Greatest(xs)
    ensures xs != [] ==> exists j :: 0 <= j < |xs| && xs[j] == Greatest(xs)
  {
    if xs != [] {
      var rest := xs[..|xs| - 1];
      GreatestOf(rest);
      assert forall j :: 0 <= j < |rest| ==> rest[j] == xs[j];
      if xs[|xs| - 1] < Greatest(rest) {
        var j :| 0 <= j < |rest| && rest[j] == Greatest(rest);
        assert xs[j] == Greatest(xs);
      }
    }
  }

  // The order of sessions does not matter.

  lemma {:induction false} TakeOut(ss: seq<Session>, i: nat, rt: bool, f: Figure)
    requires i < |ss|
    ensures var rest := ss[..i] + ss[i + 1..];
            && Total(ss, rt, f) == Total(rest, rt, f) + Share(ss[i], rt, f)
            && Peak(ss, rt, f) == Max(Peak(rest, rt, f), Share(ss[i], rt, f))
    decreases |ss|
  {
    var n := |ss| - 1;
    if i == n {
      assert ss[..i] + ss[i + 1..] == ss[..n];
    } else {
      TakeOut(ss[..n], i, rt, f);
      FrontWithout(ss, i);
    }
  }

  lemma FrontWithout(ss: seq<Session>, i: nat)
    requires i < |ss| - 1
    ensures var n, rest := |ss| - 1, ss[..i] + ss[i + 1..];
            && |rest| == n && rest[..n - 1] == ss[..n][..i] + ss[..n][i + 1..]
            && rest[n - 1] == ss[n] && ss[..n][i] == ss[i]
  {
  }

  // Taking one session out of both lists leaves lists of the same sessions.
  lemma RestReordered(a: seq<Session>, b: seq<Session>) returns (i: nat)
    requires multiset(a) == multiset(b) && a != []
    ensures i < |b| && b[i] == a[|a| - 1] && multiset(a[..|a| - 1]) == multiset(b[..i] + b[i + 1..])
  {
    var last := a[|a| - 1];
    LastApart(a);
    i :| 0 <= i < |b| && b[i] == last;
    OneApart(b, i);
    Cancel(multiset(a[..|a| - 1]), multiset(b[..i] + b[i + 1..]), last);
  }

  lemma LastApart(a: seq<Session>)
    requires a != []
    ensures multiset(a) == multiset(a[..|a| - 1]) + multiset{a[|a| - 1]} && a[|a| - 1] in multiset(a)
  {
    assert a == a[..|a| - 1] + [a[|a| - 1]];
  }

  lemma OneApart(b: seq<Session>, i: nat)
    requires i < |b|
    ensures multiset(b) == multiset(b[..i] + b[i + 1..]) + multiset{b[i]}
  {
    assert b == b[..i] + ([b[i]] + b[i + 1..]);
  }

  lemma Cancel(m: multiset<Session>, n: multiset<Session>, s: Session)
    requires m + multiset{s} == n + multiset{s}
    ensures m == n
  {
    forall t: Session ensures m[t] == n[t] {
      assert (m + multiset{s})[t] == (n + multiset{s})[t];
    }
  }

  lemma {:induction false} Reordered(a: seq<Session>, b: seq<Session>, rt: bool, f: Figure)
    requires multiset(a) == multiset(b)
    ensures Total(a, rt, f) == Total(b, rt, f) && Peak(a, rt, f) == Peak(b, rt, f)
    decreases |a|
  {
    if a != [] {
      var i := RestReordered(a, b);
      TakeOut(b, i, rt, f);
      Reordered(a[..|a| - 1], b[..i] + b[i + 1..], rt, f);
    } else {
      assert |multiset(b)| == 0;
    }
  }

  /** Listing the sessions in another order changes no demand. */
  lemma OrderDoesNotMatter(a: seq<Session>, b: seq<Session>, rt: bool, top: Word)
    requires multiset(a) == multiset(b)
    ensures Steady(a, rt) == Steady(b, rt) && PeakDemand(a, rt, top) == PeakDemand(b, rt, top)
    ensures Bandwidth(a, rt) == Bandwidth(b, rt)
    ensures BlockTotals(a, rt) == BlockTotals(b, rt) && BlockPeaks(a, rt) == BlockPeaks(b, rt)
  {
    forall f: Figure ensures Total(a, rt, f) == Total(b, rt, f) && Peak(a, rt, f) == Peak(b, rt, f) {
      Reordered(a, b, rt, f);
    }
    assert BlockTotals(a, rt) == BlockTotals(b, rt);
    assert BlockPeaks(a, rt) == BlockPeaks(b, rt);
  }

  // More demand never lowers anything.

  /** Every session of `a` is still there in `b`, in its place, with figures that are at least as high; `b` may have
      more sessions. */
  ghost predicate Raised(a: seq<Session>, b: seq<Session>) {
    |a| <= |b| && forall i :: 0 <= i < |a| ==> Higher(a[i], b[i])
  }

  ghost predicate Higher(s: Session, t: Session) {
    forall rt, f :: Share(s, rt, f) <= Share(t, rt, f)
  }

  /** Raising any figures of a session raises its shares, whether it counted before or not. */
  lemma HigherFigures(s: Session, t: Session)
    requires t.live == s.live && t.priority == s.priority && forall g :: s.figures(g) <= t.figures(g)
    ensures Higher(s, t)
  {
    if Profiled(s) {
      var j :| 0 <= j < HW_THREADS && s.figures(Cycles(j)) != 0;
      assert t.figures(Cycles(j)) != 0;
    }
  }

  lemma RaisedFront(a: seq<Session>, b: seq<Session>)
    requires Raised(a, b) && b != []
    ensures |a| == |b| ==> Raised(a[..|a| - 1], b[..|b| - 1]) && Higher(a[|a| - 1], b[|b| - 1])
    ensures |a| < |b| ==> Raised(a, b[..|b| - 1])
  {
  }

  lemma {:induction false} RaisedSums(a: seq<Session>, b: seq<Session>, rt: bool, f: Figure)
    requires Raised(a, b)
    ensures Total(a, rt, f) <= Total(b, rt, f) && Peak(a, rt, f) <= Peak(b, rt, f)
    decreases |b|
  {
    if b != [] {
      RaisedFront(a, b);
      RaisedSums(if |a| == |b| then a[..|a| - 1] else a, b[..|b| - 1], rt, f);
    }
  }

  lemma {:induction false} GreatestGrows(xs: seq<nat>, ys: seq<nat>)
    requires |xs| == |ys| && forall j :: 0 <= j < |xs| ==> xs[j] <= ys[j]
    ensures Greatest(xs) <= Greatest(ys)
  {
    if xs != [] {
      GreatestGrows(xs[..|xs| - 1], ys[..|ys| - 1]);
    }
  }

  /** Adding sessions or raising figures lowers neither demand nor bandwidth. */
  lemma Monotone(a: seq<Session>, b: seq<Session>, top: Word)
    requires Raised(a, b)
    ensures Demand(a) <= Demand(b) && Needed(a, top) <= Needed(b, top)
    ensures forall rt :: Bandwidth(a, rt) <= Bandwidth(b, rt)
  {
    RaisedSide(a, b, true, top);
    RaisedSide(a, b, false, top);
  }

  lemma RaisedSide(a: seq<Session>, b: seq<Session>, rt: bool, top: Word)
    requires Raised(a, b)
    ensures Steady(a, rt) <= Steady(b, rt) && PeakDemand(a, rt, top) <= PeakDemand(b, rt, top)
    ensures Bandwidth(a, rt) <= Bandwidth(b, rt)
  {
    forall f: Figure ensures Total(a, rt, f) <= Total(b, rt, f) && Peak(a, rt, f) <= Peak(b, rt, f) {
      RaisedSums(a, b, rt, f);
    }
    GreatestGrows(BlockTotals(a, rt), BlockTotals(b, rt));
    GreatestGrows(BlockPeaks(a, rt), BlockPeaks(b, rt));
  }

  // Clock rates.

  ghost predicate Ascending(rates: seq<Word>) {
    forall i, j :: 0 <= i < j < |rates| ==> rates[i] <= rates[j]
  }

  /** The rate is in the table, covers the need, and no lower rate of the table does. */
  ghost predicate LeastRate(rates: seq<Word>, need: nat, rate: nat) {
    && rate >= need
    && (exists i :: 0 <= i < |rates| && rates[i] == rate)
    && (forall i :: 0 <= i < |rates| && rates[i] >= need ==> rate <= rates[i])
  }

  /** A greater need never gets a lower rate. */
  lemma RateGrows(rates: seq<Word>, need: nat, rate: nat, need': nat, rate': nat)
    requires LeastRate(rates, need, rate) && LeastRate(rates, need', rate') && need <= need'
    ensures rate <= rate'
  {
  }
}
