/** The clock and bandwidth vote of the core, in the widths the driver computes in. */
module PowerVote {
  import opened Packets
  import opened PowerDemand

  const ENOTSUPP: int := -524
  const ULONG: nat := 0x1_0000_0000_0000_0000
  const INT_MAX: nat := 0x7FFF_FFFF

  /** An unsigned long kept in an int: the low 32 bits, with a sign. */
  function ToInt(n: nat): int {
    var low := n % 0x1_0000_0000;
    if low <= INT_MAX then low else low - 0x1_0000_0000
  }

  /** An int widened to unsigned long again. */
  function ToUlong(i: int): nat
    requires -0x8000_0000 <= i <= INT_MAX
  {
    if i >= 0 then i else i + ULONG
  }

  /** What find_max makes of a list: the running maximum is an int. */
  function CodeMax(xs: seq<nat>): (m: int)
    ensures -0x8000_0000 <= m <= INT_MAX
  {
    if xs == [] then 0
    else
      var m := ToUlong(CodeMax(xs[..|xs| - 1]));
      ToInt(Max(xs[|xs| - 1], m))
  }

  /** It is the maximum exactly when the maximum fits in an int. */
  lemma {:induction false} CodeMaxExact(xs: seq<nat>)
    requires forall j :: 0 <= j < |xs| ==> xs[j] < 0x8000_0000_0000_0000
    ensures ToUlong(CodeMax(xs)) == Greatest(xs) <==> Greatest(xs) <= INT_MAX
  {
    GreatestOf(xs);
    if Greatest(xs) <= INT_MAX && xs != [] {
      CodeMaxExact(xs[..|xs| - 1]);
    }
  }

  datatype Level = Level(coreSum: nat, opCoreSum: nat, bwSum: nat)

  /** One side of the vote as the driver computes it. */
  function LevelOf(ss: seq<Session>, rt: bool, top: Word): Level {
    Level(Max(ToUlong(CodeMax(BlockTotals(ss, rt))), Total(ss, rt, FwCycles)),
          Min(Max(ToUlong(CodeMax(BlockPeaks(ss, rt))), Peak(ss, rt, FwOpCycles)), top),
          Bandwidth(ss, rt))
  }

  /** No block's cycles add up to more than an int holds, on either side. */
  predicate Fits(ss: seq<Session>) {
    forall rt :: Greatest(BlockTotals(ss, rt)) <= INT_MAX && Greatest(BlockPeaks(ss, rt)) <= INT_MAX
  }

  lemma FittingLevel(ss: seq<Session>, rt: bool, top: Word)
    requires Fits(ss) && |ss| < 0x8000_0000
    ensures LevelOf(ss, rt, top) == Level(Steady(ss, rt), PeakDemand(ss, rt, top), Bandwidth(ss, rt))
    ensures Steady(ss, rt) < 0x8000_0000_0000_0000
  {
    GreatestOf(BlockTotals(ss, rt));
    GreatestOf(BlockPeaks(ss, rt));
    CodeMaxExact(BlockTotals(ss, rt));
    CodeMaxExact(BlockPeaks(ss, rt));
    TotalBounded(ss, rt, FwCycles);
  }

  /** What the driver compares with the top rate. */
  function Asked(ss: seq<Session>, top: Word): nat {
    (LevelOf(ss, true, top).coreSum + LevelOf(ss, false, top).coreSum) % ULONG
  }

  /** And the rate it looks for in the table. */
  function AskedRate(ss: seq<Session>, top: Word): nat {
    Max(Asked(ss, top), Max(LevelOf(ss, true, top).opCoreSum, LevelOf(ss, false, top).opCoreSum))
  }

  /** Where the sums fit, both are the exact ones. */
  lemma FittingRequest(ss: seq<Session>, top: Word)
    requires Fits(ss) && |ss| < 0x8000_0000
    ensures Asked(ss, top) == Demand(ss) && AskedRate(ss, top) == Needed(ss, top)
  {
    FittingLevel(ss, true, top);
    FittingLevel(ss, false, top);
  }

  /** Sums that do not fit: a session that asks for 2 to the 31 cycles is refused, but two of them, whose cycles come
      to 2 to the 32, count as none at all, and a demand beyond any rate is granted. */
  lemma LostDemand(s: Session, top: Word)
    requires s.live && !Realtime(s) && top < 0x8000_0000
    requires s.figures(Cycles(0)) == 0x8000_0000 && forall f :: f != Cycles(0) ==> s.figures(f) == 0
    ensures Demand([s]) == 0x8000_0000 > top && Asked([s], top) > top
    ensures Demand([s, s]) == 0x1_0000_0000 > top && Asked([s, s], top) == 0
  {
    Copies([s], 1, s, top);
    Copies([s, s], 2, s, top);
  }

  // One or two copies of such a session.
  lemma Copies(ss: seq<Session>, n: nat, s: Session, top: Word)
    requires (ss == [s] && n == 1) || (ss == [s, s] && n == 2)
    requires s.live && !Realtime(s)
    requires s.figures(Cycles(0)) == 0x8000_0000 && forall f :: f != Cycles(0) ==> s.figures(f) == 0
    ensures Demand(ss) == n * 0x8000_0000
    ensures LevelOf(ss, true, top).coreSum == 0 && LevelOf(ss, false, top).coreSum == ToUlong(ToInt(n * 0x8000_0000))
  {
    assert Profiled(s);
    forall f: Figure, rt: bool ensures Total(ss, rt, f) == if !rt && f == Cycles(0) then n * 0x8000_0000 else 0 {
      Shares(s, rt, f);
    }
    OneBlock(ss, n * 0x8000_0000, top);
  }

  // The figures of sessions that only ask for cycles of the first block.
  lemma OneBlock(ss: seq<Session>, x: nat, top: Word)
    requires forall f, rt :: Total(ss, rt, f) == if !rt && f == Cycles(0) then x else 0
    ensures Demand(ss) == x
    ensures LevelOf(ss, true, top).coreSum == 0 && LevelOf(ss, false, top).coreSum == ToUlong(ToInt(x))
  {
    var zeros := seq(HW_THREADS, j requires 0 <= j < HW_THREADS => 0 as nat);
    assert BlockTotals(ss, true) == zeros;
    assert BlockTotals(ss, false) == zeros[0 := x];
    AllZero(zeros);
    FirstOnly(zeros, x);
  }

  lemma Shares(s: Session, rt: bool, f: Figure)
    ensures Total([s], rt, f) == Share(s, rt, f) && Total([s, s], rt, f) == 2 * Share(s, rt, f)
  {
    assert [s, s][..1] == [s] && [s][..0] == [];
    assert Total([s], rt, f) == Share(s, rt, f);
  }

  lemma {:induction false} AllZero(xs: seq<nat>)
    requires forall j :: 0 <= j < |xs| ==> xs[j] == 0
    ensures CodeMax(xs) == 0 && Greatest(xs) == 0
  {
    if xs != [] {
      AllZero(xs[..|xs| - 1]);
    }
  }

  lemma {:induction false} FirstOnly(xs: seq<nat>, x: nat)
    requires xs != [] && (forall j :: 0 <= j < |xs| ==> xs[j] == 0)
    ensures CodeMax(xs[0 := x]) == ToInt(x) && Greatest(xs[0 := x]) == x
  {
    var ys := xs[0 := x];
    if |xs| == 1 {
      assert ys[..0] == [];
    } else {
      FirstOnly(xs[..|xs| - 1], x);
      assert ys[..|xs| - 1] == xs[..|xs| - 1][0 := x];
    }
  }

  ghost function Row(a: array2<nat>, i: nat): seq<nat>
    requires i < a.Length0
    reads a
  {
    seq(a.Length1, j requires 0 <= j < a.Length1 reads a => a[i, j])
  }

  /** find_max. */
  method FindMax(a: array2<nat>, i: nat) returns (m: int)
    requires i < a.Length0
    ensures m == CodeMax(Row(a, i))
  {
    m := 0;
    for j := 0 to a.Length1
      invariant m == CodeMax(Row(a, i)[..j])
    {
      assert Row(a, i)[..j + 1][..j] == Row(a, i)[..j];
      m := ToInt(Max(a[i, j], ToUlong(m)));
    }
    assert Row(a, i)[..a.Length1] == Row(a, i);
  }

  /** The sums and maxima of both sides after some sessions: side 0 is not realtime, side 1 is. */
  ghost predicate Tallied(ss: seq<Session>, blocks: array2<nat>, opBlocks: array2<nat>,
                          fw: array<nat>, opFw: array<nat>, bw: array<nat>, opBw: array<nat>)
    reads blocks, opBlocks, fw, opFw, bw, opBw
  {
    && blocks.Length0 == opBlocks.Length0 == fw.Length == opFw.Length == bw.Length == opBw.Length == 2
    && blocks.Length1 == opBlocks.Length1 == HW_THREADS
    && (forall i, j :: 0 <= i < 2 && 0 <= j < HW_THREADS ==> blocks[i, j] == Total(ss, i == 1, Cycles(j)))
    && (forall i, j :: 0 <= i < 2 && 0 <= j < HW_THREADS ==> opBlocks[i, j] == Peak(ss, i == 1, OpCycles(j)))
    && (forall i :: 0 <= i < 2 ==> fw[i] == Total(ss, i == 1, FwCycles))
    && (forall i :: 0 <= i < 2 ==> opFw[i] == Peak(ss, i == 1, FwOpCycles))
    && (forall i :: 0 <= i < 2 ==> bw[i] == Total(ss, i == 1, DdrBw))
    && (forall i :: 0 <= i < 2 ==> opBw[i] == Peak(ss, i == 1, DdrOpBw))
  }

  method HasProfile(s: Session) returns (r: bool)
    ensures r == Profiled(s)
  {
    for j := 0 to HW_THREADS
      invariant forall k :: 0 <= k < j ==> s.figures(Cycles(k)) == 0
    {
      if s.figures(Cycles(j)) != 0 {
        return true;
      }
    }
    return false;
  }

  // The blocks of one session.
  method AddBlocks(s: Session, i: nat, blocks: array2<nat>, opBlocks: array2<nat>)
    requires i < blocks.Length0 && i < opBlocks.Length0 && blocks != opBlocks
    requires blocks.Length1 == opBlocks.Length1 == HW_THREADS
    modifies blocks, opBlocks
    ensures forall k, j :: 0 <= k < blocks.Length0 && 0 <= j < HW_THREADS ==>
              blocks[k, j] == old(blocks[k, j]) + if k == i then s.figures(Cycles(j)) else 0
    ensures forall k, j :: 0 <= k < opBlocks.Length0 && 0 <= j < HW_THREADS ==>
              opBlocks[k, j] == if k == i then Max(old(opBlocks[k, j]), s.figures(OpCycles(j))) else old(opBlocks[k, j])
  {
    for j := 0 to HW_THREADS
      invariant forall k, l :: 0 <= k < blocks.Length0 && 0 <= l < HW_THREADS ==>
          blocks[k, l] == old(blocks[k, l]) + if k == i && l < j then s.figures(Cycles(l)) else 0
      invariant forall k, l :: 0 <= k < opBlocks.Length0 && 0 <= l < HW_THREADS ==>
          opBlocks[k, l] == old(opBlocks[k, l])
    {
      blocks[i, j] := blocks[i, j] + s.figures(Cycles(j));
    }
    label Summed:
    for j := 0 to HW_THREADS
      invariant forall k, l :: 0 <= k < blocks.Length0 && 0 <= l < HW_THREADS ==>
          blocks[k, l] == old@Summed(blocks[k, l])
      invariant forall k, l :: 0 <= k < opBlocks.Length0 && 0 <= l < HW_THREADS ==>
          opBlocks[k, l] ==
            if k == i && l < j then Max(old(opBlocks[k, l]), s.figures(OpCycles(l))) else old(opBlocks[k, l])
    {
      opBlocks[i, j] := Max(opBlocks[i, j], s.figures(OpCycles(j)));
    }
  }

  // One session of the list.
  method Tally(s: Session, blocks: array2<nat>, opBlocks: array2<nat>, fw: array<nat>, opFw: array<nat>,
               bw: array<nat>, opBw: array<nat>, ghost before: seq<Session>)
    requires Tallied(before, blocks, opBlocks, fw, opFw, bw, opBw)
    requires blocks != opBlocks && fw != opFw && fw != bw && fw != opBw && opFw != bw && opFw != opBw && bw != opBw
    modifies blocks, opBlocks, fw, opFw, bw, opBw
    ensures Tallied(before + [s], blocks, opBlocks, fw, opFw, bw, opBw)
  {
    assert (before + [s])[..|before|] == before;
    var profiled := HasProfile(s);
    if !s.live || !profiled {
      return;
    }
    var i := if s.priority <= RT_PRIO_THRESHOLD then 0 else 1;
    AddBlocks(s, i, blocks, opBlocks);
    AddScalars(s, i, fw, opFw, bw, opBw);
  }

  // The firmware cycles and bandwidth of one session.
  method AddScalars(s: Session, i: nat, fw: array<nat>, opFw: array<nat>, bw: array<nat>, opBw: array<nat>)
    requires i < fw.Length == opFw.Length == bw.Length == opBw.Length
    requires fw != opFw && fw != bw && fw != opBw && opFw != bw && opFw != opBw && bw != opBw
    modifies fw, opFw, bw, opBw
    ensures forall k :: 0 <= k < fw.Length ==> fw[k] == old(fw[k]) + if k == i then s.figures(FwCycles) else 0
    ensures forall k :: 0 <= k < bw.Length ==> bw[k] == old(bw[k]) + if k == i then s.figures(DdrBw) else 0
    ensures forall k :: 0 <= k < opFw.Length ==>
              opFw[k] == if k == i then Max(old(opFw[k]), s.figures(FwOpCycles)) else old(opFw[k])
    ensures forall k :: 0 <= k < opBw.Length ==>
              opBw[k] == if k == i then Max(old(opBw[k]), s.figures(DdrOpBw)) else old(opBw[k])
  {
    fw[i] := fw[i] + s.figures(FwCycles);
    opFw[i] := Max(opFw[i], s.figures(FwOpCycles));
    bw[i] := bw[i] + s.figures(DdrBw);
    opBw[i] := Max(opBw[i], s.figures(DdrOpBw));
  }

  class Core {
    var instances: seq<Session>
    const rates: seq<Word>      // allowed_clks_tbl
    var currFreq: nat
    var origCoreSum: nat
    var bwSum: nat

    constructor (rates: seq<Word>)
      ensures this.rates == rates && instances == [] && currFreq == origCoreSum == bwSum == 0
    {
      this.rates := rates;
      instances, currFreq, origCoreSum, bwSum := [], 0, 0, 0;
    }

    /** aggregate_power_update. */
    method Aggregate(top: Word) returns (nrt: Level, rt: Level)
      ensures nrt == LevelOf(instances, false, top) && rt == LevelOf(instances, true, top)
    {
      var blocks := new nat[2, HW_THREADS]((i, j) => 0);
      var opBlocks := new nat[2, HW_THREADS]((i, j) => 0);
      var fw, opFw, bw, opBw := new nat[2](i => 0), new nat[2](i => 0), new nat[2](i => 0), new nat[2](i => 0);
      TallyAll(blocks, opBlocks, fw, opFw, bw, opBw);
      nrt := Side(instances, 0, top, blocks, opBlocks, fw, opFw, bw, opBw);
      rt := Side(instances, 1, top, blocks, opBlocks, fw, opFw, bw, opBw);
    }

    // The walk of the list of sessions.
    method TallyAll(blocks: array2<nat>, opBlocks: array2<nat>, fw: array<nat>, opFw: array<nat>,
                    bw: array<nat>, opBw: array<nat>)
      requires Tallied([], blocks, opBlocks, fw, opFw, bw, opBw)
      requires blocks != opBlocks && fw != opFw && fw != bw && fw != opBw && opFw != bw && opFw != opBw && bw != opBw
      modifies blocks, opBlocks, fw, opFw, bw, opBw
      ensures Tallied(instances, blocks, opBlocks, fw, opFw, bw, opBw)
    {
      for n := 0 to |instances|
        invariant Tallied(instances[..n], blocks, opBlocks, fw, opFw, bw, opBw)
      {
        Tally(instances[n], blocks, opBlocks, fw, opFw, bw, opBw, instances[..n]);
        assert instances[..n] + [instances[n]] == instances[..n + 1];
      }
      assert instances[..|instances|] == instances;
    }

    // One side of the result.
    static method Side(ghost ss: seq<Session>, i: nat, top: Word, blocks: array2<nat>, opBlocks: array2<nat>,
                       fw: array<nat>, opFw: array<nat>, bw: array<nat>, opBw: array<nat>) returns (level: Level)
      requires i < 2 && Tallied(ss, blocks, opBlocks, fw, opFw, bw, opBw)
      ensures level == LevelOf(ss, i == 1, top)
    {
      assert Row(blocks, i) == BlockTotals(ss, i == 1);
      assert Row(opBlocks, i) == BlockPeaks(ss, i == 1);
      var maxCycle := FindMax(blocks, i);
      var opMaxCycle := FindMax(opBlocks, i);
      level := Level(Max(ToUlong(maxCycle), fw[i]), Min(Max(ToUlong(opMaxCycle), opFw[i]), top), Max(bw[i], opBw[i]));
    }

    /** adjust_bw_freqs. As long as the sums fit in an int, the vote is refused exactly when the steady demand exceeds
        the top rate, leaving frequency and bandwidth as they were; otherwise the frequency becomes the least rate of
        the table that covers the steady demand and the clamped peak. */
    method AdjustBwFreqs(maxBw: Word, minBw: Word) returns (rc: int)
      requires rates != [] && Ascending(rates) && |instances| < 0x8000_0000
      modifies `currFreq, `origCoreSum, `bwSum
      ensures var top := rates[|rates| - 1];
              && (rc != 0 ==>
                    rc == ENOTSUPP && currFreq == old(currFreq) && bwSum == old(bwSum) &&
                    origCoreSum == old(origCoreSum))
              && (rc == 0 ==> origCoreSum == old(currFreq) && bwSum == TotalBandwidth(instances, minBw, maxBw))
              && (rc != 0 <==> Asked(instances, top) > top)
              && (rc == 0 ==> LeastRate(rates, AskedRate(instances, top), currFreq))
              && (Fits(instances) ==> (rc != 0 <==> Demand(instances) > top))
              && (Fits(instances) && rc == 0 ==> LeastRate(rates, Needed(instances, top), currFreq))
    {
      if Fits(instances) {
        FittingRequest(instances, rates[|rates| - 1]);
      }
      rc := Vote(maxBw, minBw);
    }

    // Both sides together.
    method Request(top: Word) returns (coreSum: nat, need: nat, bw: nat)
      ensures coreSum == Asked(instances, top) && need == AskedRate(instances, top)
      ensures coreSum <= top ==> need <= top
      ensures bw == Bandwidth(instances, true) + Bandwidth(instances, false)
    {
      var nrt, rt := Aggregate(top);
      coreSum := (rt.coreSum + nrt.coreSum) % ULONG;
      need := Max(coreSum, Max(rt.opCoreSum, nrt.opCoreSum));
      bw := rt.bwSum + nrt.bwSum;
    }

    // The vote itself, whatever the sums.
    method Vote(maxBw: Word, minBw: Word) returns (rc: int)
      requires rates != [] && Ascending(rates)
      modifies `currFreq, `origCoreSum, `bwSum
      ensures var top := rates[|rates| - 1];
              && (rc != 0 ==>
                    rc == ENOTSUPP && currFreq == old(currFreq) && bwSum == old(bwSum) &&
                    origCoreSum == old(origCoreSum))
              && (rc == 0 ==> origCoreSum == old(currFreq) && bwSum == TotalBandwidth(instances, minBw, maxBw))
              && (rc != 0 <==> Asked(instances, top) > top)
              && (rc == 0 ==> LeastRate(rates, AskedRate(instances, top), currFreq))
    {
      var top := rates[|rates| - 1];
      var coreSum, need, bw := Request(top);
      if coreSum > top {
        return ENOTSUPP;
      }
      var rate := PickRate(need);
      bw := if bw > maxBw then maxBw else bw;
      bw := if bw < minBw then minBw else bw;
      origCoreSum := currFreq;
      currFreq := rate;
      bwSum := bw;
      return 0;
    }

    // The first rate of the table that is high enough.
    method PickRate(need: nat) returns (rate: nat)
      requires rates != [] && Ascending(rates) && need <= rates[|rates| - 1]
      ensures LeastRate(rates, need, rate)
    {
      if need <= rates[0] {
        return rates[0];
      }
      var i := 1;
      while i < |rates| && need > rates[i]
        invariant 1 <= i < |rates| && rates[i - 1] < need
      {
        i := i + 1;
      }
      return rates[i];
    }
  }

  /** Two votes over the same sessions in another order come to the same levels. */
  lemma SameVote(a: seq<Session>, b: seq<Session>, rt: bool, top: Word)
    requires multiset(a) == multiset(b)
    ensures LevelOf(a, rt, top) == LevelOf(b, rt, top)
  {
    OrderDoesNotMatter(a, b, rt, top);
    Reordered(a, b, rt, FwCycles);
    Reordered(a, b, rt, FwOpCycles);
  }

  /** If the sums of more sessions, or of higher figures, fit, then so do the lower ones. */
  lemma FitsBelow(a: seq<Session>, b: seq<Session>)
    requires Raised(a, b) && Fits(b)
    ensures Fits(a)
  {
    forall rt: bool
      ensures Greatest(BlockTotals(a, rt)) <= INT_MAX && Greatest(BlockPeaks(a, rt)) <= INT_MAX
    {
      forall f: Figure ensures Total(a, rt, f) <= Total(b, rt, f) && Peak(a, rt, f) <= Peak(b, rt, f) {
        RaisedSums(a, b, rt, f);
      }
      GreatestGrows(BlockTotals(a, rt), BlockTotals(b, rt));
      GreatestGrows(BlockPeaks(a, rt), BlockPeaks(b, rt));
    }
  }

  /** More sessions or higher figures never lower the bandwidth, whatever the sums. */
  lemma BandwidthGrows(a: seq<Session>, b: seq<Session>, low: Word, high: Word)
    requires Raised(a, b)
    ensures TotalBandwidth(a, low, high) <= TotalBandwidth(b, low, high)
  {
    Monotone(a, b, 0);
  }

  /** Where the sums fit, more sessions or higher figures never lower a frequency the driver votes for, and
      never turn a refusal into acceptance. */
  lemma VoteGrows(a: seq<Session>, b: seq<Session>, rates: seq<Word>, rate: nat, rate': nat)
    requires Raised(a, b) && Fits(b) && |b| < 0x8000_0000 && rates != []
    requires LeastRate(rates, AskedRate(a, rates[|rates| - 1]), rate)
    requires LeastRate(rates, AskedRate(b, rates[|rates| - 1]), rate')
    ensures rate <= rate'
    ensures Asked(b, rates[|rates| - 1]) <= rates[|rates| - 1] ==> Asked(a, rates[|rates| - 1]) <= rates[|rates| - 1]
  {
    var top := rates[|rates| - 1];
    FitsBelow(a, b);
    FittingRequest(a, top);
    FittingRequest(b, top);
    Monotone(a, b, top);
    RateGrows(rates, AskedRate(a, top), rate, AskedRate(b, top), rate');
  }
}
