/** What the figures of a vote are, without the functions that compute them: sums are sums of the sessions that count,
    peaks are some session's and no session's is higher, and each figure is the greatest of what goes into it. */
module PowerFigures {
  import opened Packets
  import opened PowerDemand
  import opened PowerVote

  /** The session counts, on this side: its state lets it, it asks for cycles of some block, and its priority is above
      the threshold, or not. */
  ghost predicate CountsOn(s: Session, rt: bool) {
    s.live && (exists j :: 0 <= j < 9 && s.figures(Cycles(j)) > 0) && (s.priority <= 1 <==> !rt)
  }

  lemma ShareExactly(s: Session, rt: bool, f: Figure)
    ensures Share(s, rt, f) == if CountsOn(s, rt) then s.figures(f) else 0
  {
    if Profiled(s) {
      var j :| 0 <= j < HW_THREADS && s.figures(Cycles(j)) != 0;
      assert s.figures(Cycles(j)) > 0;
    }
  }

  /** Nothing for no sessions; a session's own figure for one that counts; and for more, their sum. */
  lemma {:induction false} TotalAdds(a: seq<Session>, b: seq<Session>, s: Session, rt: bool, f: Figure)
    ensures Total([], rt, f) == 0
    ensures Total([s], rt, f) == if CountsOn(s, rt) then s.figures(f) else 0
    ensures Total(a + b, rt, f) == Total(a, rt, f) + Total(b, rt, f)
    decreases |b|
  {
    ShareExactly(s, rt, f);
    assert [s][..0] == [];
    if b == [] {
      assert a + b == a;
    } else {
      var n := |b| - 1;
      assert (a + b)[..|a + b| - 1] == a + b[..n];
      TotalAdds(a, b[..n], s, rt, f);
    }
  }

  /** No session that counts has a higher figure, and some has this one, unless it is zero. */
  lemma {:induction false} PeakExactly(ss: seq<Session>, rt: bool, f: Figure)
    ensures forall k :: 0 <= k < |ss| && CountsOn(ss[k], rt) ==> ss[k].figures(f) <= Peak(ss, rt, f)
    ensures Peak(ss, rt, f) == 0 ||
            exists k :: 0 <= k < |ss| && CountsOn(ss[k], rt) && ss[k].figures(f) == Peak(ss, rt, f)
  {
    if ss != [] {
      var n := |ss| - 1;
      PeakExactly(ss[..n], rt, f);
      ShareExactly(ss[n], rt, f);
      assert forall k :: 0 <= k < n ==> ss[..n][k] == ss[k];
      if Peak(ss, rt, f) > Share(ss[n], rt, f) {
        var k :| 0 <= k < n && CountsOn(ss[..n][k], rt) && ss[..n][k].figures(f) == Peak(ss[..n], rt, f);
        assert CountsOn(ss[k], rt) && ss[k].figures(f) == Peak(ss, rt, f);
      }
    }
  }

  /** The figures steady demand is made of, and those peak demand is made of. */
  predicate IsSteady(f: Figure) {
    f == FwCycles || (f.Cycles? && f.block < 9)
  }

  predicate IsPeak(f: Figure) {
    f == FwOpCycles || (f.OpCycles? && f.block < 9)
  }

  /** Steady demand is the sum of the busiest of the blocks and the firmware. */
  lemma SteadyExactly(ss: seq<Session>, rt: bool)
    ensures forall f :: IsSteady(f) ==> Total(ss, rt, f) <= Steady(ss, rt)
    ensures exists f :: IsSteady(f) && Total(ss, rt, f) == Steady(ss, rt)
  {
    var xs := BlockTotals(ss, rt);
    GreatestOf(xs);
    forall f | IsSteady(f) ensures Total(ss, rt, f) <= Steady(ss, rt) {
      if f.Cycles? {
        assert xs[f.block] == Total(ss, rt, f);
      }
    }
    if Greatest(xs) >= Total(ss, rt, FwCycles) {
      var j :| 0 <= j < |xs| && xs[j] == Greatest(xs);
      assert IsSteady(Cycles(j)) && Total(ss, rt, Cycles(j)) == Steady(ss, rt);
    } else {
      assert IsSteady(FwCycles);
    }
  }

  /** One session's peak figure reaches the peak demand, clamped to the top rate, and none exceeds it. */
  lemma PeakDemandExactly(ss: seq<Session>, rt: bool, top: Word)
    ensures forall f :: IsPeak(f) ==> Min(Peak(ss, rt, f), top) <= PeakDemand(ss, rt, top)
    ensures exists f :: IsPeak(f) && PeakDemand(ss, rt, top) == Min(Peak(ss, rt, f), top)
  {
    var xs := BlockPeaks(ss, rt);
    GreatestOf(xs);
    forall f | IsPeak(f) ensures Min(Peak(ss, rt, f), top) <= PeakDemand(ss, rt, top) {
      if f.OpCycles? {
        assert xs[f.block] == Peak(ss, rt, f);
      }
    }
    if Greatest(xs) >= Peak(ss, rt, FwOpCycles) {
      var j :| 0 <= j < |xs| && xs[j] == Greatest(xs);
      assert IsPeak(OpCycles(j)) && Peak(ss, rt, OpCycles(j)) == Greatest(xs);
    } else {
      assert IsPeak(FwOpCycles);
    }
  }

  /** The bandwidth of a side is the sum of what its sessions ask for, or the highest operational figure of one of
      them, whichever is more. */
  lemma BandwidthExactly(ss: seq<Session>, rt: bool)
    ensures Bandwidth(ss, rt) >= Total(ss, rt, DdrBw)
    ensures forall k :: 0 <= k < |ss| && CountsOn(ss[k], rt) ==> ss[k].figures(DdrOpBw) <= Bandwidth(ss, rt)
    ensures || Bandwidth(ss, rt) == Total(ss, rt, DdrBw)
            || exists k :: 0 <= k < |ss| && CountsOn(ss[k], rt) && ss[k].figures(DdrOpBw) == Bandwidth(ss, rt)
  {
    PeakExactly(ss, rt, DdrOpBw);
  }

  /** What all the sessions ask for together: the demands of both sides added up for clock and bandwidth, the peaks of
      the two only compared, and the bandwidth kept within its limits, the lower of which wins. */
  lemma TogetherExactly(ss: seq<Session>, top: Word, low: Word, high: Word)
    ensures forall f, g :: IsSteady(f) && IsSteady(g) ==> Total(ss, true, f) + Total(ss, false, g) <= Demand(ss)
    ensures exists f, g :: IsSteady(f) && IsSteady(g) && Total(ss, true, f) + Total(ss, false, g) == Demand(ss)
    ensures Demand(ss) <= Needed(ss, top) && forall rt :: PeakDemand(ss, rt, top) <= Needed(ss, top)
    ensures Needed(ss, top) == Demand(ss) || exists rt :: PeakDemand(ss, rt, top) == Needed(ss, top)
    ensures var sum, bw := Bandwidth(ss, true) + Bandwidth(ss, false), TotalBandwidth(ss, low, high);
            && bw >= low && (low <= high ==> bw <= high)
            && (low <= sum <= high ==> bw == sum) && (sum > high >= low ==> bw == high)
            && (sum < low || high < low ==> bw == low)
  {
    SteadyExactly(ss, true);
    SteadyExactly(ss, false);
    var f :| IsSteady(f) && Total(ss, true, f) == Steady(ss, true);
    var g :| IsSteady(g) && Total(ss, false, g) == Steady(ss, false);
  }

  /** One session alone asks for its own figures, the greatest of each kind, on its own side; and for nothing on the
      other. */
  lemma OneSession(s: Session, rt: bool, top: Word)
    ensures !CountsOn(s, rt) ==> Steady([s], rt) == 0 && PeakDemand([s], rt, top) == 0 && Bandwidth([s], rt) == 0
    ensures CountsOn(s, rt) ==>
              && (forall f :: IsSteady(f) ==> s.figures(f) <= Steady([s], rt))
              && (exists f :: IsSteady(f) && s.figures(f) == Steady([s], rt))
              && (forall f :: IsPeak(f) ==> Min(s.figures(f), top) <= PeakDemand([s], rt, top))
              && (exists f :: IsPeak(f) && Min(s.figures(f), top) == PeakDemand([s], rt, top))
              && Bandwidth([s], rt) == Max(s.figures(DdrBw), s.figures(DdrOpBw))
  {
    forall f: Figure
      ensures var x := if CountsOn(s, rt) then s.figures(f) else 0; Total([s], rt, f) == x == Peak([s], rt, f)
    {
      TotalAdds([], [], s, rt, f);
      ShareExactly(s, rt, f);
      assert [s][..0] == [];
    }
    SteadyExactly([s], rt);
    PeakDemandExactly([s], rt, top);
  }

  /** The clock vote of sessions none of which is realtime is refused like any other: their demand is not cut down to
      the top rate. */
  lemma RefusedWithoutRealtime(s: Session, top: Word)
    requires CountsOn(s, false) && s.figures(Cycles(0)) > top && (forall f :: s.figures(f) <= INT_MAX)
    ensures Asked([s], top) > top
  {
    OneSession(s, false, top);
    OneSession(s, true, top);
    assert IsSteady(Cycles(0));
    forall rt: bool ensures Greatest(BlockTotals([s], rt)) <= INT_MAX && Greatest(BlockPeaks([s], rt)) <= INT_MAX {
      forall f: Figure ensures Total([s], rt, f) <= INT_MAX && Peak([s], rt, f) <= INT_MAX {
        TotalAdds([], [], s, rt, f);
        PeakExactly([s], rt, f);
      }
      GreatestOf(BlockTotals([s], rt));
      GreatestOf(BlockPeaks([s], rt));
    }
    FittingRequest([s], top);
  }
}
