/** The index allocator of the PAMU's secondary entries: a load and a compare-and-swap, in any interleaving. */
module PamuRanges {
  import opened ChunkLayout
  import opened PamuTable
  import opened Pamu
  import opened PamuWords
  import opened PamuSteps

  /** A caller that has been granted a range, and where that begins. */
  predicate GotRange(c: Caller) {
    c.q.subwinCnt > 0 && (c.phase.Done? || (c.phase.Writing? && c.phase.stage.Link?))
  }

  function First(c: Caller): nat
    requires GotRange(c)
  {
    if c.phase.Done? then c.phase.start else c.phase.stage.start
  }

  /** The grants lie end to end from 0 up to the index. */
  ghost predicate Tiled(grants: seq<Grant>, end: nat)
    decreases |grants|
  {
    if grants == [] then end == 0
    else
      var g := grants[|grants| - 1];
      g.start + g.count == end && Tiled(grants[..|grants| - 1], g.start)
  }

  ghost predicate Ranged(s: State, i: int)
    requires 0 <= i < |s.callers|
  {
    var c := s.callers[i];
    && (GotRange(c) ==> Grant(i, First(c), Count(c.q)) in s.grants)
    && (c.phase.Loaded? && c.q.subwinCnt > 0 ==> NextFspi(c.phase.tmp, Count(c.q)) <= SPAACE_NUMBER_ENTRIES)
  }

  ghost predicate Ranges(s: State) {
    forall i :: 0 <= i < |s.callers| ==> Ranged(s, i)
  }

  ghost predicate Invariant(s: State) {
    s.fspi <= SPAACE_NUMBER_ENTRIES && Tiled(s.grants, s.fspi) && Ranges(s)
  }

  /** A successful swap extends the tiling exactly when the sum did not wrap. */
  lemma SwapTiles(s: State, i: nat)
    requires Enabled(s, SwapIndex(i)) && Tiled(s.grants, s.fspi)
    requires s.callers[i].phase.tmp == s.fspi < SIZE_T_RANGE
    ensures Tiled(Swap(s, i).grants, Swap(s, i).fspi) <==> s.fspi + Count(s.callers[i].q) < SIZE_T_RANGE
  {
    var t := Swap(s, i);
    assert t.grants[..|t.grants| - 1] == s.grants;
    NextIs(s.fspi, Count(s.callers[i].q));
    hide NextFspi;
  }

  lemma NextIs(fspi: nat, count: nat)
    requires fspi < SIZE_T_RANGE
    ensures NextFspi(fspi, count) == fspi + count <==> fspi + count < SIZE_T_RANGE
  {
  }

  /** The sum of a request's range with any index in the table fits an unsigned long: always so when that is 64 bits. */
  predicate CountFits(q: Request) {
    SPAACE_NUMBER_ENTRIES + Count(q) < SIZE_T_RANGE
  }

  lemma WideCountFits(q: Request)
    requires W == 8 && Fits(q)
    ensures CountFits(q)
  {
  }

  ghost predicate AllFit(s: State) {
    forall i :: 0 <= i < |s.callers| ==> CountFits(s.callers[i].q)
  }

  // ---- each kind of step ----

  lemma RangesStep(s: State, t: State, i: nat)
    requires Ranges(s) && i < |s.callers| == |t.callers| && s.grants <= t.grants
    requires forall j :: 0 <= j < |s.callers| && j != i ==> t.callers[j] == s.callers[j]
    requires Ranged(t, i)
    ensures Ranges(t)
  {
    hide NextFspi, GotRange;
    forall j | 0 <= j < |t.callers| ensures Ranged(t, j) {
      assert Ranged(s, j);
    }
  }

  lemma SwapKeeps(s: State, i: nat)
    requires Invariant(s) && Enabled(s, SwapIndex(i)) && CountFits(s.callers[i].q)
    ensures Invariant(Swap(s, i))
  {
    hide NextFspi, Tiled, Ranges;
    RangedAt(s, i);
    var t := Swap(s, i);
    RangesStep(s, t, i);
    if s.fspi == s.callers[i].phase.tmp { SwapTiles(s, i); }
  }

  lemma RangedAt(s: State, i: nat)
    requires Ranges(s) && i < |s.callers|
    ensures Ranged(s, i)
  {
  }

  /** A store moves a caller on with the range it has. */
  lemma OnwardRange(c: Caller)
    requires CanWrite(c)
    ensures var d := c.(phase := Onward(c)); !d.phase.Loaded? && (GotRange(d) ==> GotRange(c) && First(d) == First(c))
  {
    hide Ops;
  }

  lemma StoreKeeps(s: State, i: nat)
    requires Invariant(s) && StoresWord(s, i)
    ensures Invariant(StoreIt(s, i))
  {
    hide Tiled, Ranges, With, Value, Ops, Onward, NextFspi;
    RangedAt(s, i);
    OnwardRange(s.callers[i]);
    RangesStep(s, StoreIt(s, i), i);
  }

  lemma TakeKeeps(s: State, i: nat)
    requires Invariant(s) && Enabled(s, TakeEntry(i))
    ensures Invariant(Take(s, i))
  {
    hide Tiled, Ranges, IsWindow, Wse, NextFspi;
    RangesStep(s, Take(s, i), i);
  }

  lemma LoadKeeps(s: State, step: Step)
    requires Invariant(s) && Enabled(s, step) && (step.LoadWord? || step.LoadIndex?)
    ensures Invariant(Step1(s, step))
  {
    hide Tiled, Ranges, Ops, Word, NextFspi;
    RangedAt(s, step.i);
    RangesStep(s, Step1(s, step), step.i);
  }

  lemma OthersKeep(s: State, t: State)
    requires Invariant(s) && t.grants == s.grants && t.fspi == s.fspi && |s.callers| <= |t.callers|
    requires forall j ::
      0 <= j < |t.callers| ==> if j < |s.callers| then t.callers[j] == s.callers[j] else t.callers[j].phase.Started?
    ensures Invariant(t)
  {
    hide NextFspi, Tiled;
    forall j | 0 <= j < |t.callers| ensures Ranged(t, j) {
      if j < |s.callers| { assert Ranged(s, j); }
    }
  }

  /** Every step keeps the grants end to end, provided the range asked for does not wrap the index. */
  lemma StepKeeps(s: State, step: Step)
    requires Enabled(s, step) && Invariant(s)
    requires step.SwapIndex? ==> CountFits(s.callers[step.i].q)
    ensures Invariant(Step1(s, step))
  {
    hide Invariant, Take, StoreIt, CountFits, Fits, LoadsWord, StoresWord, Swap, Begin, With, Value, Wse, CurrentRpn;
    match step
    case TakeEntry(i) => TakeKeeps(s, i);
    case StoreWord(i) => StoreKeeps(s, i);
    case SwapIndex(i) => SwapKeeps(s, i);
    case LoadWord(_) => LoadKeeps(s, step);
    case LoadIndex(_) => LoadKeeps(s, step);
    case Look(j) => LookKeeps(s, j);
    case _ => OthersKeep(s, Step1(s, step));
  }

  lemma LookKeeps(s: State, j: nat)
    requires Invariant(s) && Enabled(s, Look(j))
    ensures Invariant(LookAt(s, j))
  {
    hide Invariant, Wse, CurrentRpn, Busied;
    OthersKeep(s, LookAt(s, j));
  }

  // ---- runs ----

  predicate Careful(step: Step) { step.Call? ==> CountFits(step.q) }

  ghost predicate AllCareful(steps: seq<Step>) {
    forall i {:trigger steps[i]} :: 0 <= i < |steps| ==> Careful(steps[i])
  }

  /** No step but a call changes the requests. */
  lemma RequestsKept(s: State, step: Step)
    requires Enabled(s, step) && !step.Call?
    ensures var t := Step1(s, step);
      |t.callers| == |s.callers| && forall j :: 0 <= j < |s.callers| ==> t.callers[j].q == s.callers[j].q
  {
    hide IsWindow, NextFspi, Fits, Wse, Word, With, Value, Onward, Ops, TouchOps, CurrentRpn, Busied;
  }

  lemma FitsStep(s: State, step: Step)
    requires Enabled(s, step) && AllFit(s) && Careful(step)
    ensures AllFit(Step1(s, step))
  {
    hide CountFits;
    if !step.Call? {
      RequestsKept(s, step);
      hide Step1;
    } else {
      var t := Step1(s, step);
      assert t.callers == s.callers + [Caller(step.q, Started, NO_ENTRY)];
    }
  }

  lemma Asks(s: State, step: Step)
    requires AllFit(s) && Enabled(s, step)
    ensures step.SwapIndex? ==> CountFits(s.callers[step.i].q)
  {
    hide CountFits;
  }

  lemma {:induction false} RunKeeps(s: State, steps: seq<Step>, t: State)
    requires Invariant(s) && AllFit(s) && Run(s, steps, t) && AllCareful(steps)
    ensures Invariant(t)
    decreases |steps|
  {
    hide Invariant, AllFit, Step1, Careful;
    if steps != [] {
      Asks(s, steps[0]);
      StepKeeps(s, steps[0]);
      FitsStep(s, steps[0]);
      forall i | 0 <= i < |steps[1..]| ensures Careful(steps[1..][i]) { var _ := steps[i + 1]; }
      RunKeeps(Step1(s, steps[0]), steps[1..], t);
    }
  }

  ghost function Sum(grants: seq<Grant>): nat
    decreases |grants|
  {
    if grants == [] then 0 else Sum(grants[..|grants| - 1]) + grants[|grants| - 1].count
  }

  lemma {:induction false} TiledSum(grants: seq<Grant>, end: nat)
    requires Tiled(grants, end)
    ensures Sum(grants) == end
    decreases |grants|
  {
    if grants != [] { TiledSum(grants[..|grants| - 1], grants[|grants| - 1].start); }
  }

  /** Of two grants the later begins where the earlier has ended. */
  lemma {:induction false} TiledApart(grants: seq<Grant>, end: nat, a: nat, b: nat)
    requires Tiled(grants, end) && a <= b < |grants|
    ensures grants[b].start + grants[b].count <= end
    ensures a < b ==> grants[a].start + grants[a].count <= grants[b].start
    decreases |grants|
  {
    var n := |grants| - 1;
    var front := grants[..n];
    if b < n {
      TiledApart(front, grants[n].start, a, b);
    } else if a < b {
      TiledApart(front, grants[n].start, a, a);
    }
  }

  /** The ranges granted are pairwise disjoint, inside the secondary table, and add up to the index. */
  lemma RangesApart(s: State, steps: seq<Step>, t: State, i: nat, j: nat)
    requires Initial(s) && Run(s, steps, t) && AllCareful(steps)
    requires i < |t.callers| && j < |t.callers| && i != j && GotRange(t.callers[i]) && GotRange(t.callers[j])
    ensures var a, b := t.callers[i], t.callers[j];
      && First(a) + Count(a.q) <= SPAACE_NUMBER_ENTRIES
      && (First(a) + Count(a.q) <= First(b) || First(b) + Count(b.q) <= First(a))
    ensures Sum(t.grants) == t.fspi <= SPAACE_NUMBER_ENTRIES
  {
    hide Run, Tiled, GotRange, First;
    StartsRanged(s);
    RunKeeps(s, steps, t);
    TiledSum(t.grants, t.fspi);
    var k := GrantOf(t, i);
    var m := GrantOf(t, j);
    TiledApart(t.grants, t.fspi, k, k);
    if k < m { TiledApart(t.grants, t.fspi, k, m); } else { TiledApart(t.grants, t.fspi, m, k); }
  }

  lemma StartsRanged(s: State)
    requires Initial(s)
    ensures Invariant(s) && AllFit(s)
  {
  }

  lemma GrantOf(t: State, i: nat) returns (k: nat)
    requires Invariant(t) && i < |t.callers| && GotRange(t.callers[i])
    ensures k < |t.grants| && t.grants[k] == Grant(i, First(t.callers[i]), Count(t.callers[i].q))
  {
    hide Tiled, NextFspi;
    assert Ranged(t, i);
    k :| 0 <= k < |t.grants| && t.grants[k] == Grant(i, First(t.callers[i]), Count(t.callers[i].q));
  }
}
