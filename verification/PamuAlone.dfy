/** A call that nothing disturbs does, load by load and store by store, what the call as a whole does. */
module PamuAlone {
  import opened BitFields
  import opened PamuTable
  import opened Pamu
  import opened PamuWords
  import opened PamuSteps
  import opened PamuRuns

  // ---- pamu_config_ppaace ----

  function ResultOf(phase: Phase): Result {
    match phase
    case Refused(result, _) => result
    case _ => Success
  }

  predicate Ended(phase: Phase) { phase.Done? || phase.Refused? }

  /** A call that is refused before it claims its entry. */
  lemma RefusedAlone(s0: State, before: seq<Step>, s: State, q: Request) returns (steps: seq<Step>, t: State)
    requires Run(s0, before, s) && Fits(q) && s.holder < 0
    requires !IsWindow(q.winAddr, q.winSize) || q.liodn >= |s.table| || Wse(s.table[q.liodn].addrBitfields) != 0
    ensures Run(s0, steps, t)
    ensures var r := if !IsWindow(q.winAddr, q.winSize) then BadTree
                     else if q.liodn >= |s.table| then NotFound else Busy;
      t == s.(callers := s.callers + [Caller(q, Refused(r, false), NO_ENTRY)])
  {
    hide Run, Fits, IsWindow, Wse;
    var i := |s.callers|;
    RunOn(s0, before, s, Call(q));
    var s1 := Step1(s, Call(q));
    RunOn(s0, before + [Call(q)], s1, TakeEntry(i));
    steps, t := before + [Call(q)] + [TakeEntry(i)], Step1(s1, TakeEntry(i));
  }

  /** The part behind the index allocator's loop. */
  lemma LinkAlone(s0: State, before: seq<Step>, s: State, i: nat) returns (steps: seq<Step>, t: State)
    requires Run(s0, before, s) && i < |s.callers| && s.callers[i].phase.Allocating?
    requires s.callers[i].q.subwinCnt > 0 && s.callers[i].q.liodn < |s.table|
    ensures Run(s0, steps, t)
    ensures var q, n := s.callers[i].q, s.callers[i].q.liodn; var next := NextFspi(s.fspi, q.subwinCnt - 1);
      t == if next > SPAACE_NUMBER_ENTRIES then Moved(s, i, Refused(Invalid, true))
           else Moved(s, i, Done(s.fspi)).(fspi := next,
                                          table := s.table[n := StoreSplit(s.table[n], q, s.fspi)],
                                          grants := s.grants + [Grant(i, s.fspi, q.subwinCnt - 1)])
  {
    hide Run, Ops, StoreSplit, Exec, NextFspi;
    var q, n := s.callers[i].q, s.callers[i].q.liodn;
    RunOn(s0, before, s, LoadIndex(i));
    steps, t := before + [LoadIndex(i)], Step1(s, LoadIndex(i));
    if NextFspi(s.fspi, q.subwinCnt - 1) <= SPAACE_NUMBER_ENTRIES {
      RunOn(s0, steps, t, SwapIndex(i));
      steps, t := steps + [SwapIndex(i)], Step1(t, SwapIndex(i));
      LinkThree(q, s.fspi);
      steps, t := StageAlone(s0, steps, t, i);
      assert Ops(q, Link(s.fspi))[0..] == LinkOps(q, s.fspi);
      LinkStores(s.table[n], q, s.fspi);
    }
  }

  lemma LinkThree(q: Request, start: nat)
    requires q.subwinCnt > 0
    ensures Ops(q, Link(start)) == LinkOps(q, start) && |Ops(q, Link(start))| > 0
  {
  }

  /** A call whose operation mapping index is refused. */
  lemma BadAlone(s0: State, before: seq<Step>, s: State, i: nat) returns (steps: seq<Step>, t: State)
    requires Run(s0, before, s) && i < |s.callers| && s.callers[i].phase == Writing(Base, 0, None)
    requires s.callers[i].q.liodn < |s.table| && BadOmi(s.callers[i].q.omi)
    ensures Run(s0, steps, t)
    ensures var q, n := s.callers[i].q, s.callers[i].q.liodn;
      t == Moved(s, i, Refused(BadTree, true)).(table := s.table[n := StoreBase(s.table[n], q)])
  {
    hide Run, Ops, StoreBase, Exec, BadOmi;
    var q, n := s.callers[i].q, s.callers[i].q.liodn;
    BaseFour(q);
    steps, t := StageAlone(s0, before, s, i);
    BaseStores(s.table[n], q);
    assert Ops(q, Base)[0..] == BaseOps(q);
  }

  /** pamu_config_ppaace on its own has the result, and leaves the entry and the index, of the whole call. */
  lemma ConfigAlone(s0: State, before: seq<Step>, s: State, q: Request) returns (steps: seq<Step>, t: State)
    requires Run(s0, before, s) && Fits(q) && IsWindow(q.winAddr, q.winSize) && q.liodn < |s.table| && s.holder < 0
    requires Wse(s.table[q.liodn].addrBitfields) == 0
    ensures Run(s0, steps, t) && t.holder < 0 && t.touches == s.touches && |t.table| == |s.table|
    ensures forall n :: 0 <= n < |s.table| && n != q.liodn ==> t.table[n] == s.table[n]
    ensures |t.callers| == |s.callers| + 1 && t.callers[..|s.callers|] == s.callers
    ensures q.winSize >= 0x1000
    ensures var phase := t.callers[|s.callers|].phase;
      && Ended(phase)
      && Outcome(ResultOf(phase), Decode(t.table[q.liodn]), t.fspi)
         == Configured(Decode(s.table[q.liodn]), s.fspi, q)
  {
    hide Run, Fits, IsWindow, Wse, Claimed, SizeToWse, StoreBase, StoreIds, StoreDirect, StoreSplit, NextFspi, Decode,
      Windowing, Identified, Direct, Split, BadOmi;
    var i, n := |s.callers|, q.liodn;
    var s1;
    steps, s1 := ClaimAlone(s0, before, s, q);
    WindowStored(s.table[n], q);
    if BadOmi(q.omi) {
      steps, t := BadAlone(s0, steps, s1, i);
    } else {
      steps, t := FillAlone(s0, steps, s1, i);
      var w := StoreBase(s1.table[n], q);
      IdsStored(w, q);
      if q.subwinCnt == 0 {
        DirectStored(StoreIds(w, q), q);
      } else {
        SplitStored(StoreIds(w, q), q, s.fspi);
        steps, t := LinkAlone(s0, steps, t, i);
      }
    }
  }

  // ---- pamu_enable_liodn, pamu_disable_liodn and pamu_reconfig_liodn ----

  /** The rest of a call's stores. */
  lemma {:induction false} StoresAlone(s0: State, before: seq<Step>, s: State, j: nat)
    returns (steps: seq<Step>, t: State)
    requires Run(s0, before, s) && j < |s.touches| && CanTouch(s.touches[j]) && s.touches[j].n < |s.table|
    requires s.touches[j].move.reg.None?
    ensures Run(s0, steps, t)
    ensures var u, n := s.touches[j], s.touches[j].n;
      t == Touched(s, j, Over).(table := s.table[n := Exec(s.table[n], TouchOps(u.kind)[u.move.k..])])
    decreases |TouchOps(s.touches[j].kind)| - s.touches[j].move.k
  {
    hide Run, TouchOps;
    var u, n := s.touches[j], s.touches[j].n;
    var rest := TouchOps(u.kind)[u.move.k..];
    steps, t := TouchAlone(s0, before, s, j);
    ExecFirst(s.table[n], rest);
    if u.move.k + 1 < |TouchOps(u.kind)| {
      assert rest[1..] == TouchOps(u.kind)[u.move.k + 1..];
      hide Exec, Do;
      steps, t := StoresAlone(s0, steps, t, j);
    } else {
      assert rest[1..] == [];
      ExecNone(Do(s.table[n], rest[0]));
    }
  }

  /** What the whole call leaves in the entry. */
  function TouchedEntry(d: Entry, kind: Kind): Entry {
    match kind
    case Enabling => if d.wse == 0 then d else d.(valid := 1)
    case Disabling => d.(valid := 0)
    case Retargeting(rpn) =>
      if d.page % 0x1_0000_0000 == rpn then d
      else d.(page := rpn % 0x10_0000_0000_0000, perms := PAACE_AP_PERMS_ALL, xlate := PAACE_ATM_WINDOW_XLATE)
  }

  /** What the call sees first: whether it has anything to store. */
  predicate HasWork(d: Entry, kind: Kind) {
    match kind
    case Enabling => d.wse != 0
    case Disabling => true
    case Retargeting(rpn) => d.page % 0x1_0000_0000 != rpn
  }

  lemma TouchMeans(e: Paace, kind: Kind)
    ensures var d := Decode(e); TouchedEntry(d, kind) == if HasWork(d, kind) then Decode(Exec(e, TouchOps(kind))) else d
  {
    hide SetBf, GetBf, Exec;
    match kind
    case Enabling =>
      OneStore(e, SetField(Addr, V, 1));
      ValidatedMeans(e, 1);
    case Disabling =>
      OneStore(e, SetField(Addr, V, 0));
      ValidatedMeans(e, 0);
    case Retargeting(rpn) =>
      RetargetMeans(e, rpn);
  }

  lemma OneStore(e: Paace, op: Op)
    ensures Exec(e, [op]) == Do(e, op)
  {
    assert [op] == [] + [op];
    ExecOne(e, [], op);
  }

  lemma LooksAlone(s0: State, before: seq<Step>, s: State, n: nat, kind: Kind) returns (steps: seq<Step>, t: State)
    requires Run(s0, before, s)
    ensures Run(s0, steps, t) && t.table == s.table && t.callers == s.callers && t.fspi == s.fspi
    ensures t.touches == s.touches + [Touch(n, kind, if n < |s.table| && HasWork(Decode(s.table[n]), kind)
                                                     then Doing(0, None) else Over)]
  {
    hide Run, Decode, CurrentRpn;
    var j := |s.touches|;
    RunOn(s0, before, s, Ask(n, kind));
    var s1 := Step1(s, Ask(n, kind));
    RunOn(s0, before + [Ask(n, kind)], s1, Look(j));
    steps, t := before + [Ask(n, kind)] + [Look(j)], Step1(s1, Look(j));
    if n < |s.table| {
      CurrentIsLow(s.table[n]);
      LooksAgain(s.table[n]);
      SizeSeen(s.table[n]);
      if kind.Retargeting? {
        RunOn(s0, steps, t, Look(j));
        steps, t := steps + [Look(j)], Step1(t, Look(j));
      }
    }
  }

  lemma SizeSeen(e: Paace)
    ensures Wse(e.addrBitfields) == Decode(e).wse
  {
    hide GetBf;
  }

  /** Each of the three calls, on its own, leaves in the entry what the whole call does. */
  lemma TouchDoes(s0: State, before: seq<Step>, s: State, n: nat, kind: Kind) returns (steps: seq<Step>, t: State)
    requires Run(s0, before, s)
    ensures Run(s0, steps, t) && t.callers == s.callers && t.fspi == s.fspi && |t.table| == |s.table|
    ensures t.touches == s.touches + [Touch(n, kind, Over)]
    ensures forall m :: 0 <= m < |s.table| && m != n ==> t.table[m] == s.table[m]
    ensures n < |s.table| ==> Decode(t.table[n]) == TouchedEntry(Decode(s.table[n]), kind)
  {
    hide Run, Decode, Exec, TouchOps, HasWork, TouchedEntry;
    steps, t := LooksAlone(s0, before, s, n, kind);
    var u := t.touches[|s.touches|];
    if n < |s.table| { TouchMeans(s.table[n], kind); }
    if u.move.Doing? {
      TouchThere(kind);
      assert TouchOps(kind)[0..] == TouchOps(kind);
      steps, t := StoresAlone(s0, steps, t, |s.touches|);
    }
  }
}
