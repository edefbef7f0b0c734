/** Runs that go wrong: what the PAMU code's unlocked loads and stores, and its sums in an unsigned long, allow. */
module PamuRuns {
  import opened ChunkLayout
  import BinMaps
  import opened BitFields
  import opened Alignments
  import opened PamuTable
  import opened Pamu
  import opened PamuWords
  import opened PamuSteps
  import opened PamuRanges

  // ---- one call moving, nobody else ----

  /** Caller i's next operation. */
  lemma OpAlone(s0: State, before: seq<Step>, s: State, i: nat) returns (steps: seq<Step>, t: State)
    requires Run(s0, before, s) && i < |s.callers| && CanWrite(s.callers[i]) && s.callers[i].q.liodn < |s.table|
    requires s.callers[i].phase.reg.None?
    ensures Run(s0, steps, t)
    ensures var c, n := s.callers[i], s.callers[i].q.liodn;
      t == Moved(s, i, Onward(c)).(table := s.table[n := Do(s.table[n], Next(c))],
                                   holder := if c.phase.stage.Claim? then -1 else s.holder)
  {
    hide Run, Ops, With, Stores, Word;
    var c := s.callers[i];
    steps, t := before, s;
    if Next(c).SetField? {
      RunOn(s0, before, s, LoadWord(i));
      steps, t := before + [LoadWord(i)], Step1(s, LoadWord(i));
      RunOn(s0, steps, t, StoreWord(i));
      steps, t := steps + [StoreWord(i)], Step1(t, StoreWord(i));
    } else {
      PutAlone(Next(c), Word(s.table[c.q.liodn], Next(c).w));
      RunOn(s0, before, s, StoreWord(i));
      steps, t := before + [StoreWord(i)], Step1(s, StoreWord(i));
    }
  }

  lemma PutAlone(op: Op, v: nat)
    requires op.Put?
    ensures Stores(op, v) == Stores(op, 0)
  {
  }

  /** The rest of a stage. */
  lemma {:induction false} StageAlone(s0: State, before: seq<Step>, s: State, i: nat)
    returns (steps: seq<Step>, t: State)
    requires Run(s0, before, s) && i < |s.callers| && CanWrite(s.callers[i]) && s.callers[i].q.liodn < |s.table|
    requires s.callers[i].phase.reg.None?
    ensures Run(s0, steps, t)
    ensures var c, n := s.callers[i], s.callers[i].q.liodn; var stage := c.phase.stage;
      t == Moved(s, i, After(c.q, stage)).(table := s.table[n := Exec(s.table[n], Ops(c.q, stage)[c.phase.k..])],
                                          holder := if stage.Claim? then -1 else s.holder)
    decreases |Ops(s.callers[i].q, s.callers[i].phase.stage)| - s.callers[i].phase.k
  {
    hide Run, Ops, After;
    var c, n := s.callers[i], s.callers[i].q.liodn;
    var rest := Ops(c.q, c.phase.stage)[c.phase.k..];
    steps, t := OpAlone(s0, before, s, i);
    ExecFirst(s.table[n], rest);
    if c.phase.k + 1 < |Ops(c.q, c.phase.stage)| {
      assert rest[1..] == Ops(c.q, c.phase.stage)[c.phase.k + 1..];
      hide Exec, Do;
      steps, t := StageAlone(s0, steps, t, i);
    } else {
      assert rest[1..] == [];
      ExecNone(Do(s.table[n], rest[0]));
    }
  }

  lemma ExecFirst(e: Paace, ops: seq<Op>)
    requires ops != []
    ensures Exec(e, ops) == Exec(Do(e, ops[0]), ops[1..])
  {
    assert ops == [ops[0]] + ops[1..] && [ops[0]] == [] + [ops[0]];
    ExecOne(e, [], ops[0]);
    ExecJoin(e, [ops[0]], ops[1..]);
  }

  /** From the call to the claim. */
  lemma ClaimAlone(s0: State, before: seq<Step>, s: State, q: Request) returns (steps: seq<Step>, t: State)
    requires Run(s0, before, s) && Fits(q) && IsWindow(q.winAddr, q.winSize) && q.liodn < |s.table| && s.holder < 0
    requires Wse(s.table[q.liodn].addrBitfields) == 0
    ensures q.winSize >= 0x1000
    ensures Run(s0, steps, t) && var n := q.liodn;
      t == s.(callers := s.callers + [Caller(q, Writing(Base, 0, None), s.table[n])], holder := -1,
              table := s.table[n := Claimed(s.table[n], SizeToWse(q.winSize))],
              retargeted := s.retargeted - {n}, mixed := s.mixed - {n})
  {
    hide Run, Ops, Wse, Fits, IsWindow, Claimed, SizeToWse;
    var i := |s.callers|;
    WindowLarge(q);
    OpsThere(q);
    RunOn(s0, before, s, Call(q));
    var s1 := Step1(s, Call(q));
    RunOn(s0, before + [Call(q)], s1, TakeEntry(i));
    var s2 := Step1(s1, TakeEntry(i));
    assert s2.callers[i] == Caller(q, Writing(Claim, 0, None), s.table[q.liodn]);
    steps, t := StageAlone(s0, before + [Call(q)] + [TakeEntry(i)], s2, i);
    assert Ops(q, Claim)[0..] == Ops(q, Claim);
    ClaimStores(s.table[q.liodn], q);
    assert t.callers == s.callers + [Caller(q, Writing(Base, 0, None), s.table[q.liodn])] by { AfterClaim(q); }
  }

  lemma AfterClaim(q: Request)
    ensures After(q, Claim) == Writing(Base, 0, None)
  {
  }

  lemma WindowLarge(q: Request)
    requires IsWindow(q.winAddr, q.winSize)
    ensures q.winSize >= 0x1000
  {
  }

  /** The stores before the operation mapping is looked at, and those up to the page or the index. */
  lemma FillAlone(s0: State, before: seq<Step>, s: State, i: nat) returns (steps: seq<Step>, t: State)
    requires Run(s0, before, s) && i < |s.callers| && s.callers[i].phase == Writing(Base, 0, None)
    requires s.callers[i].q.liodn < |s.table| && !BadOmi(s.callers[i].q.omi)
    ensures Run(s0, steps, t)
    ensures var c, n := s.callers[i], s.callers[i].q.liodn; var e := StoreIds(StoreBase(s.table[n], c.q), c.q);
      t == Moved(s, i, if c.q.subwinCnt == 0 then Done(0) else Allocating).(
             table := s.table[n := if c.q.subwinCnt == 0 then StoreDirect(e, c.q) else e])
  {
    hide Run, Ops, StoreBase, StoreIds, StoreDirect, Exec, BadOmi;
    var q, n := s.callers[i].q, s.callers[i].q.liodn;
    BaseFour(q);
    steps, t := StageAlone(s0, before, s, i);
    BaseStores(s.table[n], q);
    assert Ops(q, Base)[0..] == BaseOps(q);
    FillIs(q);
    FillStores(t.table[n], q);
    if Ops(q, Fill) == [] {
      ExecNone(t.table[n]);
    } else {
      assert t.callers[i].phase == Writing(Fill, 0, None);
      steps, t := StageAlone(s0, steps, t, i);
      assert Ops(q, Fill)[0..] == FillOps(q);
    }
  }

  lemma BaseFour(q: Request)
    ensures Ops(q, Base) == BaseOps(q) && |Ops(q, Base)| == 4
  {
  }

  lemma FillIs(q: Request)
    ensures Ops(q, Fill) == FillOps(q) && (Ops(q, Fill) == [] ==> q.subwinCnt > 0)
  {
  }

  /** Touch j's next operation. */
  lemma TouchAlone(s0: State, before: seq<Step>, s: State, j: nat) returns (steps: seq<Step>, t: State)
    requires Run(s0, before, s) && j < |s.touches| && CanTouch(s.touches[j]) && s.touches[j].n < |s.table|
    requires s.touches[j].move.reg.None?
    ensures Run(s0, steps, t)
    ensures var u, n := s.touches[j], s.touches[j].n;
      t == Touched(s, j, Farther(u)).(table := s.table[n := Do(s.table[n], NextTouch(u))])
  {
    hide Run, TouchOps, With, Stores, Word;
    var u := s.touches[j];
    if NextTouch(u).SetField? {
      RunOn(s0, before, s, LoadTouch(j));
      steps, t := before + [LoadTouch(j)], Step1(s, LoadTouch(j));
      RunOn(s0, steps, t, StoreTouch(j));
      steps, t := steps + [StoreTouch(j)], Step1(t, StoreTouch(j));
    } else {
      PutAlone(NextTouch(u), Word(s.table[u.n], NextTouch(u).w));
      RunOn(s0, before, s, StoreTouch(j));
      steps, t := before + [StoreTouch(j)], Step1(s, StoreTouch(j));
    }
  }

  // ---- an entry claimed twice ----

  function Asking(liodn: nat, subwinCnt: nat): Request {
    Request(liodn, 0x1000, 0x1000, NO_ID, 0, NO_ID, NO_ID, subwinCnt)
  }

  lemma AskingFits(liodn: nat, subwinCnt: nat)
    requires subwinCnt < 0x1_0000_0000
    ensures Fits(Asking(liodn, subwinCnt)) && IsWindow(0x1000, 0x1000)
  {
    SmallPowers();
    hide BinMaps.Pow2;
    assert IsPow2(0x1000) by { PowIsPow2(12); }
  }

  /** A caller that holds the lock lets go of it, its claim stored. */
  lemma LetGo(s0: State, before: seq<Step>, s: State) returns (steps: seq<Step>, t: State)
    requires Run(s0, before, s) && Sane(s)
    ensures Run(s0, steps, t) && t.holder < 0 && t.touches == s.touches && |t.table| == |s.table|
      && |t.callers| == |s.callers|
    ensures forall i :: 0 <= i < |s.callers| && Owns(s.callers[i]) ==> t.callers[i] == s.callers[i]
  {
    hide Run, Ops, With, Value, Onward, Fits, IsWindow, After;
    steps, t := before, s;
    if s.holder >= 0 {
      var h := s.holder;
      CallerSane(s, h);
      OpsThere(s.callers[h].q);
      if s.callers[h].phase.reg.None? {
        steps, t := OpAlone(s0, before, s, h);
      } else {
        RunOn(s0, before, s, StoreWord(h));
        steps, t := before + [StoreWord(h)], Step1(s, StoreWord(h));
      }
    }
  }

  /** Once a stale word is about to be stored over an owned entry, a run may go on to a state in which another call
      owns it as well. */
  lemma StaleReopens(s0: State, before: seq<Step>, s: State, n: nat)
    returns (steps: seq<Step>, t: State, i: nat, j: nat)
    requires Run(s0, before, s) && Sane(s) && Stale(s, n)
    ensures Run(s0, steps, t) && i < j < |t.callers| && Owns(t.callers[i]) && Owns(t.callers[j])
    ensures t.callers[i].q.liodn == n == t.callers[j].q.liodn
  {
    hide Run, Ops, Fits, IsWindow, Wse, With, Stores, TouchOps, Claimed, SizeToWse;
    var k: nat :| k < |s.touches| && StaleTouch(s.touches[k], n);
    i :| 0 <= i < |s.callers| && Owns(s.callers[i]) && s.callers[i].q.liodn == n;
    CallerSane(s, i);
    var r;
    steps, r := LetGo(s0, before, s);
    var op := NextTouch(r.touches[k]);
    TouchesLeaveWse(r.touches[k].kind, r.touches[k].move.k);
    RunOn(s0, steps, r, StoreTouch(k));
    steps := steps + [StoreTouch(k)];
    var u := Step1(r, StoreTouch(k));
    WseLeft(op, r.touches[k].move.reg.v);
    NotAddr(r.table[n], op.w, Stores(op, r.touches[k].move.reg.v));
    AskingFits(n, 0);
    steps, t := ClaimAlone(s0, steps, u, Asking(n, 0));
    j := |s.callers|;
  }

  /** And so it does happen: pamu_disable_liodn loads the entry's first word, the entry is claimed, and the word is
      stored again, so that a second call finds the entry free and claims it too. */
  lemma LostClaim(s: State, n: nat) returns (steps: seq<Step>, t: State, i: nat, j: nat)
    requires Initial(s) && n < |s.table| && Wse(s.table[n].addrBitfields) == 0
    ensures Run(s, steps, t) && i < j < |t.callers| && Owns(t.callers[i]) && Owns(t.callers[j])
    ensures t.callers[i].q.liodn == n == t.callers[j].q.liodn
  {
    hide Run, Ops, Fits, IsWindow, Wse, Claimed, SizeToWse, Sane;
    Starts(s, n);
    NoSteps(s);
    RunOn(s, [], s, Ask(n, Disabling));
    var s1 := Step1(s, Ask(n, Disabling));
    RunOn(s, [] + [Ask(n, Disabling)], s1, Look(0));
    var s2 := Step1(s1, Look(0));
    RunOn(s, [] + [Ask(n, Disabling)] + [Look(0)], s2, LoadTouch(0));
    var s3 := Step1(s2, LoadTouch(0));
    steps := [] + [Ask(n, Disabling)] + [Look(0)] + [LoadTouch(0)];
    AskingFits(n, 0);
    var s4;
    steps, s4 := ClaimAlone(s, steps, s3, Asking(n, 0));
    RunSane(s, steps, s4);
    assert StaleTouch(s4.touches[0], n);
    assert Owns(s4.callers[0]) && s4.callers[0].q.liodn == n;
    steps, t, i, j := StaleReopens(s, steps, s4, n);
  }

  // ---- what another call's store can undo ----

  lemma HighIs(e: Paace, q: Request)
    requires q.winAddr == 0x1000
    ensures StoreDirect(StoreIds(StoreBase(e, q), q), q).wbah == 0
  {
    hide SetBf;
  }

  lemma BaseIs(e: Paace)
    ensures Decode(e).base == e.wbah * 0x1_0000_0000 + GetBf(e.addrBitfields, WBAL) * 0x1000
  {
    hide GetBf;
  }

  lemma ClaimLeavesBase(e: Paace, wse: nat)
    ensures GetBf(Claimed(e, wse).addrBitfields, WBAL) == GetBf(e.addrBitfields, WBAL)
  {
    hide GetBf, SetBf;
    Listed();
    SetAddr(e.addrBitfields, WSE, wse, WBAL);
  }

  lemma ClaimSets(e: Paace, q: Request)
    requires Fits(q) && IsWindow(q.winAddr, q.winSize) && q.winSize >= 0x1000
    ensures Wse(Claimed(e, SizeToWse(q.winSize)).addrBitfields) != 0
  {
    hide SetBf, GetBf, IsWindow, Fits;
    WseSet(q, e.addrBitfields);
    hide SizeToWse;
  }

  /** pamu_enable_liodn loads the first word once the entry is claimed, and stores it when the window's base is there:
      the finished call's window is gone. */
  lemma LostBase(s: State, n: nat) returns (steps: seq<Step>, t: State)
    requires Initial(s) && n < |s.table| && Wse(s.table[n].addrBitfields) == 0
      && GetBf(s.table[n].addrBitfields, WBAL) == 0
    ensures Run(s, steps, t) && |t.callers| == 1 == |t.touches| && t.touches[0] == Touch(n, Enabling, Over)
    ensures t.callers[0].q == Asking(n, 0) && t.callers[0].phase == Done(0) && n < |t.table|
    ensures Decode(t.table[n]).base == 0 != t.callers[0].q.winAddr
  {
    hide Run, Ops, Fits, IsWindow, Wse, GetBf, SetBf, Claimed, SizeToWse, StoreBase, StoreIds, StoreDirect;
    var q := Asking(n, 0);
    NoSteps(s);
    AskingFits(n, 0);
    var s1;
    steps, s1 := ClaimAlone(s, [], s, q);
    ClaimSets(s.table[n], q);
    ClaimLeavesBase(s.table[n], SizeToWse(q.winSize));
    RunOn(s, steps, s1, Ask(n, Enabling));
    var s2 := Step1(s1, Ask(n, Enabling));
    steps := steps + [Ask(n, Enabling)];
    RunOn(s, steps, s2, Look(0));
    var s3 := Step1(s2, Look(0));
    steps := steps + [Look(0)];
    assert s3.touches == [Touch(n, Enabling, Doing(0, None))];
    RunOn(s, steps, s3, LoadTouch(0));
    var s4 := Step1(s3, LoadTouch(0));
    steps := steps + [LoadTouch(0)];
    var v := s1.table[n].addrBitfields;
    assert s4.touches == [Touch(n, Enabling, Doing(0, Some(v)))];
    var s5;
    steps, s5 := FillAlone(s, steps, s4, 0);
    RunOn(s, steps, s5, StoreTouch(0));
    t := Step1(s5, StoreTouch(0));
    steps := steps + [StoreTouch(0)];
    HighIs(s1.table[n], q);
    TouchAddr(v, V, 1);
    BaseIs(t.table[n]);
  }

  /** A configured entry whose page is 0. */
  lemma Configured0(s: State, n: nat) returns (steps: seq<Step>, t: State)
    requires Initial(s) && n < |s.table| && Wse(s.table[n].addrBitfields) == 0
    ensures Run(s, steps, t) && |t.table| == |s.table| && t.touches == []
    ensures |t.callers| == 1 && t.callers[0].q == Asking(n, 0) && t.callers[0].phase == Done(0)
    ensures Decode(t.table[n]).page == 0 && Decode(t.table[n]).perms == PAACE_AP_PERMS_ALL
  {
    hide Run, Ops, Fits, IsWindow, Wse, Claimed, SizeToWse, StoreBase, StoreIds, StoreDirect, Decode;
    var q := Asking(n, 0);
    NoSteps(s);
    AskingFits(n, 0);
    var s1;
    steps, s1 := ClaimAlone(s, [], s, q);
    steps, t := FillAlone(s, steps, s1, 0);
    DirectStored(StoreIds(StoreBase(s1.table[n], q), q), q);
    assert PageOf(0) == 0;
  }

  lemma LooksAgain(e: Paace)
    ensures e.(twbah := e.twbah) == e
  {
  }

  /** A retarget and a disable that overlap: when both are over, access to the entry is still denied. */
  lemma DeniedForGood(s: State, n: nat) returns (steps: seq<Step>, t: State)
    requires Initial(s) && n < |s.table| && Wse(s.table[n].addrBitfields) == 0
    ensures Run(s, steps, t) && |t.callers| == 1 && t.callers[0].phase == Done(0) && n < |t.table|
    ensures t.touches == [Touch(n, Retargeting(5), Over), Touch(n, Disabling, Over)]
    ensures Decode(t.table[n]).perms == PAACE_AP_PERMS_DENIED
  {
    hide Run, Ops, Wse, GetBf, SetBf, Decode, CurrentRpn;
    var s1;
    steps, s1 := Configured0(s, n);
    CurrentIsLow(s1.table[n]);
    var r := Ask(n, Retargeting(5));
    RunOn(s, steps, s1, r);
    var s2 := Step1(s1, r);
    RunOn(s, steps + [r], s2, Look(0));
    var s3 := Step1(s2, Look(0));
    LooksAgain(s1.table[n]);
    RunOn(s, steps + [r] + [Look(0)], s3, Look(0));
    var s4 := Step1(s3, Look(0));
    assert s4.touches == [Touch(n, Retargeting(5), Doing(0, None))] && s4.table == s1.table;
    steps := steps + [r] + [Look(0)] + [Look(0)];
    var s5;
    steps, s5 := TouchAlone(s, steps, s4, 0);
    TouchAddr(s4.table[n].addrBitfields, AP, PAACE_AP_PERMS_DENIED);
    steps, t := DisableAcross(s, steps, s5, n);
  }

  /** The disable comes in after the retarget's first store. */
  lemma DisableAcross(s0: State, before: seq<Step>, s: State, n: nat) returns (steps: seq<Step>, t: State)
    requires Run(s0, before, s) && n < |s.table| && s.touches == [Touch(n, Retargeting(5), Doing(1, None))]
    requires GetBf(s.table[n].addrBitfields, AP) == PAACE_AP_PERMS_DENIED
    ensures Run(s0, steps, t) && t.callers == s.callers && |t.table| == |s.table|
    ensures t.touches == [Touch(n, Retargeting(5), Over), Touch(n, Disabling, Over)]
    ensures Decode(t.table[n]).perms == PAACE_AP_PERMS_DENIED
  {
    hide Run, Ops, GetBf, SetBf;
    RunOn(s0, before, s, Ask(n, Disabling));
    var s1 := Step1(s, Ask(n, Disabling));
    RunOn(s0, before + [Ask(n, Disabling)], s1, Look(1));
    var s2 := Step1(s1, Look(1));
    RunOn(s0, before + [Ask(n, Disabling)] + [Look(1)], s2, LoadTouch(1));
    var s3 := Step1(s2, LoadTouch(1));
    steps := before + [Ask(n, Disabling)] + [Look(1)] + [LoadTouch(1)];
    var v := s.table[n].addrBitfields;
    assert s3.touches[1] == Touch(n, Disabling, Doing(0, Some(v)));
    var s4;
    steps, s4 := RestOfRetarget(s0, steps, s3, n);
    RunOn(s0, steps, s4, StoreTouch(1));
    t := Step1(s4, StoreTouch(1));
    steps := steps + [StoreTouch(1)];
    TouchAddr(v, V, 0);
    PermsBe(t.table[n]);
  }

  lemma PermsBe(e: Paace)
    ensures Decode(e).perms == GetBf(e.addrBitfields, AP)
  {
    hide GetBf;
  }

  lemma RestOfRetarget(s0: State, before: seq<Step>, s: State, n: nat) returns (steps: seq<Step>, t: State)
    requires Run(s0, before, s) && n < |s.table| && |s.touches| == 2
    requires s.touches[0] == Touch(n, Retargeting(5), Doing(1, None))
    ensures Run(s0, steps, t) && t.callers == s.callers && |t.table| == |s.table|
    ensures t.touches == [Touch(n, Retargeting(5), Over), s.touches[1]]
  {
    hide Run, Do;
    steps, t := TouchAlone(s0, before, s, 0);
    steps, t := TouchAlone(s0, steps, t, 0);
    steps, t := TouchAlone(s0, steps, t, 0);
    steps, t := TouchAlone(s0, steps, t, 0);
  }

  // ---- a request that wraps ----

  /** A request with a good window and a free entry, from the call to the grant, nobody else moving. */
  lemma GrantRun(s0: State, before: seq<Step>, s: State, q: Request) returns (steps: seq<Step>, t: State)
    requires Run(s0, before, s) && Fits(q) && IsWindow(q.winAddr, q.winSize) && q.liodn < |s.table| && s.holder < 0
    requires Wse(s.table[q.liodn].addrBitfields) == 0
    requires q.omi == NO_ID && q.subwinCnt > 0 && NextFspi(s.fspi, Count(q)) <= SPAACE_NUMBER_ENTRIES
    ensures Run(s0, steps, t) && |t.table| == |s.table| && t.holder < 0
    ensures forall n :: 0 <= n < |s.table| && n != q.liodn ==> t.table[n] == s.table[n]
    ensures |t.callers| == |s.callers| + 1 && t.callers[..|s.callers|] == s.callers
    ensures t.callers[|s.callers|].q == q && t.callers[|s.callers|].phase == Writing(Link(s.fspi), 0, None)
    ensures t.fspi == NextFspi(s.fspi, Count(q)) && t.grants == s.grants + [Grant(|s.callers|, s.fspi, Count(q))]
  {
    hide Run, Ops, Fits, IsWindow, Wse, Claimed, SizeToWse, StoreBase, StoreIds, StoreDirect, NextFspi;
    var s1, s2;
    var i := |s.callers|;
    steps, s1 := ClaimAlone(s0, before, s, q);
    steps, s2 := FillAlone(s0, steps, s1, i);
    RunOn(s0, steps, s2, LoadIndex(i));
    var s3 := Step1(s2, LoadIndex(i));
    RunOn(s0, steps + [LoadIndex(i)], s3, SwapIndex(i));
    steps, t := steps + [LoadIndex(i)] + [SwapIndex(i)], Step1(s3, SwapIndex(i));
  }

  /** Where an unsigned long has 32 bits, a run may give out a range that wraps: of two calls, one for nine
      subwindows and one for 2^32 - 3, both are granted a range, the second one past the table's end, and the index
      ends at 4, inside the first range.  The next call would be granted entries the first one has. */
  lemma WrapGrants(s: State) returns (steps: seq<Step>, t: State)
    requires W == 4 && Initial(s) && Wse(s.table[0].addrBitfields) == 0 == Wse(s.table[1].addrBitfields)
    ensures Run(s, steps, t) && |t.callers| == 2 && t.fspi == 4
    ensures GotRange(t.callers[0]) && First(t.callers[0]) == 0 && t.callers[0].q == Asking(0, 9)
    ensures GotRange(t.callers[1]) && First(t.callers[1]) == 8 && t.callers[1].q == Asking(1, 0xFFFF_FFFD)
    ensures First(t.callers[1]) + Count(t.callers[1].q) > SPAACE_NUMBER_ENTRIES && !Tiled(t.grants, t.fspi)
  {
    hide Run, Ops, Fits, IsWindow, Wse;
    AskingFits(0, 9);
    AskingFits(1, 0xFFFF_FFFD);
    var s1;
    NoSteps(s);
    steps, s1 := GrantRun(s, [], s, Asking(0, 9));
    hide Initial;
    assert s1.fspi == 8 && s1.table[1] == s.table[1];
    steps, t := GrantRun(s, steps, s1, Asking(1, 0xFFFF_FFFD));
    assert t.callers[0] == t.callers[..1][0];
  }
}
