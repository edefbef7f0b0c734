/** What an entry of the PAMU says while a call configures it and after, as long as no other call stores into it in
    between. */
module PamuHeld {
  import BinMaps
  import opened BitFields
  import opened PamuTable
  import opened Pamu
  import opened PamuWords
  import opened PamuSteps

  predicate UnderWay(c: Caller, n: nat) {
    c.q.liodn == n && (c.phase.Writing? || c.phase.Allocating? || c.phase.Loaded?)
  }

  predicate Settled(c: Caller, n: nat) {
    c.q.liodn == n && (c.phase.Done? || (c.phase.Refused? && c.phase.kept))
  }

  /** No call is between a load and a store of entry n, or in the middle of its stores, while another configures it. */
  ghost predicate ApartAt(s: State, n: nat) {
    forall i {:trigger s.callers[i]} :: 0 <= i < |s.callers| && UnderWay(s.callers[i], n) ==> !Busied(s, n)
  }

  ghost predicate AlwaysApart(s: State, steps: seq<Step>, n: nat)
    decreases |steps|
  {
    ApartAt(s, n) && (steps != [] && Enabled(s, steps[0]) ==> AlwaysApart(Step1(s, steps[0]), steps[1..], n))
  }

  /** The entry as the caller alone has made it. */
  function Made(c: Caller): Paace
    requires c.q.winSize >= 0x1000
  {
    match c.phase
    case Writing(stage, k, _) =>
      Exec(Before(c.was, c.q, stage), if k <= |Ops(c.q, stage)| then Ops(c.q, stage)[..k] else [])
    case Done(start) =>
      if c.q.subwinCnt == 0 then StoreDirect(Before(c.was, c.q, Link(0)), c.q)
      else StoreSplit(Before(c.was, c.q, Link(start)), c.q, start)
    case Refused(result, _) => if result.BadTree? then Before(c.was, c.q, Fill) else Before(c.was, c.q, Link(0))
    case _ => Before(c.was, c.q, Link(0))
  }

  ghost predicate RetargetBusy(s: State, n: nat) {
    exists j {:trigger s.touches[j]} ::
      0 <= j < |s.touches| && s.touches[j].n == n && s.touches[j].move.Doing? && s.touches[j].kind.Retargeting?
  }

  ghost predicate PageRight(s: State, n: nat, c: Caller)
    requires n < |s.table|
  {
    var d := Decode(s.table[n]);
    c.phase.Done? && c.q.subwinCnt == 0 ==>
      && d.xlate == PAACE_ATM_WINDOW_XLATE
      && (n !in s.retargeted ==> d.page == PageOf(c.q.rpn) && d.perms == PAACE_AP_PERMS_ALL)
      && (n !in s.mixed && !RetargetBusy(s, n) ==> d.perms == PAACE_AP_PERMS_ALL)
  }

  ghost predicate HeldRight(s: State, n: nat, c: Caller) {
    && (UnderWay(c, n) || Settled(c, n) ==> n < |s.table| && c.q.winSize >= 0x1000)
    && (UnderWay(c, n) ==>
          && s.table[n] == Made(c)
          && (CanWrite(c) && c.phase.reg.Some? ==> c.phase.reg.v == Word(s.table[n], Next(c).w)))
    && (Settled(c, n) ==> Alike(s.table[n], Made(c)) && PageRight(s, n, c))
  }

  /** What another call has loaded is still so where it matters. */
  ghost predicate LoadedRight(s: State, n: nat, t: Touch) {
    t.n == n && t.move.Doing? ==>
      && n < |s.table| && (t.kind.Retargeting? ==> n in s.retargeted)
      && (CanTouch(t) && t.move.reg.Some? ==>
            && Agree(NextTouch(t).w, t.move.reg.v, Word(s.table[n], NextTouch(t).w))
            && (NextTouch(t).w.Addr? && n !in s.retargeted ==>
                  GetBf(t.move.reg.v, AP) == GetBf(s.table[n].addrBitfields, AP))
            && (n !in s.mixed ==> t.move.reg.v == Word(s.table[n], NextTouch(t).w)))
  }

  predicate DoingAt(t: Touch, n: nat) { t.n == n && t.move.Doing? }

  ghost predicate OneDoing(s: State, n: nat) {
    n !in s.mixed ==> forall j, l {:trigger s.touches[j], s.touches[l]} ::
      0 <= j < l < |s.touches| && DoingAt(s.touches[j], n) ==> !DoingAt(s.touches[l], n)
  }

  ghost predicate AllHeld(s: State, n: nat) {
    forall i {:trigger s.callers[i]} :: 0 <= i < |s.callers| ==> HeldRight(s, n, s.callers[i])
  }

  ghost predicate AllLoaded(s: State, n: nat) {
    forall j {:trigger s.touches[j]} :: 0 <= j < |s.touches| ==> LoadedRight(s, n, s.touches[j])
  }

  ghost predicate Tidy(s: State, n: nat) {
    AllHeld(s, n) && AllLoaded(s, n) && OneDoing(s, n)
  }

  // ---- steps of other entries, and of callers that have none ----

  predicate SameAt(s: State, t: State, n: nat) {
    && |t.table| == |s.table| && (n < |s.table| ==> t.table[n] == s.table[n])
    && (n in t.retargeted <==> n in s.retargeted) && (n in t.mixed <==> n in s.mixed)
  }

  lemma HeldSame(s: State, t: State, n: nat, c: Caller)
    requires HeldRight(s, n, c) && SameAt(s, t, n) && t.touches == s.touches
    ensures HeldRight(t, n, c)
  {
    hide Alike, Decode, Made, Word, CanWrite, PageOf;
  }

  lemma LoadedSame(s: State, t: State, n: nat, u: Touch)
    requires LoadedRight(s, n, u) && SameAt(s, t, n)
    ensures LoadedRight(t, n, u)
  {
    hide Agree, GetBf, Word, CanTouch;
  }

  /** Caller i moves, and the entry stays what it was. */
  lemma CallerTidy(s: State, t: State, i: nat, n: nat)
    requires Tidy(s, n) && SameAt(s, t, n) && t.touches == s.touches && i < |t.callers| && |s.callers| <= |t.callers|
    requires forall j {:trigger t.callers[j]} ::
      0 <= j < |t.callers| && j != i ==> j < |s.callers| && t.callers[j] == s.callers[j]
    requires HeldRight(t, n, t.callers[i])
    ensures Tidy(t, n)
  {
    hide HeldRight, LoadedRight;
    forall j | 0 <= j < |t.callers| ensures HeldRight(t, n, t.callers[j]) {
      if j != i {
        var c := t.callers[j];
        assert c == s.callers[j];
        assert HeldRight(s, n, s.callers[j]);
        HeldSame(s, t, n, s.callers[j]);
      }
    }
    forall j | 0 <= j < |t.touches| ensures LoadedRight(t, n, t.touches[j]) {
      assert LoadedRight(s, n, s.touches[j]);
      LoadedSame(s, t, n, s.touches[j]);
    }
  }

  /** Caller i alone has the entry, and nobody else stores into it. */
  lemma OwnerTidy(s: State, t: State, i: nat, n: nat)
    requires OnlyHas(s, i, n) && t.touches == s.touches && i < |s.callers| == |t.callers| && !Busied(s, n)
    requires forall j {:trigger t.callers[j]} :: 0 <= j < |s.callers| && j != i ==> t.callers[j] == s.callers[j]
    requires HeldRight(t, n, t.callers[i])
    ensures Tidy(t, n)
  {
    hide HeldRight;
    forall j | 0 <= j < |t.callers| ensures HeldRight(t, n, t.callers[j]) {
      if j != i {
        assert !Has(s.callers[j], n);
        NotHeld(t, n, t.callers[j]);
      }
    }
    hide CanTouch, Agree, Word;
    forall j | 0 <= j < |t.touches| ensures LoadedRight(t, n, t.touches[j]) { var _ := s.touches[j]; }
  }

  lemma NotHeld(t: State, n: nat, c: Caller)
    requires !Has(c, n)
    ensures HeldRight(t, n, c)
  {
    hide Made, Alike, CanWrite;
  }

  lemma HeldOf(s: State, i: nat, n: nat)
    requires Tidy(s, n) && i < |s.callers|
    ensures HeldRight(s, n, s.callers[i])
  {
    hide HeldRight, LoadedRight;
    var _ := s.callers[i];
  }

  lemma NotBusied(s: State, i: nat, n: nat)
    requires ApartAt(s, n) && i < |s.callers| && UnderWay(s.callers[i], n)
    ensures !Busied(s, n)
  {
    hide UnderWay, Busied;
    var _ := s.callers[i];
  }

  // ---- each kind of step ----

  lemma TakeTidy(s: State, i: nat, n: nat)
    requires Sane(s) && SizesUp(s, n) && Tidy(s, n) && Enabled(s, TakeEntry(i)) && ApartAt(Take(s, i), n)
    ensures Tidy(Take(s, i), n)
  {
    hide Sane, SizesUp, Tidy, ApartAt, Wse, IsWindow, Ops, Made, HeldRight, OnlyHas, Busied;
    var t, q := Take(s, i), s.callers[i].q;
    if t.holder == i && q.liodn == n {
      FreeIsNobodys(s, i, n);
      assert UnderWay(t.callers[i], n);
      NotBusied(t, i, n);
      SameBusied(s, t, n);
      assert q.winSize >= 0x1000 by { SizeOfWindow(q); }
      ClaimMade(t.callers[i]);
      MadeHeld(t, n, t.callers[i]);
      OwnerTidy(s, t, i, n);
    } else {
      NotHeld(t, n, t.callers[i]);
      CallerTidy(s, t, i, n);
    }
  }

  lemma ClaimMade(c: Caller)
    requires c.q.winSize >= 0x1000 && c.phase == Writing(Claim, 0, None)
    ensures Made(c) == c.was
  {
    hide Ops;
    assert Ops(c.q, Claim)[..0] == [];
  }

  lemma SizeOfWindow(q: Request)
    requires IsWindow(q.winAddr, q.winSize)
    ensures q.winSize >= 0x1000
  {
  }

  lemma SameBusied(s: State, t: State, n: nat)
    requires t.touches == s.touches
    ensures Busied(t, n) <==> Busied(s, n)
  {
  }

  lemma LoadTidy(s: State, i: nat, n: nat)
    requires Tidy(s, n) && LoadsWord(s, i)
    ensures Tidy(LoadIt(s, i), n)
  {
    hide Tidy, Ops, Alike, Exec, Word;
    HeldOf(s, i, n);
    var t := LoadIt(s, i);
    CallerTidy(s, t, i, n);
  }

  /** The store of an entry's only owner. */
  lemma StoreMade(c: Caller, e: Paace)
    requires CanWrite(c) && c.q.winSize >= 0x1000 && e == Made(c) && (c.phase.stage.Link? ==> c.q.subwinCnt > 0)
    requires Next(c).SetField? ==> c.phase.reg == Some(Word(e, Next(c).w))
    ensures With(e, Next(c).w, Value(Next(c), c.phase.reg)) == Made(c.(phase := Onward(c)))
  {
    hide Ops, Before, SetBf;
    var ops := Ops(c.q, c.phase.stage);
    var k := c.phase.k;
    assert ops[..k + 1] == ops[..k] + [ops[k]];
    ExecOne(Before(c.was, c.q, c.phase.stage), ops[..k], ops[k]);
    assert With(e, Next(c).w, Value(Next(c), c.phase.reg)) == Do(e, ops[k]);
    if k + 1 == |ops| {
      assert ops[..k + 1] == ops;
      hide Exec;
      StageStores(c.was, c.q, c.phase.stage);
      AfterMade(c);
    }
  }

  lemma AfterMade(c: Caller)
    requires CanWrite(c) && c.phase.k + 1 == |Ops(c.q, c.phase.stage)| && c.q.winSize >= 0x1000
    requires c.phase.stage.Link? ==> c.q.subwinCnt > 0
    ensures Made(c.(phase := Onward(c))) == Behind(c.was, c.q, c.phase.stage)
  {
    hide Ops, StoreBase, StoreIds, StoreDirect, StoreSplit, Claimed, SizeToWse;
    var stage := c.phase.stage;
    if stage.Claim? { assert Ops(c.q, Base)[..0] == []; }
    if stage.Base? {
      assert Ops(c.q, Fill)[..0] == [];
      if Ops(c.q, Fill) == [] { NoFill(c.q, Before(c.was, c.q, Fill)); }
    }
  }

  lemma NoFill(q: Request, e: Paace)
    requires Ops(q, Fill) == []
    ensures StoreIds(e, q) == e
  {
    hide Mapped, Stashed, Snooped;
    assert MapOps(q) == [] && StashOps(q) == [] && SnoopOps(q) == [];
  }

  lemma DirectPage(s: State, n: nat, c: Caller)
    requires c.q.winSize >= 0x1000 && n < |s.table| && s.table[n] == Made(c)
    ensures PageRight(s, n, c)
  {
    hide Decode, StoreDirect, PageOf, Before;
    if c.phase.Done? && c.q.subwinCnt == 0 { DirectStored(Before(c.was, c.q, Link(0)), c.q); }
  }

  lemma AlikeItself(e: Paace)
    ensures Alike(e, e)
  {
    hide GetBf;
  }

  /** A caller that has the entry, which is what it made of it. */
  lemma MadeHeld(t: State, n: nat, c: Caller)
    requires n < |t.table| && c.q.winSize >= 0x1000 && t.table[n] == Made(c)
    requires c.phase.Writing? ==> c.phase.reg.None?
    ensures HeldRight(t, n, c)
  {
    hide Made, Alike, PageRight;
    DirectPage(t, n, c);
    AlikeItself(t.table[n]);
  }

  lemma StoreTidy(s: State, i: nat, n: nat)
    requires Sane(s) && OneHas(s, n) && Tidy(s, n) && StoresWord(s, i) && ApartAt(s, n)
    ensures Tidy(StoreIt(s, i), n)
  {
    hide Sane, OneHas, Tidy, ApartAt, Ops, Made, With, Value, Onward, OnlyHas, Busied, HeldRight, IsWindow, Fits;
    var t, c := StoreIt(s, i), s.callers[i];
    HeldOf(s, i, n);
    CallerSane(s, i);
    if c.q.liodn == n {
      OnlyThis(s, i, n);
      NotBusied(s, i, n);
      StoreHeld(s, t, i, c, t.callers[i]);
      OwnerTidy(s, t, i, n);
    } else {
      OtherHeld(t, n, t.callers[i]);
      CallerTidy(s, t, i, n);
    }
  }

  lemma OtherHeld(t: State, n: nat, c: Caller)
    requires c.q.liodn != n
    ensures HeldRight(t, n, c)
  {
    hide Made, Alike, CanWrite;
  }

  lemma StoreHeld(s: State, t: State, i: nat, c: Caller, d: Caller)
    requires StoresWord(s, i) && t == StoreIt(s, i) && i < |t.callers| && c == s.callers[i] && d == t.callers[i]
    requires SaneCaller(s, i) && HeldRight(s, c.q.liodn, c)
    ensures HeldRight(t, c.q.liodn, d)
  {
    hide Ops, Made, With, Value, Onward, IsWindow, Fits, Alike, PageRight;
    StoreMade(c, s.table[c.q.liodn]);
    OnwardFresh(c);
    MadeHeld(t, c.q.liodn, t.callers[i]);
  }

  lemma IndexTidy(s: State, step: Step, n: nat)
    requires Sane(s) && OneHas(s, n) && Tidy(s, n) && Enabled(s, step) && (step.LoadIndex? || step.SwapIndex?)
    requires ApartAt(s, n)
    ensures Tidy(Step1(s, step), n)
  {
    hide Sane, OneHas, Tidy, ApartAt, Ops, Before, OnlyHas, Busied, NextFspi, Alike, PageRight, HeldRight;
    var i := step.i;
    var t, c := Step1(s, step), s.callers[i];
    HeldOf(s, i, n);
    if c.q.liodn == n {
      IndexHeld(s, t, i);
    } else {
      OtherHeld(t, n, t.callers[i]);
    }
    CallerTidy(s, t, i, n);
  }

  lemma IndexHeld(s: State, t: State, i: nat)
    requires i < |s.callers| == |t.callers| && t.table == s.table
      && t.callers[i] == s.callers[i].(phase := t.callers[i].phase)
    requires s.callers[i].phase.Allocating? || s.callers[i].phase.Loaded?
    requires var p := t.callers[i].phase;
      p.Allocating? || p.Loaded? || p == Refused(Invalid, true)
        || (p.Writing? && p.stage.Link? && p.k == 0 && p.reg.None?)
    requires HeldRight(s, s.callers[i].q.liodn, s.callers[i])
    ensures HeldRight(t, s.callers[i].q.liodn, t.callers[i])
  {
    hide Alike, PageRight, Ops, StoreBase, StoreIds, Claimed;
    var c := t.callers[i];
    if c.phase.Writing? {
      assert Ops(c.q, c.phase.stage)[..0] == [];
      ExecNone(Before(c.was, c.q, c.phase.stage));
    }
    MadeHeld(t, c.q.liodn, c);
  }

  // ---- steps of the other calls ----

  lemma LoadedOf(s: State, j: nat, n: nat)
    requires Tidy(s, n) && j < |s.touches|
    ensures LoadedRight(s, n, s.touches[j])
  {
    hide HeldRight, LoadedRight;
    var _ := s.touches[j];
  }

  lemma DoingBusies(s: State, j: nat, n: nat)
    requires j < |s.touches| && DoingAt(s.touches[j], n)
    ensures Busied(s, n)
  {
  }

  /** A settled entry's page is right after a step that stores nothing: if more is marked, less is said. */
  lemma MarkedHeld(s: State, t: State, n: nat, c: Caller)
    requires HeldRight(s, n, c) && t.table == s.table && s.retargeted <= t.retargeted && s.mixed <= t.mixed
    requires RetargetBusy(s, n) ==> RetargetBusy(t, n)
    ensures HeldRight(t, n, c)
  {
    hide Alike, Decode, Made, Word, CanWrite, PageOf, RetargetBusy;
  }

  lemma MarkedLoaded(s: State, t: State, n: nat, u: Touch)
    requires LoadedRight(s, n, u) && t.table == s.table && s.retargeted <= t.retargeted && s.mixed <= t.mixed
    ensures LoadedRight(t, n, u)
  {
    hide Agree, GetBf, Word, CanTouch;
  }

  lemma BusyStays(s: State, t: State, j: nat, n: nat)
    requires j < |s.touches| == |t.touches| && (DoingAt(s.touches[j], n) ==> t.touches[j].move.Doing?)
    requires t.touches[j].n == s.touches[j].n && t.touches[j].kind == s.touches[j].kind
    requires forall l {:trigger t.touches[l]} :: 0 <= l < |s.touches| && l != j ==> t.touches[l] == s.touches[l]
    ensures RetargetBusy(s, n) ==> RetargetBusy(t, n)
  {
    if RetargetBusy(s, n) {
      var l :| 0 <= l < |s.touches| && s.touches[l].n == n && s.touches[l].move.Doing?
        && s.touches[l].kind.Retargeting?;
      assert t.touches[l].n == n;
    }
  }

  /** Touch j moves, without a store. */
  lemma MoveTidy(s: State, t: State, j: nat, n: nat)
    requires Tidy(s, n) && t.table == s.table && t.callers == s.callers && j < |s.touches| == |t.touches|
    requires s.retargeted <= t.retargeted && s.mixed <= t.mixed
    requires t.touches[j].n == s.touches[j].n && t.touches[j].kind == s.touches[j].kind
    requires forall l {:trigger t.touches[l]} :: 0 <= l < |s.touches| && l != j ==> t.touches[l] == s.touches[l]
    requires (DoingAt(s.touches[j], n) ==> t.touches[j].move.Doing?) && LoadedRight(t, n, t.touches[j])
    requires DoingAt(s.touches[j], n) || !t.touches[j].move.Doing? || s.touches[j].n != n || n in t.mixed
      || !Busied(s, n)
    ensures Tidy(t, n)
  {
    hide HeldRight, LoadedRight, RetargetBusy;
    BusyStays(s, t, j, n);
    forall i | 0 <= i < |t.callers| ensures HeldRight(t, n, t.callers[i]) {
      assert HeldRight(s, n, s.callers[i]);
      MarkedHeld(s, t, n, s.callers[i]);
    }
    forall l | 0 <= l < |t.touches| ensures LoadedRight(t, n, t.touches[l]) {
      if l != j {
        assert LoadedRight(s, n, s.touches[l]);
        MarkedLoaded(s, t, n, s.touches[l]);
      }
    }
    MoveOne(s, t, j, n);
  }

  lemma MoveOne(s: State, t: State, j: nat, n: nat)
    requires OneDoing(s, n) && j < |s.touches| == |t.touches| && s.mixed <= t.mixed
    requires forall l {:trigger t.touches[l]} :: 0 <= l < |s.touches| && l != j ==> t.touches[l] == s.touches[l]
    requires t.touches[j].n == s.touches[j].n
    requires DoingAt(s.touches[j], n) || !t.touches[j].move.Doing? || s.touches[j].n != n || n in t.mixed
      || !Busied(s, n)
    ensures OneDoing(t, n)
  {
    if n !in t.mixed {
      forall a, b | 0 <= a < b < |t.touches| && DoingAt(t.touches[a], n) ensures !DoingAt(t.touches[b], n) {
        var u, v := s.touches[a], s.touches[b];
        var w, x := t.touches[a], t.touches[b];
        if a != j && b != j { assert w == u && x == v; }
      }
    }
  }

  lemma LookTidy(s: State, j: nat, n: nat)
    requires Tidy(s, n) && Enabled(s, Look(j))
    ensures Tidy(LookAt(s, j), n)
  {
    hide Tidy, Wse, CurrentRpn, Agree, Word, GetBf, CanTouch;
    var t := LookAt(s, j);
    hide Busied;
    MoveTidy(s, t, j, n);
  }

  lemma LoadTouchTidy(s: State, j: nat, n: nat)
    requires Tidy(s, n) && LoadsTouch(s, j)
    ensures Tidy(LoadFor(s, j), n)
  {
    hide Tidy, Agree, GetBf, TouchOps, Busied;
    var t, u := LoadFor(s, j), s.touches[j];
    LoadedOf(s, j, n);
    if u.n == n { AgreeItself(s.table[n], NextTouch(u).w); }
    MoveTidy(s, t, j, n);
  }

  lemma AgreeItself(e: Paace, w: Name)
    ensures Agree(w, Word(e, w), Word(e, w))
    ensures w.Addr? ==> Word(e, w) == e.addrBitfields
  {
    hide GetBf;
  }

  // ---- a store by one of them ----

  lemma AlikeThen(e: Paace, f: Paace, h: Paace)
    requires Alike(e, f) && Alike(f, h)
    ensures Alike(e, h)
  {
    hide GetBf;
  }

  /** The entry after the store. */
  function Left(s: State, j: nat): Paace
    requires StoresTouch(s, j)
  {
    With(s.table[s.touches[j].n], NextTouch(s.touches[j]).w, Value(NextTouch(s.touches[j]), s.touches[j].move.reg))
  }

  /** What touch j's store does to its entry. */
  lemma LeftMeans(s: State, j: nat)
    requires StoresTouch(s, j) && LoadedRight(s, s.touches[j].n, s.touches[j])
    ensures var u := s.touches[j]; var d, d' := Decode(s.table[u.n]), Decode(Left(s, j));
      && Alike(Left(s, j), s.table[u.n])
      && (d.xlate == PAACE_ATM_WINDOW_XLATE ==> d'.xlate == PAACE_ATM_WINDOW_XLATE)
      && (!u.kind.Retargeting? && (u.n !in s.retargeted || u.n !in s.mixed) ==> d'.perms == d.perms)
      && (!u.kind.Retargeting? ==> d'.page == d.page)
      && (u.kind.Retargeting? && Farther(u).Over? ==> d'.perms == PAACE_AP_PERMS_ALL)
  {
    hide Agree, GetBf, Alike, Decode, SetBf, Stores, With;
    var u := s.touches[j];
    var op := NextTouch(u);
    TouchesAre(u.kind, u.move.k);
    TouchKeeps(s.table[u.n], op, if u.move.reg.Some? then u.move.reg.v else 0);
    TouchPart(u);
    PermsAre(s.table[u.n]);
  }

  lemma TouchPart(u: Touch)
    requires CanTouch(u)
    ensures !u.kind.Retargeting? ==> NextTouch(u).SetField? && NextTouch(u).w.Addr? && NextTouch(u).f == V
    ensures u.kind.Retargeting? && Farther(u).Over? ==> NextTouch(u) == SetField(Addr, AP, PAACE_AP_PERMS_ALL)
  {
  }

  lemma PermsAre(e: Paace)
    ensures Decode(e).perms == GetBf(e.addrBitfields, AP) && Word(e, Addr) == e.addrBitfields
  {
    hide GetBf;
  }

  lemma StoreTouchHeld(s: State, j: nat, c: Caller)
    requires StoresTouch(s, j) && Tidy(s, s.touches[j].n) && HeldRight(s, s.touches[j].n, c)
      && !UnderWay(c, s.touches[j].n)
    ensures HeldRight(StoreFor(s, j), s.touches[j].n, c)
  {
    hide Alike, Decode, Made, Tidy, RetargetBusy, Stores, With;
    var t, u := StoreFor(s, j), s.touches[j];
    LoadedOf(s, j, u.n);
    LeftMeans(s, j);
    if Settled(c, u.n) { AlikeThen(t.table[u.n], s.table[u.n], Made(c)); }
    BusyBefore(s, j);
  }

  /** When no retarget is under way after the store, none was before, or it was this one's last. */
  lemma BusyBefore(s: State, j: nat)
    requires StoresTouch(s, j) && Tidy(s, s.touches[j].n)
    ensures var u := s.touches[j];
      u.n !in s.mixed && !RetargetBusy(StoreFor(s, j), u.n) ==>
        if u.kind.Retargeting? then Farther(u).Over? else !RetargetBusy(s, u.n)
  {
    hide HeldRight, LoadedRight, AllHeld, AllLoaded, Stores, With, TouchOps, OneDoing;
    var t, u := StoreFor(s, j), s.touches[j];
    if u.kind.Retargeting? {
      var _ := t.touches[j];
    } else if u.n !in s.mixed {
      NoneRetargets(s, j, u.n);
    }
  }

  lemma NoneRetargets(s: State, j: nat, n: nat)
    requires OneDoing(s, n) && n !in s.mixed && j < |s.touches| && DoingAt(s.touches[j], n)
    requires !s.touches[j].kind.Retargeting?
    ensures !RetargetBusy(s, n)
  {
    hide OneDoing;
    if RetargetBusy(s, n) {
      var l :| 0 <= l < |s.touches| && s.touches[l].n == n && s.touches[l].move.Doing?
        && s.touches[l].kind.Retargeting?;
      OneOfThem(s, n, l, j);
    }
  }

  lemma OneOfThem(s: State, n: nat, a: nat, b: nat)
    requires OneDoing(s, n) && n !in s.mixed && a < |s.touches| && b < |s.touches|
    requires DoingAt(s.touches[a], n) && DoingAt(s.touches[b], n)
    ensures a == b
  {
    hide DoingAt;
    var _, _ := s.touches[a], s.touches[b];
  }

  lemma StoreTouchLoaded(s: State, j: nat, l: nat)
    requires StoresTouch(s, j) && Tidy(s, s.touches[j].n) && l < |s.touches|
    ensures LoadedRight(StoreFor(s, j), s.touches[j].n, StoreFor(s, j).touches[l])
  {
    hide Alike, Decode, Tidy, Stores, With, Agree, GetBf, TouchOps;
    var t, u := StoreFor(s, j), s.touches[j];
    var n := u.n;
    LoadedOf(s, j, n);
    LoadedOf(s, l, n);
    LeftMeans(s, j);
    PermsAre(s.table[n]);
    PermsAre(t.table[n]);
    if l != j && DoingAt(s.touches[l], n) {
      if n !in s.mixed { TidyOne(s, n, l, j); }
      if CanTouch(s.touches[l]) && s.touches[l].move.reg.Some? {
        AlikeAgree(t.table[n], s.table[n], NextTouch(s.touches[l]).w, s.touches[l].move.reg.v);
      }
    }
  }

  lemma TidyOne(s: State, n: nat, a: nat, b: nat)
    requires Tidy(s, n) && n !in s.mixed && a < |s.touches| && b < |s.touches|
    requires DoingAt(s.touches[a], n) && DoingAt(s.touches[b], n)
    ensures a == b
  {
    OneOfThem(s, n, a, b);
  }

  lemma StoreTouchTidy(s: State, j: nat, n: nat)
    requires Tidy(s, n) && StoresTouch(s, j) && ApartAt(s, n)
    ensures Tidy(StoreFor(s, j), n)
  {
    hide HeldRight, LoadedRight, UnderWay, Stores, With, TouchOps, RetargetBusy, Busied;
    var t, u := StoreFor(s, j), s.touches[j];
    forall i | 0 <= i < |t.callers| ensures HeldRight(t, n, t.callers[i]) {
      HeldOf(s, i, n);
      if u.n == n {
        if UnderWay(s.callers[i], n) { NotBusied(s, i, n); DoingBusies(s, j, n); }
        StoreTouchHeld(s, j, s.callers[i]);
      } else {
        HeldElse(s, j, n, s.callers[i]);
      }
    }
    forall l | 0 <= l < |t.touches| ensures LoadedRight(t, n, t.touches[l]) {
      if u.n == n {
        StoreTouchLoaded(s, j, l);
      } else {
        LoadedElse(s, j, n, l);
      }
    }
    MoveOne(s, t, j, n);
  }

  lemma HeldElse(s: State, j: nat, n: nat, c: Caller)
    requires StoresTouch(s, j) && s.touches[j].n != n && HeldRight(s, n, c)
    ensures HeldRight(StoreFor(s, j), n, c)
  {
    hide Alike, Decode, Made, Word, CanWrite, PageOf, Stores, With, TouchOps;
    var t := StoreFor(s, j);
    assert RetargetBusy(s, n) ==> RetargetBusy(t, n) by {
      if RetargetBusy(s, n) {
        var l :| 0 <= l < |s.touches| && s.touches[l].n == n && s.touches[l].move.Doing?
          && s.touches[l].kind.Retargeting?;
        assert t.touches[l].n == n;
      }
    }
    hide RetargetBusy;
  }

  lemma LoadedElse(s: State, j: nat, n: nat, l: nat)
    requires StoresTouch(s, j) && s.touches[j].n != n && l < |s.touches| && Tidy(s, n)
    ensures LoadedRight(StoreFor(s, j), n, StoreFor(s, j).touches[l])
  {
    hide Tidy, Agree, GetBf, Word, Stores, With, TouchOps;
    LoadedOf(s, l, n);
  }

  // ---- every step, and every run ----

  lemma GrowTidy(s: State, step: Step, n: nat)
    requires Tidy(s, n) && Enabled(s, step) && (step.Call? || step.Ask?)
    ensures Tidy(Step1(s, step), n)
  {
    hide HeldRight, LoadedRight, Fits;
    var t := Step1(s, step);
    assert RetargetBusy(s, n) ==> RetargetBusy(t, n) by {
      if RetargetBusy(s, n) {
        var l :| 0 <= l < |s.touches| && s.touches[l].n == n && s.touches[l].move.Doing?
          && s.touches[l].kind.Retargeting?;
        assert t.touches[l].n == n;
      }
    }
    hide RetargetBusy;
    forall i | 0 <= i < |t.callers| ensures HeldRight(t, n, t.callers[i]) {
      if i < |s.callers| {
        assert HeldRight(s, n, s.callers[i]);
        MarkedHeld(s, t, n, s.callers[i]);
      } else {
        NotHeld(t, n, t.callers[i]);
      }
    }
    forall l | 0 <= l < |t.touches| ensures LoadedRight(t, n, t.touches[l]) {
      if l < |s.touches| {
        assert LoadedRight(s, n, s.touches[l]);
        MarkedLoaded(s, t, n, s.touches[l]);
      } else {
        AskedLoaded(t, n, t.touches[l]);
      }
    }
    if n !in t.mixed {
      forall a, b | 0 <= a < b < |t.touches| && DoingAt(t.touches[a], n) ensures !DoingAt(t.touches[b], n) {
        var u := t.touches[b];
        if b < |s.touches| { var _, _ := s.touches[a], s.touches[b]; }
      }
    }
  }

  lemma AskedLoaded(t: State, n: nat, u: Touch)
    requires u.move.Asked?
    ensures LoadedRight(t, n, u)
  {
    hide Agree, GetBf, Word, CanTouch;
  }

  lemma StepTidy(s: State, step: Step, n: nat)
    requires Sane(s) && OneHas(s, n) && SizesUp(s, n) && Tidy(s, n) && Enabled(s, step)
    requires ApartAt(s, n) && ApartAt(Step1(s, step), n)
    ensures Tidy(Step1(s, step), n)
  {
    hide Fits, Sane, OneHas, SizesUp, Tidy, ApartAt, Take, LoadIt, StoreIt, LookAt, LoadFor, StoreFor;
    hide LoadsWord, StoresWord, LoadsTouch, StoresTouch;
    match step
    case TakeEntry(i) => TakeTidy(s, i, n);
    case LoadWord(i) => LoadTidy(s, i, n);
    case StoreWord(i) => StoreTidy(s, i, n);
    case LoadIndex(_) => IndexTidy(s, step, n);
    case SwapIndex(_) => IndexTidy(s, step, n);
    case Look(j) => LookTidy(s, j, n);
    case LoadTouch(j) => LoadTouchTidy(s, j, n);
    case StoreTouch(j) => StoreTouchTidy(s, j, n);
    case _ => GrowTidy(s, step, n);
  }

  /** Apart from configurations under way, a loaded word of an owned entry is never stale. */
  lemma TidyNotStale(s: State, n: nat)
    requires Tidy(s, n) && SizesUp(s, n)
    ensures !Stale(s, n)
  {
    hide HeldRight, LoadedRight, SizeUp, GetBf, TouchOps, StaleTouch, Owns;
    forall i, j | 0 <= i < |s.callers| && 0 <= j < |s.touches| && Owns(s.callers[i]) && s.callers[i].q.liodn == n
      ensures !StaleTouch(s.touches[j], n)
    {
      assert SizeUp(s, n, s.callers[i]) && LoadedRight(s, n, s.touches[j]);
      StaleAgrees(s, n, i, j);
    }
  }

  lemma StaleAgrees(s: State, n: nat, i: nat, j: nat)
    requires i < |s.callers| && j < |s.touches| && SizeUp(s, n, s.callers[i]) && LoadedRight(s, n, s.touches[j])
    requires Owns(s.callers[i]) && s.callers[i].q.liodn == n
    ensures !StaleTouch(s.touches[j], n)
  {
    hide GetBf, TouchOps;
  }

  lemma TidyAtStart(s: State, n: nat)
    requires Initial(s)
    ensures Tidy(s, n)
  {
  }

  lemma {:induction false} RunTidy(s: State, steps: seq<Step>, t: State, n: nat)
    requires Sane(s) && OneHas(s, n) && SizesUp(s, n) && Tidy(s, n) && Run(s, steps, t) && AlwaysApart(s, steps, n)
    ensures Sane(t) && OneHas(t, n) && SizesUp(t, n) && Tidy(t, n) && NeverStale(s, steps, n)
    decreases |steps|
  {
    hide Sane, OneHas, SizesUp, Tidy, Stale, Step1, Enabled, ApartAt;
    if steps != [] {
      var u := Step1(s, steps[0]);
      TidyNotStale(s, n);
      StepSane(s, steps[0]);
      StepOwner(s, steps[0], n);
      ApartNext(u, steps[1..], n);
      StepTidy(s, steps[0], n);
      RunTidy(u, steps[1..], t, n);
    }
  }

  lemma ApartNext(s: State, steps: seq<Step>, n: nat)
    requires AlwaysApart(s, steps, n)
    ensures ApartAt(s, n)
  {
    hide Step1, Enabled, ApartAt;
  }

  /** Runs in which no call is in the middle of entry n while another configures it are never stale for n: so at most
      one call ever claims n. */
  lemma ApartOneClaim(s: State, steps: seq<Step>, t: State, n: nat, i: nat, j: nat)
    requires Initial(s) && Run(s, steps, t) && AlwaysApart(s, steps, n)
    requires i < |t.callers| && j < |t.callers| && Owns(t.callers[i]) && Owns(t.callers[j])
    requires t.callers[i].q.liodn == n == t.callers[j].q.liodn
    ensures NeverStale(s, steps, n) && i == j
  {
    hide Initial, Run, NeverStale, AlwaysApart, Owns, Sane, OneHas, SizesUp, Tidy;
    Starts(s, n);
    TidyAtStart(s, n);
    RunTidy(s, steps, t, n);
    AtMostOneClaim(s, steps, t, n, i, j);
  }

  predicate IdsIn(d: Entry, q: Request) {
    && (q.omi < OME_NUMBER_ENTRIES ==> d.otm == PAACE_OTM_INDEXED && d.omi == q.omi)
    && (q.stashid != NO_ID ==> d.stash == q.stashid % 256)
    && (q.snoopid != NO_ID ==> d.snoop == q.snoopid % 256)
  }

  predicate SplitIn(d: Entry, q: Request, start: nat) {
    q.subwinCnt > 0 && d.wce == CountToWce(q.subwinCnt) % 16 && d.multi == 1 && d.fspi == start
  }

  /** What a call that is done has made of its entry. */
  lemma DoneMakes(c: Caller)
    requires c.phase.Done? && Fits(c.q) && IsWindow(c.q.winAddr, c.q.winSize) && c.q.winSize >= 0x1000
    ensures var d := Decode(Made(c));
      && d.wse == SizeToWse(c.q.winSize) && d.base == c.q.winAddr && d.primary == 0 && d.coherent == 1 && IdsIn(d, c.q)
      && (c.q.subwinCnt > 0 ==> SplitIn(d, c.q, c.phase.start))
  {
    hide Decode, StoreBase, StoreIds, StoreDirect, StoreSplit, Claimed, SizeToWse, CountToWce, IsWindow, Fits, PageOf;
    var q, e := c.q, Before(c.was, c.q, Fill);
    WindowStored(c.was, q);
    IdsStored(e, q);
    var f := Before(c.was, q, Link(0));
    if q.subwinCnt == 0 { DirectStored(f, q); } else { SplitStored(f, q, c.phase.start); }
  }

  /** After a run in which no call was in the middle of entry n while another configured it, the entry of a finished
      call has its window, identifiers, and range of secondary entries or, until it is retargeted, its page.  Access
      is allowed whenever no retarget is under way, unless two calls have stored into the entry at a time. */
  lemma FinishedReads(s: State, steps: seq<Step>, t: State, n: nat, i: nat)
    requires Initial(s) && Run(s, steps, t) && AlwaysApart(s, steps, n)
    requires i < |t.callers| && t.callers[i].phase.Done? && t.callers[i].q.liodn == n
    ensures n < |t.table|
    ensures var q, d := t.callers[i].q, Decode(t.table[n]);
      && BinMaps.Pow2(d.wse + 1) == q.winSize && d.base == q.winAddr && d.primary == 0 && d.coherent == 1 && IdsIn(d, q)
      && (q.subwinCnt > 0 ==> SplitIn(d, q, t.callers[i].phase.start))
      && (q.subwinCnt == 0 ==>
            && d.xlate == PAACE_ATM_WINDOW_XLATE
            && (n !in t.retargeted ==> d.page == PageOf(q.rpn) && (d.page == q.rpn <==> q.rpn < 0x10_0000_0000_0000))
            && (n !in t.retargeted || (n !in t.mixed && !RetargetBusy(t, n)) ==> d.perms == PAACE_AP_PERMS_ALL))
  {
    hide Initial, Run, AlwaysApart, Sane, OneHas, SizesUp, Tidy, Made, Decode, IsWindow, Fits, SizeToWse, BinMaps.Pow2,
      CountToWce;
    Starts(s, n);
    TidyAtStart(s, n);
    RunTidy(s, steps, t, n);
    HeldOf(t, i, n);
    CallerSane(t, i);
    var c := t.callers[i];
    DoneMakes(c);
    WindowSize(c.q);
    AlikeMeans(t.table[n], Made(c));
  }

  lemma WindowSize(q: Request)
    requires Fits(q) && IsWindow(q.winAddr, q.winSize)
    ensures q.winSize >= 0x1000 && BinMaps.Pow2(SizeToWse(q.winSize) + 1) == q.winSize
  {
    WseMeans(q.winSize);
  }

  /** A store by another call leaves the window of an entry alone if and only if the word it had loaded has the same
      window, or it stores to another word. */
  lemma StoreSpares(s: State, j: nat)
    requires StoresTouch(s, j)
    ensures var u := s.touches[j]; var d, d' := Decode(s.table[u.n]), Decode(StoreFor(s, j).table[u.n]);
      d'.wse == d.wse && d'.base == d.base <==>
      (NextTouch(u).w.Addr? ==>
        GetBf(u.move.reg.v, WSE) == d.wse && GetBf(u.move.reg.v, WBAL) == GetBf(s.table[u.n].addrBitfields, WBAL))
  {
    hide GetBf, SetBf, TouchOps;
    var u := s.touches[j];
    var op := NextTouch(u);
    TouchesAre(u.kind, u.move.k);
    if op.w.Addr? { TouchAddr(u.move.reg.v, op.f, op.x); }
  }
}
