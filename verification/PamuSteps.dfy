/** Calls of pamu_config_ppaace, pamu_enable_liodn, pamu_disable_liodn and pamu_reconfig_liodn on several cores, a
    load or a store at a time.  The lock covers the claim of an entry and nothing else.  Any interleaving is a run. */
module PamuSteps {
  import opened ChunkLayout
  import opened BinMaps
  import opened BitFields
  import opened PamuTable
  import opened Pamu
  import opened PamuWords

  /** Where a call of pamu_config_ppaace is.  Writing: operation k of a stage is next, and has loaded reg. */
  datatype Phase =
    | Started
    | Writing(stage: Stage, k: nat, reg: Reg)
    | Allocating
    | Loaded(tmp: nat)
    | Done(start: nat)
    | Refused(result: Result, kept: bool)

  datatype Reg = None | Some(v: nat)

  /** A call, and its entry as it was when the call found it free. */
  datatype Caller = Caller(q: Request, phase: Phase, was: Paace)

  /** Where a call on entry n is that configures nothing. */
  datatype Move =
    | Asked
    | Looked(high: nat)
    | Doing(k: nat, reg: Reg)
    | Over

  datatype Touch = Touch(n: nat, kind: Kind, move: Move)

  /** A range of secondary entries handed to a caller. */
  datatype Grant = Grant(caller: nat, start: nat, count: nat)

  /** The table and the index, the calls, the ranges granted, and who holds the lock.  Since an entry was last found
      free: whether it has been retargeted, and whether two of the other calls have stored into it at a time. */
  datatype State = State(table: seq<Paace>, fspi: nat, callers: seq<Caller>, touches: seq<Touch>, grants: seq<Grant>,
                         holder: int, retargeted: set<nat>, mixed: set<nat>)

  datatype Step =
    | Call(q: Request)
    | TakeEntry(i: nat)
    | LoadWord(i: nat)
    | StoreWord(i: nat)
    | LoadIndex(i: nat)
    | SwapIndex(i: nat)
    | Ask(n: nat, kind: Kind)
    | Look(j: nat)
    | LoadTouch(j: nat)
    | StoreTouch(j: nat)

  function Count(q: Request): int { q.subwinCnt - 1 }

  /** The operation that is next. */
  function Next(c: Caller): Op
    requires c.phase.Writing? && c.phase.k < |Ops(c.q, c.phase.stage)|
  {
    Ops(c.q, c.phase.stage)[c.phase.k]
  }

  function NextTouch(t: Touch): Op
    requires t.move.Doing? && t.move.k < |TouchOps(t.kind)|
  {
    TouchOps(t.kind)[t.move.k]
  }

  predicate CanWrite(c: Caller) {
    c.phase.Writing? && c.phase.k < |Ops(c.q, c.phase.stage)|
  }

  predicate CanTouch(t: Touch) {
    t.move.Doing? && t.move.k < |TouchOps(t.kind)|
  }

  predicate LoadsWord(s: State, i: nat) {
    && i < |s.callers| && CanWrite(s.callers[i]) && s.callers[i].q.liodn < |s.table|
    && Next(s.callers[i]).SetField? && s.callers[i].phase.reg.None?
  }

  predicate StoresWord(s: State, i: nat) {
    && i < |s.callers| && CanWrite(s.callers[i]) && s.callers[i].q.liodn < |s.table|
    && (Next(s.callers[i]).SetField? ==> s.callers[i].phase.reg.Some?)
  }

  predicate LoadsTouch(s: State, j: nat) {
    && j < |s.touches| && CanTouch(s.touches[j]) && s.touches[j].n < |s.table|
    && NextTouch(s.touches[j]).SetField? && s.touches[j].move.reg.None?
  }

  predicate StoresTouch(s: State, j: nat) {
    && j < |s.touches| && CanTouch(s.touches[j]) && s.touches[j].n < |s.table|
    && (NextTouch(s.touches[j]).SetField? ==> s.touches[j].move.reg.Some?)
  }

  predicate Enabled(s: State, step: Step) {
    match step
    case Call(q) => Fits(q)
    case TakeEntry(i) => i < |s.callers| && s.callers[i].phase.Started? && s.holder < 0
    case LoadWord(i) => LoadsWord(s, i)
    case StoreWord(i) => StoresWord(s, i)
    case LoadIndex(i) => i < |s.callers| && s.callers[i].phase.Allocating? && s.callers[i].q.subwinCnt > 0
    case SwapIndex(i) => i < |s.callers| && s.callers[i].phase.Loaded? && s.callers[i].q.subwinCnt > 0
    case Ask(n, kind) => true
    case Look(j) => j < |s.touches| && (s.touches[j].move.Asked? || s.touches[j].move.Looked?)
    case LoadTouch(j) => LoadsTouch(s, j)
    case StoreTouch(j) => StoresTouch(s, j)
  }

  // ---- the steps ----

  function Moved(s: State, i: nat, phase: Phase): State
    requires i < |s.callers|
  {
    s.(callers := s.callers[i := s.callers[i].(phase := phase)])
  }

  /** A stage with nothing to store is over at once. */
  function Enter(q: Request, stage: Stage): Phase {
    if Ops(q, stage) == [] && stage.Fill? then Allocating else Writing(stage, 0, None)
  }

  /** What follows a stage. */
  function After(q: Request, stage: Stage): Phase {
    match stage
    case Claim => Enter(q, Base)
    case Base => if BadOmi(q.omi) then Refused(BadTree, true) else Enter(q, Fill)
    case Fill => if q.subwinCnt == 0 then Done(0) else Allocating
    case Link(start) => Done(start)
  }

  /** The tests, the last one under the lock, which a call that finds its entry free goes on to hold. */
  ghost function Take(s: State, i: nat): State
    requires Enabled(s, TakeEntry(i))
  {
    var q := s.callers[i].q;
    if !IsWindow(q.winAddr, q.winSize) then Moved(s, i, Refused(BadTree, false))
    else if q.liodn >= |s.table| then Moved(s, i, Refused(NotFound, false))
    else if Wse(s.table[q.liodn].addrBitfields) != 0 then Moved(s, i, Refused(Busy, false))
    else s.(callers := s.callers[i := Caller(q, Writing(Claim, 0, None), s.table[q.liodn])], holder := i,
            retargeted := s.retargeted - {q.liodn}, mixed := s.mixed - {q.liodn})
  }

  function LoadIt(s: State, i: nat): State
    requires Enabled(s, LoadWord(i))
  {
    var c := s.callers[i];
    Moved(s, i, c.phase.(reg := Some(Word(s.table[c.q.liodn], Next(c).w))))
  }

  function Value(op: Op, reg: Reg): nat { Stores(op, if reg.Some? then reg.v else 0) }

  /** The phase once the operation that is next is done. */
  function Onward(c: Caller): Phase
    requires CanWrite(c)
  {
    var stage := c.phase.stage;
    if c.phase.k + 1 < |Ops(c.q, stage)| then Writing(stage, c.phase.k + 1, None) else After(c.q, stage)
  }

  /** The claim's store is followed by the release of the lock. */
  function StoreIt(s: State, i: nat): State
    requires Enabled(s, StoreWord(i))
  {
    var c := s.callers[i];
    var e := With(s.table[c.q.liodn], Next(c).w, Value(Next(c), c.phase.reg));
    Moved(s, i, Onward(c)).(table := s.table[c.q.liodn := e], holder := if c.phase.stage.Claim? then -1 else s.holder)
  }

  function LoadAt(s: State, i: nat): State
    requires Enabled(s, LoadIndex(i))
  {
    if NextFspi(s.fspi, Count(s.callers[i].q)) > SPAACE_NUMBER_ENTRIES then Moved(s, i, Refused(Invalid, true))
    else Moved(s, i, Loaded(s.fspi))
  }

  function Swap(s: State, i: nat): State
    requires Enabled(s, SwapIndex(i))
  {
    var tmp, count := s.callers[i].phase.tmp, Count(s.callers[i].q);
    if s.fspi != tmp then Moved(s, i, Allocating)
    else Moved(s, i, Writing(Link(tmp), 0, None)).(fspi := NextFspi(tmp, count),
      grants := s.grants + [Grant(i, tmp, count)])
  }

  function Touched(s: State, j: nat, move: Move): State
    requires j < |s.touches|
  {
    s.(touches := s.touches[j := s.touches[j].(move := move)])
  }

  predicate Busied(s: State, n: nat) {
    exists j {:trigger s.touches[j]} :: 0 <= j < |s.touches| && s.touches[j].n == n && s.touches[j].move.Doing?
  }

  /** A call that has found something to store. */
  function Begin(s: State, j: nat): State
    requires j < |s.touches|
  {
    var t := s.touches[j];
    Touched(s, j, Doing(0, None)).(retargeted := if t.kind.Retargeting? then s.retargeted + {t.n} else s.retargeted,
                                   mixed := if Busied(s, t.n) then s.mixed + {t.n} else s.mixed)
  }

  /** pamu_enable_liodn looks at the window's size, pamu_reconfig_liodn at the page in two loads. */
  function LookAt(s: State, j: nat): State
    requires Enabled(s, Look(j))
  {
    var t := s.touches[j];
    if t.n >= |s.table| then Touched(s, j, Over)
    else
      match t.kind
      case Enabling => if Wse(s.table[t.n].addrBitfields) == 0 then Touched(s, j, Over) else Begin(s, j)
      case Disabling => Begin(s, j)
      case Retargeting(rpn) =>
        if t.move.Asked? then Touched(s, j, Looked(s.table[t.n].twbah))
        else if CurrentRpn(s.table[t.n].(twbah := t.move.high)) == rpn then Touched(s, j, Over)
        else Begin(s, j)
  }

  function LoadFor(s: State, j: nat): State
    requires Enabled(s, LoadTouch(j))
  {
    var t := s.touches[j];
    Touched(s, j, t.move.(reg := Some(Word(s.table[t.n], NextTouch(t).w))))
  }

  function Farther(t: Touch): Move
    requires CanTouch(t)
  {
    if t.move.k + 1 < |TouchOps(t.kind)| then Doing(t.move.k + 1, None) else Over
  }

  function StoreFor(s: State, j: nat): State
    requires Enabled(s, StoreTouch(j))
  {
    var t := s.touches[j];
    var e := With(s.table[t.n], NextTouch(t).w, Value(NextTouch(t), t.move.reg));
    Touched(s, j, Farther(t)).(table := s.table[t.n := e])
  }

  ghost function Step1(s: State, step: Step): State
    requires Enabled(s, step)
  {
    match step
    case Call(q) => s.(callers := s.callers + [Caller(q, Started, NO_ENTRY)])
    case TakeEntry(i) => Take(s, i)
    case LoadWord(i) => LoadIt(s, i)
    case StoreWord(i) => StoreIt(s, i)
    case LoadIndex(i) => LoadAt(s, i)
    case SwapIndex(i) => Swap(s, i)
    case Ask(n, kind) => s.(touches := s.touches + [Touch(n, kind, Asked)])
    case Look(j) => LookAt(s, j)
    case LoadTouch(j) => LoadFor(s, j)
    case StoreTouch(j) => StoreFor(s, j)
  }

  const NO_ENTRY := Paace(0, 0, 0, 0, 0, 0, 0, 0, 0)

  // ---- who has an entry ----

  /** It holds the lock, to claim its entry. */
  predicate Claims(c: Caller) {
    c.phase.Writing? && c.phase.stage.Claim?
  }

  /** Its claim is stored. */
  predicate Owns(c: Caller) {
    match c.phase
    case Started => false
    case Writing(stage, _, _) => !stage.Claim?
    case Refused(_, kept) => kept
    case _ => true
  }

  predicate Has(c: Caller, n: nat) {
    (Claims(c) || Owns(c)) && c.q.liodn == n
  }

  ghost predicate SaneCaller(s: State, i: int)
    requires 0 <= i < |s.callers|
  {
    var c := s.callers[i];
    && Fits(c.q) && (Claims(c) || Owns(c) ==> IsWindow(c.q.winAddr, c.q.winSize) && c.q.liodn < |s.table|)
    && (c.phase.Writing? ==> CanWrite(c) && (c.phase.stage.Link? ==> c.q.subwinCnt > 0))
    && (c.phase.Allocating? || c.phase.Loaded? ==> c.q.subwinCnt > 0)
    && (Claims(c) <==> s.holder == i)
  }

  predicate SaneTouch(s: State, t: Touch) {
    t.move.Doing? ==> CanTouch(t) && t.n < |s.table|
  }

  /** Calls go by their programs, and one at a time holds the lock. */
  ghost predicate Sane(s: State) {
    && s.holder < |s.callers|
    && (forall i {:trigger s.callers[i]} :: 0 <= i < |s.callers| ==> SaneCaller(s, i))
    && (forall j {:trigger s.touches[j]} :: 0 <= j < |s.touches| ==> SaneTouch(s, s.touches[j]))
  }

  lemma SaneStep(s: State, t: State, i: nat)
    requires Sane(s) && i < |s.callers| == |t.callers| && |t.table| == |s.table| && t.touches == s.touches
    requires forall j {:trigger t.callers[j]} :: 0 <= j < |s.callers| && j != i ==> t.callers[j] == s.callers[j]
    requires t.holder == s.holder || (s.holder < 0 && t.holder == i) || (s.holder == i && t.holder == -1)
    requires SaneCaller(t, i) && t.holder < |t.callers|
    ensures Sane(t)
  {
    hide Fits, IsWindow, CanWrite, Claims, Owns;
    forall j | 0 <= j < |t.callers| ensures SaneCaller(t, j) {
      if j != i { assert SaneCaller(s, j); }
    }
    forall j | 0 <= j < |t.touches| ensures SaneTouch(t, t.touches[j]) {
      assert SaneTouch(s, s.touches[j]);
    }
  }

  lemma SaneTouchStep(s: State, t: State, j: nat)
    requires Sane(s) && j < |s.touches| == |t.touches| && |t.table| == |s.table| && t.callers == s.callers
    requires forall l {:trigger t.touches[l]} :: 0 <= l < |s.touches| && l != j ==> t.touches[l] == s.touches[l]
    requires t.holder == s.holder && SaneTouch(t, t.touches[j])
    ensures Sane(t)
  {
    hide Fits, IsWindow, CanWrite, Claims, Owns;
    forall i | 0 <= i < |t.callers| ensures SaneCaller(t, i) { assert SaneCaller(s, i); }
    forall l | 0 <= l < |t.touches| ensures SaneTouch(t, t.touches[l]) {
      if l != j { assert SaneTouch(s, s.touches[l]); }
    }
  }

  lemma OpsThere(q: Request)
    requires Fits(q) && IsWindow(q.winAddr, q.winSize)
    ensures |Ops(q, Claim)| == 1 && |Ops(q, Base)| == 4
    ensures forall start {:trigger Link(start)} :: q.subwinCnt > 0 ==> |Ops(q, Link(start))| == 3
    ensures q.subwinCnt == 0 ==> |Ops(q, Fill)| > 0
  {
  }

  /** A phase that a call moves on to is one of its program. */
  lemma AfterSane(c: Caller)
    requires CanWrite(c) && Fits(c.q) && IsWindow(c.q.winAddr, c.q.winSize)
    requires c.phase.stage.Link? ==> c.q.subwinCnt > 0
    ensures var d := c.(phase := Onward(c));
      && (d.phase.Writing? ==> CanWrite(d) && (d.phase.stage.Link? ==> d.q.subwinCnt > 0))
      && (d.phase.Allocating? || d.phase.Loaded? ==> d.q.subwinCnt > 0)
      && Owns(d) && !Claims(d)
  {
    OpsThere(c.q);
    hide Ops, Fits, IsWindow, BadOmi;
  }

  lemma TouchThere(kind: Kind)
    ensures |TouchOps(kind)| > 0
  {
  }

  lemma CallSane(s: State, q: Request)
    requires Sane(s) && Fits(q)
    ensures Sane(s.(callers := s.callers + [Caller(q, Started, NO_ENTRY)]))
  {
    hide Fits, IsWindow, CanWrite;
    var t := s.(callers := s.callers + [Caller(q, Started, NO_ENTRY)]);
    forall i | 0 <= i < |t.callers| ensures SaneCaller(t, i) {
      if i < |s.callers| { assert SaneCaller(s, i); }
    }
    forall l | 0 <= l < |t.touches| ensures SaneTouch(t, t.touches[l]) {
      assert SaneTouch(s, s.touches[l]);
    }
  }

  lemma AskSane(s: State, t: Touch)
    requires Sane(s) && t.move.Asked?
    ensures Sane(s.(touches := s.touches + [t]))
  {
    hide Fits, IsWindow, CanWrite;
    var r := s.(touches := s.touches + [t]);
    forall i | 0 <= i < |r.callers| ensures SaneCaller(r, i) { assert SaneCaller(s, i); }
    forall l | 0 <= l < |r.touches| ensures SaneTouch(r, r.touches[l]) {
      if l < |s.touches| { assert SaneTouch(s, s.touches[l]); }
    }
  }

  lemma TakeSane(s: State, i: nat)
    requires Sane(s) && Enabled(s, TakeEntry(i))
    ensures Sane(Take(s, i))
  {
    hide Fits, IsWindow, Ops, Wse, Sane;
    CallerSane(s, i);
    if IsWindow(s.callers[i].q.winAddr, s.callers[i].q.winSize) { OpsThere(s.callers[i].q); }
    SaneStep(s, Take(s, i), i);
  }

  lemma LoadSane(s: State, i: nat)
    requires Sane(s) && LoadsWord(s, i)
    ensures Sane(LoadIt(s, i))
  {
    hide Fits, IsWindow, Ops, Word, Sane;
    CallerSane(s, i);
    SaneStep(s, LoadIt(s, i), i);
  }

  lemma StoreSane(s: State, i: nat)
    requires Sane(s) && StoresWord(s, i)
    ensures Sane(StoreIt(s, i))
  {
    hide Fits, IsWindow, Ops, With, Value, Sane, Onward;
    CallerSane(s, i);
    AfterSane(s.callers[i]);
    SaneStep(s, StoreIt(s, i), i);
  }

  lemma LoadIndexSane(s: State, i: nat)
    requires Sane(s) && Enabled(s, LoadIndex(i))
    ensures Sane(LoadAt(s, i))
  {
    hide Fits, IsWindow, Ops, NextFspi, Sane;
    CallerSane(s, i);
    SaneStep(s, LoadAt(s, i), i);
  }

  lemma SwapSane(s: State, i: nat)
    requires Sane(s) && Enabled(s, SwapIndex(i))
    ensures Sane(Swap(s, i))
  {
    hide Fits, IsWindow, Ops, NextFspi, Sane;
    CallerSane(s, i);
    OpsThere(s.callers[i].q);
    SaneStep(s, Swap(s, i), i);
  }

  lemma LookSane(s: State, j: nat)
    requires Sane(s) && Enabled(s, Look(j))
    ensures Sane(LookAt(s, j))
  {
    hide TouchOps, Wse, Sane, CurrentRpn, Busied;
    TouchThere(s.touches[j].kind);
    SaneTouchStep(s, LookAt(s, j), j);
  }

  lemma TouchSane(s: State, step: Step)
    requires Sane(s) && Enabled(s, step) && (step.LoadTouch? || step.StoreTouch?)
    ensures Sane(Step1(s, step))
  {
    hide TouchOps, Word, With, Value, Sane;
    SaneTouchStep(s, Step1(s, step), step.j);
  }

  lemma StepSane(s: State, step: Step)
    requires Sane(s) && Enabled(s, step)
    ensures Sane(Step1(s, step))
  {
    hide Fits, Sane, Take, LoadIt, StoreIt, LoadAt, Swap, LookAt, LoadsWord, StoresWord, LoadsTouch, StoresTouch;
    match step
    case Call(q) => CallSane(s, q);
    case TakeEntry(i) => TakeSane(s, i);
    case LoadWord(i) => LoadSane(s, i);
    case StoreWord(i) => StoreSane(s, i);
    case LoadIndex(i) => LoadIndexSane(s, i);
    case SwapIndex(i) => SwapSane(s, i);
    case Ask(n, kind) => AskSane(s, Touch(n, kind, Asked));
    case Look(j) => LookSane(s, j);
    case _ => TouchSane(s, step);
  }

  lemma CallerSane(s: State, i: nat)
    requires Sane(s) && i < |s.callers|
    ensures SaneCaller(s, i) && s.holder < |s.callers|
  {
    var _ := s.callers[i];
  }

  // ---- one owner for each entry ----

  /** Touch t of entry n has loaded the entry's first word when no window was in it, and is going to store it. */
  predicate StaleTouch(t: Touch, n: nat) {
    t.n == n && CanTouch(t) && NextTouch(t).w.Addr? && t.move.reg.Some? && Wse(t.move.reg.v) == 0
  }

  ghost predicate HasStale(s: State, n: nat) {
    exists j {:trigger s.touches[j]} :: 0 <= j < |s.touches| && StaleTouch(s.touches[j], n)
  }

  ghost predicate Owned(s: State, n: nat) {
    exists i {:trigger s.callers[i]} :: 0 <= i < |s.callers| && Owns(s.callers[i]) && s.callers[i].q.liodn == n
  }

  /** An entry is owned, and a call is about to store a word over it that says it is free. */
  ghost predicate Stale(s: State, n: nat) {
    Owned(s, n) && HasStale(s, n)
  }

  /** An owned entry's size is not zero, nor is it in a word its owner has loaded. */
  predicate SizeUp(s: State, n: nat, c: Caller) {
    Owns(c) && c.q.liodn == n ==>
      && n < |s.table| && Wse(s.table[n].addrBitfields) != 0
      && (CanWrite(c) && Next(c).w.Addr? && c.phase.reg.Some? ==> Wse(c.phase.reg.v) != 0)
  }

  ghost predicate OneHas(s: State, n: nat) {
    forall i, j {:trigger s.callers[i], s.callers[j]} ::
      0 <= i < j < |s.callers| && Has(s.callers[i], n) ==> !Has(s.callers[j], n)
  }

  ghost predicate SizesUp(s: State, n: nat) {
    forall i {:trigger s.callers[i]} :: 0 <= i < |s.callers| ==> SizeUp(s, n, s.callers[i])
  }

  ghost predicate OnlyHas(s: State, i: nat, n: nat) {
    forall j {:trigger s.callers[j]} :: 0 <= j < |s.callers| && j != i ==> !Has(s.callers[j], n)
  }

  lemma OnlyThis(s: State, i: nat, n: nat)
    requires OneHas(s, n) && i < |s.callers| && Has(s.callers[i], n)
    ensures OnlyHas(s, i, n)
  {
    hide Has;
    forall j | 0 <= j < |s.callers| && j != i ensures !Has(s.callers[j], n) {
      if j < i { assert s.callers[j] == s.callers[j] && s.callers[i] == s.callers[i]; }
    }
  }

  /** Caller i moves; the entry's size stays up, or nobody else has the entry. */
  lemma OwnerStep(s: State, t: State, i: nat, n: nat)
    requires OneHas(s, n) && SizesUp(s, n) && i < |s.callers| == |t.callers| && |t.table| == |s.table|
    requires forall j {:trigger t.callers[j]} :: 0 <= j < |s.callers| && j != i ==> t.callers[j] == s.callers[j]
    requires t.callers[i].q == s.callers[i].q && (Has(t.callers[i], n) ==> OnlyHas(s, i, n))
    requires OnlyHas(s, i, n) || (n < |s.table| ==>
      (Wse(s.table[n].addrBitfields) != 0 ==> Wse(t.table[n].addrBitfields) != 0))
    requires SizeUp(t, n, t.callers[i])
    ensures OneHas(t, n) && SizesUp(t, n)
  {
    hide Wse, CanWrite, Claims, Ops;
    forall j | 0 <= j < |t.callers| ensures SizeUp(t, n, t.callers[j]) {
      if j != i { assert SizeUp(s, n, s.callers[j]); }
    }
    forall j, k | 0 <= j < k < |t.callers| && Has(t.callers[j], n) ensures !Has(t.callers[k], n) {
      assert s.callers[j] == s.callers[j] && s.callers[k] == s.callers[k];
    }
  }

  /** A touch moves, and does not store a word that is stale. */
  lemma OtherStep(s: State, t: State, n: nat)
    requires OneHas(s, n) && SizesUp(s, n) && t.callers == s.callers && |t.table| == |s.table|
    requires n < |s.table| && Owned(s, n) && Wse(s.table[n].addrBitfields) != 0 ==> Wse(t.table[n].addrBitfields) != 0
    ensures OneHas(t, n) && SizesUp(t, n)
  {
    hide Wse, CanWrite, Ops;
    forall j | 0 <= j < |t.callers| ensures SizeUp(t, n, t.callers[j]) {
      assert SizeUp(s, n, s.callers[j]);
    }
    forall j, k | 0 <= j < k < |t.callers| && Has(t.callers[j], n) ensures !Has(t.callers[k], n) {
      assert s.callers[j] == s.callers[j] && s.callers[k] == s.callers[k];
    }
  }

  lemma SizeOf(s: State, i: nat, n: nat)
    requires SizesUp(s, n) && i < |s.callers|
    ensures SizeUp(s, n, s.callers[i])
  {
    var _ := s.callers[i];
  }

  /** A free entry whose lock is free is nobody's. */
  lemma FreeIsNobodys(s: State, i: nat, n: nat)
    requires Sane(s) && SizesUp(s, n) && i < |s.callers| && s.holder < 0 && n < |s.table|
    requires Wse(s.table[n].addrBitfields) == 0
    ensures OnlyHas(s, i, n)
  {
    hide Wse, CanWrite, Fits, IsWindow, Ops;
    forall j | 0 <= j < |s.callers| && j != i ensures !Has(s.callers[j], n) {
      assert SaneCaller(s, j) && SizeUp(s, n, s.callers[j]);
    }
  }

  lemma TakeOwner(s: State, i: nat, n: nat)
    requires Sane(s) && OneHas(s, n) && SizesUp(s, n) && Enabled(s, TakeEntry(i))
    ensures var t := Take(s, i); OneHas(t, n) && SizesUp(t, n)
  {
    hide Wse, IsWindow, Fits, Sane, OneHas, SizesUp, Ops, OnlyHas;
    var t, q := Take(s, i), s.callers[i].q;
    if t.holder == i && q.liodn == n { FreeIsNobodys(s, i, n); }
    OwnerStep(s, t, i, n);
  }

  lemma LoadOwner(s: State, i: nat, n: nat)
    requires Sane(s) && OneHas(s, n) && SizesUp(s, n) && LoadsWord(s, i)
    ensures var t := LoadIt(s, i); OneHas(t, n) && SizesUp(t, n)
  {
    hide Wse, IsWindow, Fits, Sane, OneHas, SizesUp, Ops, OnlyHas;
    SizeOf(s, i, n);
    if Has(s.callers[i], n) { OnlyThis(s, i, n); }
    OwnerStep(s, LoadIt(s, i), i, n);
  }

  /** What the store of a caller that has the entry leaves in its first word. */
  lemma StoreSize(s: State, i: nat)
    requires StoresWord(s, i) && SaneCaller(s, i) && SizeUp(s, s.callers[i].q.liodn, s.callers[i])
    ensures Wse(StoreIt(s, i).table[s.callers[i].q.liodn].addrBitfields) != 0
  {
    hide Wse, Ops, Fits, IsWindow, Stores, Onward;
    var c := s.callers[i];
    if c.phase.stage.Claim? {
      ClaimIsAddr(c);
      ClaimSize(c);
    } else if Next(c).w.Addr? {
      OpsLeaveWse(c.q, c.phase.stage, c.phase.k);
      OtherSize(c);
    }
    NotAddr(s.table[c.q.liodn], Next(c).w, Value(Next(c), c.phase.reg));
  }

  lemma NotAddr(e: Paace, w: Name, v: nat)
    ensures With(e, w, v).addrBitfields == if w.Addr? then v else e.addrBitfields
  {
  }

  lemma ClaimIsAddr(c: Caller)
    requires CanWrite(c) && c.phase.stage.Claim?
    ensures Next(c).w.Addr? && Next(c).SetField?
  {
  }

  lemma ClaimSize(c: Caller)
    requires CanWrite(c) && c.phase.stage.Claim? && c.phase.reg.Some? && Fits(c.q) && IsWindow(c.q.winAddr, c.q.winSize)
    ensures Wse(Value(Next(c), c.phase.reg)) != 0
  {
    hide Wse, Stores, Fits, IsWindow, SizeToWse;
    WseSet(c.q, c.phase.reg.v);
    assert c.phase.k == 0;
  }

  lemma OtherSize(c: Caller)
    requires CanWrite(c) && !c.phase.stage.Claim? && Next(c).w.Addr? && c.phase.reg.Some? && Wse(c.phase.reg.v) != 0
    ensures Wse(Value(Next(c), c.phase.reg)) != 0
  {
    hide Wse, Stores, Ops;
    OpsLeaveWse(c.q, c.phase.stage, c.phase.k);
    WseLeft(Next(c), c.phase.reg.v);
  }

  lemma StoreOwner(s: State, i: nat, n: nat)
    requires Sane(s) && OneHas(s, n) && SizesUp(s, n) && StoresWord(s, i)
    ensures var t := StoreIt(s, i); OneHas(t, n) && SizesUp(t, n)
  {
    hide Wse, IsWindow, Fits, Sane, OneHas, SizesUp, Ops, OnlyHas, With, Value, Onward;
    var c := s.callers[i];
    CallerSane(s, i);
    SizeOf(s, i, n);
    AfterSane(c);
    OnwardFresh(c);
    if c.q.liodn == n {
      OnlyThis(s, i, n);
      StoreSize(s, i);
    }
    OwnerStep(s, StoreIt(s, i), i, n);
  }

  lemma OnwardFresh(c: Caller)
    requires CanWrite(c)
    ensures Onward(c).Writing? ==> Onward(c).reg.None?
  {
    hide Ops;
  }

  lemma IndexOwner(s: State, step: Step, n: nat)
    requires Sane(s) && OneHas(s, n) && SizesUp(s, n) && Enabled(s, step) && (step.LoadIndex? || step.SwapIndex?)
    ensures var t := Step1(s, step); OneHas(t, n) && SizesUp(t, n)
  {
    hide Wse, IsWindow, Fits, Sane, OneHas, SizesUp, Ops, OnlyHas, NextFspi;
    var i := step.i;
    SizeOf(s, i, n);
    if Has(s.callers[i], n) { OnlyThis(s, i, n); }
    OwnerStep(s, Step1(s, step), i, n);
  }

  lemma LookOwner(s: State, j: nat, n: nat)
    requires OneHas(s, n) && SizesUp(s, n) && Enabled(s, Look(j))
    ensures var t := LookAt(s, j); OneHas(t, n) && SizesUp(t, n)
  {
    hide Wse, OneHas, SizesUp, CurrentRpn, Busied, Owned;
    OtherStep(s, LookAt(s, j), n);
  }

  lemma TouchesLeaveWse(kind: Kind, k: nat)
    requires k < |TouchOps(kind)|
    ensures LeavesWse(TouchOps(kind)[k])
  {
  }

  lemma TouchOwner(s: State, j: nat, n: nat)
    requires OneHas(s, n) && SizesUp(s, n) && StoresTouch(s, j) && !Stale(s, n)
    ensures var t := StoreFor(s, j); OneHas(t, n) && SizesUp(t, n)
  {
    hide Wse, OneHas, SizesUp, Owned, Stores, TouchOps;
    var u := s.touches[j];
    var op := NextTouch(u);
    TouchesLeaveWse(u.kind, u.move.k);
    if op.w.Addr? { WseLeft(op, u.move.reg.v); }
    assert u.n == n && Owned(s, n) ==> !StaleTouch(s.touches[j], n);
    OtherStep(s, StoreFor(s, j), n);
  }

  lemma LoadTouchOwner(s: State, j: nat, n: nat)
    requires OneHas(s, n) && SizesUp(s, n) && LoadsTouch(s, j)
    ensures var t := LoadFor(s, j); OneHas(t, n) && SizesUp(t, n)
  {
    hide Wse, OneHas, SizesUp, Owned, Word, TouchOps;
    OtherStep(s, LoadFor(s, j), n);
  }

  lemma CallOwner(s: State, q: Request, n: nat)
    requires OneHas(s, n) && SizesUp(s, n)
    ensures var t := s.(callers := s.callers + [Caller(q, Started, NO_ENTRY)]); OneHas(t, n) && SizesUp(t, n)
  {
    hide Wse, CanWrite, Ops;
    var t := s.(callers := s.callers + [Caller(q, Started, NO_ENTRY)]);
    forall j | 0 <= j < |t.callers| ensures SizeUp(t, n, t.callers[j]) {
      if j < |s.callers| { assert SizeUp(s, n, s.callers[j]); }
    }
    forall j, k | 0 <= j < k < |t.callers| && Has(t.callers[j], n) ensures !Has(t.callers[k], n) {
      if k < |s.callers| { assert s.callers[j] == s.callers[j] && s.callers[k] == s.callers[k]; }
    }
  }

  /** Until a stale word is about to be stored over an owned entry, every step keeps its owner the only one. */
  lemma StepOwner(s: State, step: Step, n: nat)
    requires Sane(s) && OneHas(s, n) && SizesUp(s, n) && Enabled(s, step) && !Stale(s, n)
    ensures var t := Step1(s, step); OneHas(t, n) && SizesUp(t, n)
  {
    hide Fits, Sane, OneHas, SizesUp, Stale, Take, LoadIt, StoreIt, LookAt, LoadFor, StoreFor;
    hide LoadsWord, StoresWord, LoadsTouch, StoresTouch;
    match step
    case Call(q) => CallOwner(s, q, n);
    case TakeEntry(i) => TakeOwner(s, i, n);
    case LoadWord(i) => LoadOwner(s, i, n);
    case StoreWord(i) => StoreOwner(s, i, n);
    case Ask(_, _) => AskOwner(s, step, n);
    case Look(j) => LookOwner(s, j, n);
    case LoadTouch(j) => LoadTouchOwner(s, j, n);
    case StoreTouch(j) => TouchOwner(s, j, n);
    case _ => IndexOwner(s, step, n);
  }

  lemma AskOwner(s: State, step: Step, n: nat)
    requires OneHas(s, n) && SizesUp(s, n) && step.Ask?
    ensures var t := Step1(s, step); OneHas(t, n) && SizesUp(t, n)
  {
    hide OneHas, SizesUp, Owned;
    OtherStep(s, Step1(s, step), n);
  }

  // ---- runs ----

  /** Nobody calling, no index given out. */
  ghost predicate Initial(s: State) {
    && |s.table| == PAACE_NUMBER_ENTRIES && s.fspi == 0 && s.callers == [] && s.touches == [] && s.grants == []
    && s.holder == -1
  }

  /** t is reached from s by the steps. */
  ghost predicate Run(s: State, steps: seq<Step>, t: State)
    decreases |steps|
  {
    if steps == [] then s == t
    else Enabled(s, steps[0]) && Run(Step1(s, steps[0]), steps[1..], t)
  }

  /** No state on the way, the last one apart, is stale for entry n. */
  ghost predicate NeverStale(s: State, steps: seq<Step>, n: nat)
    decreases |steps|
  {
    steps != [] && Enabled(s, steps[0]) ==> !Stale(s, n) && NeverStale(Step1(s, steps[0]), steps[1..], n)
  }

  lemma Starts(s: State, n: nat)
    requires Initial(s)
    ensures Sane(s) && OneHas(s, n) && SizesUp(s, n)
  {
  }

  lemma {:induction false} RunSane(s: State, steps: seq<Step>, t: State)
    requires Sane(s) && Run(s, steps, t)
    ensures Sane(t)
    decreases |steps|
  {
    hide Sane, Step1, Enabled;
    if steps != [] {
      StepSane(s, steps[0]);
      RunSane(Step1(s, steps[0]), steps[1..], t);
    }
  }

  lemma {:induction false} RunOwner(s: State, steps: seq<Step>, t: State, n: nat)
    requires Sane(s) && OneHas(s, n) && SizesUp(s, n) && Run(s, steps, t) && NeverStale(s, steps, n)
    ensures OneHas(t, n) && SizesUp(t, n)
    decreases |steps|
  {
    hide Sane, OneHas, SizesUp, Stale, Step1, Enabled;
    if steps != [] {
      StepSane(s, steps[0]);
      StepOwner(s, steps[0], n);
      RunOwner(Step1(s, steps[0]), steps[1..], t, n);
    }
  }

  /** In a run in which no stale word of an owned entry n is about to be stored, at most one call ever claims n. */
  lemma AtMostOneClaim(s: State, steps: seq<Step>, t: State, n: nat, i: nat, j: nat)
    requires Initial(s) && Run(s, steps, t) && NeverStale(s, steps, n)
    requires i < |t.callers| && j < |t.callers| && Owns(t.callers[i]) && Owns(t.callers[j])
    requires t.callers[i].q.liodn == n == t.callers[j].q.liodn
    ensures i == j
  {
    hide Initial, Run, NeverStale, Owns, SizesUp, OneHas;
    Starts(s, n);
    RunOwner(s, steps, t, n);
    OneOnly(t, n, i, j);
  }

  lemma OneOnly(s: State, n: nat, i: nat, j: nat)
    requires OneHas(s, n) && i < |s.callers| && j < |s.callers| && Has(s.callers[i], n) && Has(s.callers[j], n)
    ensures i == j
  {
    hide Has;
    var _, _ := s.callers[i], s.callers[j];
  }

  /** A run that is stale for n somewhere, up to there. */
  lemma {:induction false} StaleSomewhere(s: State, steps: seq<Step>, t: State, n: nat) returns (k: nat, u: State)
    requires Run(s, steps, t) && !NeverStale(s, steps, n)
    ensures k < |steps| && Run(s, steps[..k], u) && Stale(u, n)
    decreases |steps|
  {
    hide Stale, Step1, Enabled;
    if Stale(s, n) {
      k, u := 0, s;
    } else {
      var m;
      m, u := StaleSomewhere(Step1(s, steps[0]), steps[1..], t, n);
      k := m + 1;
      assert steps[..k][1..] == steps[1..][..m];
    }
  }

  /** Where two calls own an entry, a stale word of it was about to be stored while one of them did. */
  lemma TwoClaimsStale(s: State, steps: seq<Step>, t: State, n: nat, i: nat, j: nat) returns (k: nat, u: State)
    requires Initial(s) && Run(s, steps, t)
    requires i < |t.callers| && j < |t.callers| && i != j && Owns(t.callers[i]) && Owns(t.callers[j])
    requires t.callers[i].q.liodn == n == t.callers[j].q.liodn
    ensures k < |steps| && Run(s, steps[..k], u) && Stale(u, n)
  {
    hide Initial, Run, NeverStale, Owns, Stale;
    if NeverStale(s, steps, n) { AtMostOneClaim(s, steps, t, n, i, j); }
    k, u := StaleSomewhere(s, steps, t, n);
  }

  // ---- longer runs ----

  lemma {:induction false} RunOn(s: State, steps: seq<Step>, t: State, step: Step)
    requires Run(s, steps, t) && Enabled(t, step)
    ensures Run(s, steps + [step], Step1(t, step))
    decreases |steps|
  {
    hide Step1, Enabled;
    if steps == [] {
      assert [step][1..] == [];
    } else {
      RunOn(Step1(s, steps[0]), steps[1..], t, step);
      assert (steps + [step])[1..] == steps[1..] + [step];
    }
  }

  lemma NoSteps(s: State)
    ensures Run(s, [], s)
  {
  }
}
