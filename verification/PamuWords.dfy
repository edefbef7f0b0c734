/** The words of a PAMU entry and the single stores that pamu.c makes to them: a plain store, or a load and a store
    of a word with one field replaced. */
module PamuWords {
  import opened BitFields
  import opened BinMaps
  import opened PamuTable
  import opened Pamu

  datatype Name = Addr | Impl | Win | Coh | Wbah | Twbah | Snpid | Fspi | Omi

  function Word(e: Paace, w: Name): nat {
    match w
    case Addr => e.addrBitfields
    case Impl => e.implAttr
    case Win => e.winBitfields
    case Coh => e.coherency
    case Wbah => e.wbah
    case Twbah => e.twbah
    case Snpid => e.snpid
    case Fspi => e.fspi
    case Omi => e.omi
  }

  function With(e: Paace, w: Name, v: nat): Paace {
    match w
    case Addr => e.(addrBitfields := v)
    case Impl => e.(implAttr := v)
    case Win => e.(winBitfields := v)
    case Coh => e.(coherency := v)
    case Wbah => e.(wbah := v)
    case Twbah => e.(twbah := v)
    case Snpid => e.(snpid := v)
    case Fspi => e.(fspi := v)
    case Omi => e.(omi := v)
  }

  /** set_bf, a load and a store; or a store alone. */
  datatype Op =
    | SetField(w: Name, f: Field, x: nat)
    | Put(w: Name, x: nat)

  /** What op stores when the load before it gave v. */
  function Stores(op: Op, v: nat): nat {
    if op.Put? then op.x else SetBf(v, op.f, op.x)
  }

  function Do(e: Paace, op: Op): Paace {
    With(e, op.w, Stores(op, Word(e, op.w)))
  }

  /** The operations one after another, nobody else storing. */
  function Exec(e: Paace, ops: seq<Op>): Paace
    decreases |ops|
  {
    if ops == [] then e else Do(Exec(e, ops[..|ops| - 1]), ops[|ops| - 1])
  }

  lemma ExecOne(e: Paace, ops: seq<Op>, op: Op)
    ensures Exec(e, ops + [op]) == Do(Exec(e, ops), op)
  {
    assert (ops + [op])[..|ops|] == ops;
  }

  lemma {:induction false} ExecJoin(e: Paace, xs: seq<Op>, ys: seq<Op>)
    ensures Exec(e, xs + ys) == Exec(Exec(e, xs), ys)
    decreases |ys|
  {
    if ys == [] {
      assert xs + ys == xs;
    } else {
      var front := ys[..|ys| - 1];
      assert xs + ys == (xs + front) + [ys[|ys| - 1]];
      assert ys == front + [ys[|ys| - 1]];
      ExecOne(e, xs + front, ys[|ys| - 1]);
      ExecJoin(e, xs, front);
      ExecOne(Exec(e, xs), front, ys[|ys| - 1]);
    }
  }

  // ---- pamu_config_ppaace ----

  /** The locked store; what comes before the operation mapping is looked at; up to the page, or to the index
      allocator; and the entry's link to its secondary ones. */
  datatype Stage = Claim | Base | Fill | Link(start: nat)

  function BaseOps(q: Request): seq<Op> {
    [SetField(Addr, PT, 0), SetField(Coh, CR, 1), Put(Wbah, q.winAddr / 0x1_0000_0000 % 0x1_0000_0000)]
      + [SetField(Addr, WBAL, q.winAddr / 0x1000)]
  }

  function MapOps(q: Request): seq<Op> {
    if q.omi < OME_NUMBER_ENTRIES then [SetField(Impl, OTM, PAACE_OTM_INDEXED), Put(Omi, q.omi)] else []
  }

  function StashOps(q: Request): seq<Op> {
    if q.stashid != NO_ID then [SetField(Impl, CID, q.stashid)] else []
  }

  function SnoopOps(q: Request): seq<Op> {
    if q.snoopid != NO_ID then [Put(Snpid, q.snoopid % 256)] else []
  }

  function PageOps(rpn: nat): seq<Op> {
    [SetField(Impl, ATM, PAACE_ATM_WINDOW_XLATE), Put(Twbah, rpn / 0x10_0000 % 0x1_0000_0000),
      SetField(Win, TWBAL, rpn),
     SetField(Addr, AP, PAACE_AP_PERMS_ALL)]
  }

  function FillOps(q: Request): seq<Op> {
    MapOps(q) + StashOps(q) + SnoopOps(q) + (if q.subwinCnt == 0 then PageOps(q.rpn) else [])
  }

  function LinkOps(q: Request, start: nat): seq<Op> {
    if q.subwinCnt == 0 then []
    else [SetField(Impl, WCE, CountToWce(q.subwinCnt)), SetField(Addr, MW, 1), Put(Fspi, start)]
  }

  function Ops(q: Request, stage: Stage): seq<Op> {
    match stage
    case Claim => if q.winSize < 0x1000 then [] else [SetField(Addr, WSE, SizeToWse(q.winSize))]
    case Base => BaseOps(q)
    case Fill => FillOps(q)
    case Link(start) => LinkOps(q, start)
  }

  /** The entry when a stage begins, nobody else having stored since it was claimed as e. */
  function Before(e: Paace, q: Request, stage: Stage): Paace
    requires q.winSize >= 0x1000
  {
    match stage
    case Claim => e
    case Base => Claimed(e, SizeToWse(q.winSize))
    case Fill => StoreBase(Claimed(e, SizeToWse(q.winSize)), q)
    case Link(_) => StoreIds(StoreBase(Claimed(e, SizeToWse(q.winSize)), q), q)
  }

  /** And when it ends. */
  function Behind(e: Paace, q: Request, stage: Stage): Paace
    requires q.winSize >= 0x1000 && (stage.Link? ==> q.subwinCnt > 0)
  {
    match stage
    case Claim => Before(e, q, Base)
    case Base => Before(e, q, Fill)
    case Fill => if q.subwinCnt == 0 then StoreDirect(Before(e, q, Link(0)), q) else Before(e, q, Link(0))
    case Link(start) => StoreSplit(Before(e, q, stage), q, start)
  }

  lemma ExecTwo(e: Paace, a: Op, b: Op)
    ensures Exec(e, [a, b]) == Do(Do(e, a), b)
  {
    assert [a, b] == [a] + [b] && [a] == [] + [a];
    ExecOne(e, [], a);
    ExecOne(e, [a], b);
  }

  lemma ExecThree(e: Paace, a: Op, b: Op, c: Op)
    ensures Exec(e, [a, b, c]) == Do(Do(Do(e, a), b), c)
  {
    assert [a, b, c] == [a, b] + [c];
    ExecTwo(e, a, b);
    ExecOne(e, [a, b], c);
  }

  lemma BaseStores(e: Paace, q: Request)
    ensures Exec(e, BaseOps(q)) == StoreBase(e, q)
  {
    hide SetBf, Exec;
    var a, b, c := SetField(Addr, PT, 0), SetField(Coh, CR, 1), Put(Wbah, q.winAddr / 0x1_0000_0000 % 0x1_0000_0000);
    ExecThree(e, a, b, c);
    ExecOne(e, [a, b, c], SetField(Addr, WBAL, q.winAddr / 0x1000));
  }

  lemma PageStores(e: Paace, rpn: nat)
    ensures Exec(e, PageOps(rpn)) == Permitted(Translated(e, rpn), PAACE_AP_PERMS_ALL)
  {
    hide SetBf, Exec;
    var a, b, c := SetField(Impl, ATM, PAACE_ATM_WINDOW_XLATE), Put(Twbah, rpn / 0x10_0000 % 0x1_0000_0000),
      SetField(Win, TWBAL, rpn);
    ExecThree(e, a, b, c);
    assert PageOps(rpn) == [a, b, c] + [SetField(Addr, AP, PAACE_AP_PERMS_ALL)];
    ExecOne(e, [a, b, c], SetField(Addr, AP, PAACE_AP_PERMS_ALL));
  }

  lemma IdsStores(e: Paace, q: Request)
    ensures Exec(e, MapOps(q) + StashOps(q) + SnoopOps(q)) == StoreIds(e, q)
  {
    hide SetBf;
    ExecJoin(e, MapOps(q) + StashOps(q), SnoopOps(q));
    ExecJoin(e, MapOps(q), StashOps(q));
    ExecTwo(e, SetField(Impl, OTM, PAACE_OTM_INDEXED), Put(Omi, q.omi));
    var a := Exec(e, MapOps(q));
    var b := Exec(a, StashOps(q));
    ExecOne(a, [], SetField(Impl, CID, q.stashid));
    ExecOne(b, [], Put(Snpid, q.snoopid % 256));
    assert [SetField(Impl, CID, q.stashid)] == [] + [SetField(Impl, CID, q.stashid)];
    assert [Put(Snpid, q.snoopid % 256)] == [] + [Put(Snpid, q.snoopid % 256)];
  }

  lemma ClaimStores(e: Paace, q: Request)
    requires q.winSize >= 0x1000
    ensures Exec(e, Ops(q, Claim)) == Claimed(e, SizeToWse(q.winSize))
  {
    hide SetBf, SizeToWse;
    assert Ops(q, Claim) == [] + [SetField(Addr, WSE, SizeToWse(q.winSize))];
    ExecOne(e, [], SetField(Addr, WSE, SizeToWse(q.winSize)));
  }

  lemma FillStores(e: Paace, q: Request)
    ensures Exec(e, FillOps(q)) == if q.subwinCnt == 0 then StoreDirect(StoreIds(e, q), q) else StoreIds(e, q)
  {
    hide Exec, MapOps, StashOps, SnoopOps, PageOps, StoreIds, Permitted, Translated;
    IdsStores(e, q);
    ExecJoin(e, MapOps(q) + StashOps(q) + SnoopOps(q), if q.subwinCnt == 0 then PageOps(q.rpn) else []);
    if q.subwinCnt == 0 { PageStores(StoreIds(e, q), q.rpn); } else { ExecNone(StoreIds(e, q)); }
  }

  lemma LinkStores(e: Paace, q: Request, start: nat)
    requires q.subwinCnt > 0
    ensures Exec(e, LinkOps(q, start)) == StoreSplit(e, q, start)
  {
    hide SetBf, CountToWce, Exec;
    ExecThree(e, SetField(Impl, WCE, CountToWce(q.subwinCnt)), SetField(Addr, MW, 1), Put(Fspi, start));
  }

  /** A stage alone turns the entry it began with into the one it ends with. */
  lemma StageStores(e: Paace, q: Request, stage: Stage)
    requires q.winSize >= 0x1000 && (stage.Link? ==> q.subwinCnt > 0)
    ensures Exec(Before(e, q, stage), Ops(q, stage)) == Behind(e, q, stage)
  {
    hide Exec, BaseOps, FillOps, LinkOps, StoreIds, StoreBase, StoreDirect, StoreSplit, Claimed, SizeToWse;
    var b := Before(e, q, stage);
    match stage
    case Claim => ClaimStores(e, q);
    case Base => BaseStores(b, q);
    case Fill => FillStores(b, q);
    case Link(start) => LinkStores(b, q, start);
  }

  lemma ExecNone(e: Paace)
    ensures Exec(e, []) == e
  {
  }

  // ---- pamu_enable_liodn, pamu_disable_liodn and pamu_reconfig_liodn ----

  datatype Kind =
    | Enabling
    | Disabling
    | Retargeting(rpn: nat)

  /** The stores of a call that finds something to do.  Or-ing in the valid bit is setting its field. */
  function TouchOps(kind: Kind): seq<Op> {
    match kind
    case Enabling => [SetField(Addr, V, 1)]
    case Disabling => [SetField(Addr, V, 0)]
    case Retargeting(rpn) => [SetField(Addr, AP, PAACE_AP_PERMS_DENIED)] + PageOps(rpn)
  }

  lemma EnableStores(e: Paace)
    ensures Do(e, SetField(Addr, V, 1)) == e.(addrBitfields := Or(32, e.addrBitfields, 1))
  {
    hide SetBf, Or, Has, Pow2;
    var a, b := Or(32, e.addrBitfields, 1), SetBf(e.addrBitfields, V, 1);
    AddrFields(V);
    forall i: nat | i < 32 ensures Has(a, i) <==> Has(b, i) {
      HasLogic(32, e.addrBitfields, 1, i);
      OneBit(i);
      SetBits(e.addrBitfields, V, 1, i);
    }
    SameBits(32, a, b);
  }

  lemma RetargetStores(e: Paace, rpn: nat)
    ensures Exec(e, TouchOps(Retargeting(rpn)))
      == Permitted(Translated(Permitted(e, PAACE_AP_PERMS_DENIED), rpn), PAACE_AP_PERMS_ALL)
  {
    hide SetBf;
    ExecJoin(e, [SetField(Addr, AP, PAACE_AP_PERMS_DENIED)], PageOps(rpn));
    assert [SetField(Addr, AP, PAACE_AP_PERMS_DENIED)] == [] + [SetField(Addr, AP, PAACE_AP_PERMS_DENIED)];
    ExecOne(e, [], SetField(Addr, AP, PAACE_AP_PERMS_DENIED));
    hide Exec, PageOps;
    PageStores(Permitted(e, PAACE_AP_PERMS_DENIED), rpn);
  }

  /** What they leave in the entry is what pamu_reconfig_liodn leaves there. */
  lemma RetargetMeans(e: Paace, rpn: nat)
    ensures Decode(Exec(e, TouchOps(Retargeting(rpn))))
      == Decode(e).(page := rpn % 0x10_0000_0000_0000, perms := PAACE_AP_PERMS_ALL, xlate := PAACE_ATM_WINDOW_XLATE)
  {
    RetargetStored(e, rpn);
    RetargetStores(e, rpn);
    hide Decode, Exec, TouchOps, Permitted, Translated;
  }

  // ---- what a store by one of these calls leaves alone ----

  /** The words a and b agree on all that pamu_config_ppaace alone stores there. */
  predicate Agree(w: Name, a: nat, b: nat) {
    match w
    case Addr => GetBf(a, WSE) == GetBf(b, WSE) && GetBf(a, WBAL) == GetBf(b, WBAL) && GetBf(a, MW) == GetBf(b, MW)
      && GetBf(a, PT) == GetBf(b, PT)
    case Impl => GetBf(a, CID) == GetBf(b, CID) && GetBf(a, WCE) == GetBf(b, WCE) && GetBf(a, OTM) == GetBf(b, OTM)
    case Win => true
    case Twbah => true
    case _ => a == b
  }

  /** So do all words of two entries. */
  predicate Alike(e: Paace, h: Paace) {
    && Agree(Addr, e.addrBitfields, h.addrBitfields) && Agree(Impl, e.implAttr, h.implAttr)
    && e.coherency == h.coherency && e.wbah == h.wbah && e.snpid == h.snpid && e.fspi == h.fspi && e.omi == h.omi
  }

  /** Then they say the same of everything but validity, permissions, page and translation. */
  lemma AlikeMeans(e: Paace, h: Paace)
    requires Alike(e, h)
    ensures var d := Decode(e);
      d == Decode(h).(valid := d.valid, perms := d.perms, page := d.page, xlate := d.xlate)
  {
    hide GetBf;
  }

  lemma AlikeAgree(e: Paace, h: Paace, w: Name, v: nat)
    requires Alike(e, h) && Agree(w, v, Word(h, w))
    ensures Agree(w, v, Word(e, w))
  {
    hide GetBf;
  }

  predicate IsTouch(op: Op) {
    || op == SetField(Addr, V, 0) || op == SetField(Addr, V, 1)
    || op == SetField(Addr, AP, PAACE_AP_PERMS_DENIED) || op == SetField(Addr, AP, PAACE_AP_PERMS_ALL)
    || op == SetField(Impl, ATM, PAACE_ATM_WINDOW_XLATE)
    || (op.Put? && op.w.Twbah?) || (op.SetField? && op.w.Win? && op.f == TWBAL)
  }

  lemma TouchesAre(kind: Kind, k: nat)
    requires k < |TouchOps(kind)|
    ensures IsTouch(TouchOps(kind)[k])
  {
  }

  lemma TouchAddr(v: nat, f: Field, x: nat)
    requires f == V || f == AP
    ensures Agree(Addr, SetBf(v, f, x), v)
    ensures f == V ==> GetBf(SetBf(v, f, x), AP) == GetBf(v, AP)
    ensures f == AP ==> GetBf(SetBf(v, f, x), AP) == x % 4
  {
    hide SetBf, GetBf, Pow2, IsAddr;
    Listed();
    SmallPowers();
    SetAddrAll(v, f, x);
  }

  lemma TouchImpl(v: nat)
    ensures Agree(Impl, SetBf(v, ATM, PAACE_ATM_WINDOW_XLATE), v)
    ensures GetBf(SetBf(v, ATM, PAACE_ATM_WINDOW_XLATE), ATM) == PAACE_ATM_WINDOW_XLATE
  {
    hide SetBf, GetBf, Pow2, IsImpl;
    Listed();
    SmallPowers();
    SetImplAll(v, ATM, PAACE_ATM_WINDOW_XLATE);
  }

  /** The store of op on top of a loaded v that agrees keeps the entry like it was; and what it does to the rest. */
  lemma TouchKeeps(e: Paace, op: Op, v: nat)
    requires IsTouch(op) && (op.SetField? ==> Agree(op.w, v, Word(e, op.w)))
    ensures var e' := With(e, op.w, Stores(op, v)); var d, d' := Decode(e), Decode(e');
      && Alike(e', e)
      && (op.w.Addr? && op.f == AP ==> d'.perms == op.x)
      && (op.w.Addr? && op.f == V ==> d'.perms == GetBf(v, AP))
      && (!op.w.Addr? ==> d'.perms == d.perms)
      && (op.w.Addr? ==> d'.page == d.page)
      && (if op.w.Impl? then d'.xlate == PAACE_ATM_WINDOW_XLATE else d'.xlate == d.xlate)
  {
    hide SetBf, GetBf;
    if op.w.Addr? { TouchAddr(v, op.f, op.x); }
    if op.w.Impl? { TouchImpl(v); }
  }

  // ---- the window's size, which says that an entry is claimed ----

  function Wse(v: nat): nat { GetBf(v, WSE) }

  /** A store to the first word, but the claim itself, leaves the size that was loaded. */
  predicate LeavesWse(op: Op) {
    op.w.Addr? ==> op.SetField? && (op.f == PT || op.f == WBAL || op.f == MW || op.f == AP || op.f == V)
  }

  lemma OpsLeaveWse(q: Request, stage: Stage, k: nat)
    requires k < |Ops(q, stage)| && !stage.Claim?
    ensures LeavesWse(Ops(q, stage)[k])
  {
    if stage.Fill? {
      var ids := MapOps(q) + StashOps(q) + SnoopOps(q);
      assert forall i {:trigger ids[i]} :: 0 <= i < |ids| ==> LeavesWse(ids[i]) by { IdsLeaveWse(q); }
      if k < |ids| {
        assert FillOps(q)[k] == ids[k];
      } else {
        assert FillOps(q)[k] == PageOps(q.rpn)[k - |ids|];
      }
    }
  }

  lemma IdsLeaveWse(q: Request)
    ensures var ids := MapOps(q) + StashOps(q) + SnoopOps(q);
      forall i {:trigger ids[i]} :: 0 <= i < |ids| ==> LeavesWse(ids[i])
  {
  }

  lemma WseLeft(op: Op, v: nat)
    requires LeavesWse(op) && op.w.Addr?
    ensures Wse(Stores(op, v)) == Wse(v)
  {
    hide SetBf, GetBf, Pow2;
    Listed();
    SetAddr(v, op.f, op.x, WSE);
  }

  lemma WseSet(q: Request, v: nat)
    requires Fits(q) && IsWindow(q.winAddr, q.winSize)
    ensures |Ops(q, Claim)| == 1 && Ops(q, Claim)[0].w.Addr? && Ops(q, Claim)[0].SetField?
    ensures Wse(Stores(Ops(q, Claim)[0], v)) == SizeToWse(q.winSize) > 0
  {
    hide SetBf, GetBf, Pow2, SizeToWse;
    WseMeans(q.winSize);
    Listed();
    SmallPowers();
    SetAddr(v, WSE, SizeToWse(q.winSize), WSE);
  }
}
