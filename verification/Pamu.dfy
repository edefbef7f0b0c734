/** Configuring, enabling and retargeting entries of the PAMU's primary table. */
module Pamu {
  import opened ChunkLayout
  import opened BinMaps
  import opened BinIndex
  import opened Alignments
  import opened BitFields
  import opened PageSizes
  import opened PamuTable
  import RingIndex

  const NO_ID := 0xFFFF_FFFF

  datatype Result = Success | BadTree | NotFound | Busy | Invalid

  /** The arguments of pamu_config_ppaace. */
  datatype Request = Request(liodn: nat, winAddr: nat, winSize: nat, omi: nat, rpn: nat,
                             snoopid: nat, stashid: nat, subwinCnt: nat)

  /** Argument widths, and a window whose size in pages fits the unsigned long whose zeros are counted. */
  predicate Fits(q: Request) {
    && q.winAddr < 0x1_0000_0000_0000_0000 && q.winSize < 0x1_0000_0000_0000_0000 && q.winSize / 0x1000 < SIZE_T_RANGE
    && q.rpn < SIZE_T_RANGE && q.subwinCnt < 0x1_0000_0000 && q.omi <= NO_ID
  }

  // ---- windows ----

  predicate BadSize(winSize: nat)
    requires winSize < 0x1_0000_0000_0000_0000
  {
    And(64, winSize, (winSize - 1) % 0x1_0000_0000_0000_0000) != 0 || winSize < 0x1000
  }

  predicate BadBase(winAddr: nat, winSize: nat)
    requires winSize > 0
  {
    And(64, winAddr, winSize - 1) != 0
  }

  ghost predicate IsWindow(winAddr: nat, winSize: nat) {
    winSize >= 0x1000 && IsPow2(winSize) && winAddr % winSize == 0
  }

  lemma PowFits(k: nat)
    requires Pow2(k) < 0x1_0000_0000_0000_0000
    ensures k < 64
  {
    Pow2Literals();
    hide Pow2;
    if 64 < k { Pow2Mono(64, k); }
  }

  /** The two bit tests accept exactly the aligned windows of a page or more. */
  lemma WindowTest(winAddr: nat, winSize: nat)
    requires winAddr < 0x1_0000_0000_0000_0000 && winSize < 0x1_0000_0000_0000_0000
    ensures !BadSize(winSize) ==> winSize >= 0x1000
    ensures !BadSize(winSize) && !BadBase(winAddr, winSize) <==> IsWindow(winAddr, winSize)
  {
    hide Pow2, And;
    Pow2Literals();
    if winSize >= 0x1000 {
      PowerTest(64, winSize);
      if IsPow2(winSize) {
        var k: nat :| winSize == Pow2(k);
        PowFits(k);
        RingIndex.MaskLow(64, winAddr, k);
      }
    }
  }

  function SizeToWse(winSize: nat): nat
    requires winSize >= 0x1000
  {
    TrailingZeros(winSize / 0x1000) + 12 - 1
  }

  lemma {:induction false} PowZeros(k: nat)
    ensures TrailingZeros(Pow2(k)) == k
  {
    if k > 0 { PowZeros(k - 1); }
  }

  /** 2^(WSE+1) is the window's size, and WSE fits its field without ever being the zero of a free entry. */
  lemma WseMeans(winSize: nat)
    requires 0x1000 <= winSize < 0x1_0000_0000_0000_0000 && IsPow2(winSize)
    ensures 0 < SizeToWse(winSize) < 64 && Pow2(SizeToWse(winSize) + 1) == winSize
  {
    hide Pow2;
    SmallPowers();
    var k: nat :| winSize == Pow2(k);
    if k < 12 { Pow2Mono(k, 12); }
    PowFits(k);
    Pow2Add(12, k - 12);
    DivExact(Pow2(k - 12));
    PowZeros(k - 12);
  }

  lemma DivExact(x: int)
    ensures 0x1000 * x / 0x1000 == x
  {
  }

  // ---- window counts ----

  /** map_subwindow_cnt_to_wce: an unsigned result, so that one subwindow gives all ones. */
  function CountToWce(subwinCnt: nat): nat
    requires subwinCnt > 0
  {
    (TrailingZeros(subwinCnt) - 1) % 0x1_0000_0000
  }

  /** The count an entry's WCE field stands for. */
  function WindowCount(d: Entry): nat { Pow2(d.wce + 1) }

  lemma {:induction false} OddPart(x: nat)
    requires x > 0
    ensures Pow2(TrailingZeros(x)) <= x
    ensures IsPow2(x) <==> x == Pow2(TrailingZeros(x))
  {
    if x % 2 == 0 {
      OddPart(x / 2);
      assert Pow2(TrailingZeros(x)) == 2 * Pow2(TrailingZeros(x / 2));
      if IsPow2(x) {
        var k: nat :| x == Pow2(k);
        assert k > 0;
        assert x / 2 == Pow2(k - 1);
      }
      if x == Pow2(TrailingZeros(x)) { assert IsPow2(x); }
    } else {
      assert Pow2(0) == 1;
      if IsPow2(x) {
        var k: nat :| x == Pow2(k);
        assert k == 0;
      }
    }
  }

  lemma Pow2Injective(a: nat, b: nat)
    requires Pow2(a) == Pow2(b)
    ensures a == b
  {
    if a < b { Pow2Mono(a, b); } else if b < a { Pow2Mono(b, a); }
  }

  lemma ZerosBound(x: nat)
    requires 0 < x < 0x1_0000_0000
    ensures TrailingZeros(x) < 32
  {
    OddPart(x);
    SmallPowers();
    hide Pow2, TrailingZeros;
    if 32 < TrailingZeros(x) { Pow2Mono(32, TrailingZeros(x)); }
  }

  lemma WceOf(t: nat)
    requires t < 32
    ensures (t - 1) % 0x1_0000_0000 % 16 + 1 == if t == 0 then 16 else if t <= 16 then t else t - 16
  {
  }

  lemma PowRange(t: nat)
    ensures 2 <= Pow2(t) <= 0x10000 <==> 1 <= t <= 16
  {
    SmallPowers();
    hide Pow2;
    if 16 < t { Pow2Mono(16, t); }
    if 1 < t { Pow2Mono(1, t); }
    if t < 16 { Pow2Mono(t, 16); }
  }

  /** The stored count is right exactly for the powers of two from 2 to 2^16. */
  lemma CountRight(d: Entry, subwinCnt: nat)
    requires 0 < subwinCnt < 0x1_0000_0000 && d.wce == CountToWce(subwinCnt) % 16
    ensures WindowCount(d) == subwinCnt <==> IsPow2(subwinCnt) && 2 <= subwinCnt <= 0x10000
  {
    hide Pow2, TrailingZeros, IsPow2;
    var t := TrailingZeros(subwinCnt);
    ZerosBound(subwinCnt);
    OddPart(subwinCnt);
    WceOf(t);
    PowRange(t);
    if WindowCount(d) == subwinCnt {
      PowIsPow2(d.wce + 1);
      Pow2Injective(d.wce + 1, t);
    }
  }

  /** One subwindow is stored as 2^16. */
  lemma OneCountWrong(d: Entry, subwinCnt: nat)
    requires subwinCnt == 1 && d.wce == CountToWce(subwinCnt) % 16
    ensures WindowCount(d) == 0x10000
  {
    SmallPowers();
  }

  lemma PowIsPow2(k: nat)
    ensures IsPow2(Pow2(k))
  {
  }

  // ---- what a configured entry says ----

  predicate BadOmi(omi: nat) { OME_NUMBER_ENTRIES <= omi && omi != NO_ID }

  function Windowing(d: Entry, q: Request): Entry
    requires q.winSize >= 0x1000
  {
    d.(wse := SizeToWse(q.winSize), base := q.winAddr, primary := 0, coherent := 1)
  }

  function Identified(d: Entry, q: Request): Entry {
    var a := if q.omi < OME_NUMBER_ENTRIES then d.(otm := PAACE_OTM_INDEXED, omi := q.omi) else d;
    var b := if q.stashid != NO_ID then a.(stash := q.stashid % 256) else a;
    if q.snoopid != NO_ID then b.(snoop := q.snoopid % 256) else b
  }

  function Direct(d: Entry, q: Request): Entry {
    d.(xlate := PAACE_ATM_WINDOW_XLATE, page := PageOf(q.rpn), perms := PAACE_AP_PERMS_ALL)
  }

  function Split(d: Entry, q: Request, fspi: nat): Entry
    requires q.subwinCnt > 0
  {
    d.(wce := CountToWce(q.subwinCnt) % 16, multi := 1, fspi := fspi)
  }

  /** What pamu_config_ppaace stores once it holds the entry, up to the operation mapping check. */
  function StoreBase(e: Paace, q: Request): Paace { Based(ToHost(e), q.winAddr) }

  function StoreIds(e: Paace, q: Request): Paace {
    var a := if q.omi < OME_NUMBER_ENTRIES then Mapped(e, q.omi) else e;
    var b := if q.stashid != NO_ID then Stashed(a, q.stashid) else a;
    if q.snoopid != NO_ID then Snooped(b, q.snoopid) else b
  }

  function StoreDirect(e: Paace, q: Request): Paace {
    Permitted(Translated(e, q.rpn), PAACE_AP_PERMS_ALL)
  }

  function StoreSplit(e: Paace, q: Request, fspi: nat): Paace
    requires q.subwinCnt > 0
  {
    Windowed(e, CountToWce(q.subwinCnt), fspi)
  }

  lemma AlignedBase(winAddr: nat, winSize: nat)
    requires IsWindow(winAddr, winSize)
    ensures PageBase(winAddr) == winAddr
  {
    SmallPowers();
    hide Pow2;
    assert IsPow2(0x1000) by { assert 0x1000 == Pow2(12); }
    MultipleOfLess(winAddr, winSize, 0x1000);
  }

  lemma BaseStored(e: Paace, q: Request)
    requires Fits(q) && IsWindow(q.winAddr, q.winSize)
    ensures Decode(StoreBase(e, q)) == Decode(e).(base := q.winAddr, primary := 0, coherent := 1)
  {
    hide Decode, ToHost, Based, IsWindow, PageBase;
    AlignedBase(q.winAddr, q.winSize);
    ToHostMeans(e);
    BasedMeans(ToHost(e), q.winAddr);
  }

  lemma WindowStored(e: Paace, q: Request)
    requires Fits(q) && IsWindow(q.winAddr, q.winSize)
    ensures 0 < SizeToWse(q.winSize) < 64
    ensures Decode(Claimed(e, SizeToWse(q.winSize))) == Decode(e).(wse := SizeToWse(q.winSize))
    ensures Decode(StoreBase(Claimed(e, SizeToWse(q.winSize)), q)) == Windowing(Decode(e), q)
  {
    WseMeans(q.winSize);
    ClaimedMeans(e, SizeToWse(q.winSize));
    BaseStored(Claimed(e, SizeToWse(q.winSize)), q);
    hide Decode, Claimed, StoreBase, IsPow2, SizeToWse, BinMaps.Pow2;
  }

  lemma IdsStored(e: Paace, q: Request)
    ensures Decode(StoreIds(e, q)) == Identified(Decode(e), q)
  {
    hide Mapped, Stashed, Decode;
    MappedMeans(e, q.omi);
    var a := if q.omi < OME_NUMBER_ENTRIES then Mapped(e, q.omi) else e;
    StashedMeans(a, q.stashid);
    var b := if q.stashid != NO_ID then Stashed(a, q.stashid) else a;
    SnoopedMeans(b, q.snoopid);
  }

  lemma DirectStored(e: Paace, q: Request)
    ensures Decode(StoreDirect(e, q)) == Direct(Decode(e), q)
  {
    hide Translated, Permitted, Decode, PageOf;
    TranslatedMeans(e, q.rpn);
    PermittedMeans(Translated(e, q.rpn), PAACE_AP_PERMS_ALL);
  }

  lemma SplitStored(e: Paace, q: Request, fspi: nat)
    requires q.subwinCnt > 0
    ensures Decode(StoreSplit(e, q, fspi)) == Split(Decode(e), q, fspi)
  {
    hide Decode, Windowed, CountToWce;
    WindowedMeans(e, CountToWce(q.subwinCnt), fspi);
  }

  /** The sum the allocator tests and stores, in an unsigned long. */
  function NextFspi(fspi: nat, count: nat): nat { (fspi + count) % SIZE_T_RANGE }

  /** The outcome of a call that got the entry: the result, what the entry then says, and the allocator. */
  datatype Outcome = Outcome(result: Result, entry: Entry, fspi: nat)

  /** A refused call keeps the entry it claimed. */
  function Configured(d: Entry, fspi: nat, q: Request): Outcome
    requires q.winSize >= 0x1000
  {
    var w := Windowing(d, q);
    var i := Identified(w, q);
    if BadOmi(q.omi) then
      Outcome(BadTree, w, fspi)
    else if q.subwinCnt == 0 then
      Outcome(Success, Direct(i, q), fspi)
    else if NextFspi(fspi, q.subwinCnt - 1) > SPAACE_NUMBER_ENTRIES then
      Outcome(Invalid, i, fspi)
    else
      Outcome(Success, Split(i, q, fspi), NextFspi(fspi, q.subwinCnt - 1))
  }

  /** A configured entry reads back as the window that was asked for, and never as a free one; the page
      number survives exactly when it fits the 52 bits an entry has for it. */
  lemma ConfiguredReads(d: Entry, fspi: nat, q: Request)
    requires Fits(q) && IsWindow(q.winAddr, q.winSize)
    ensures var e := Configured(d, fspi, q).entry;
      e.wse != 0 && Pow2(e.wse + 1) == q.winSize && e.base == q.winAddr
    ensures Configured(d, fspi, q).result == Success && q.subwinCnt == 0 ==>
      var e := Configured(d, fspi, q).entry;
      (e.page == q.rpn <==> q.rpn < 0x10_0000_0000_0000) && e.xlate == PAACE_ATM_WINDOW_XLATE
        && e.perms == PAACE_AP_PERMS_ALL
    ensures Configured(d, fspi, q).result == Success && q.subwinCnt > 0 ==>
      var e := Configured(d, fspi, q).entry;
      e.fspi == fspi && (WindowCount(e) == q.subwinCnt <==> IsPow2(q.subwinCnt) && 2 <= q.subwinCnt <= 0x10000)
  {
    hide Pow2, SizeToWse, CountToWce, IsPow2;
    WseMeans(q.winSize);
    if q.subwinCnt > 0 { CountRight(Configured(d, fspi, q).entry.(wce := CountToWce(q.subwinCnt) % 16), q.subwinCnt); }
  }

  /** The sum that the index allocator would store is past the table. */
  predicate TooMany(fspi: nat, q: Request) {
    q.subwinCnt > 0 && (fspi + q.subwinCnt - 1) % SIZE_T_RANGE > SPAACE_NUMBER_ENTRIES
  }

  /** The result of a call that got its entry, and the fields it stores besides the window: an operation mapping index
      that is neither one of the table's nor the one for none is refused before anything else is stored; the index
      allocator comes after the identifiers, and moves only for a call that succeeds. */
  lemma ConfiguredSays(d: Entry, fspi: nat, q: Request)
    requires q.winSize >= 0x1000
    ensures var o := Configured(d, fspi, q); var bad := 16 <= q.omi && q.omi != 0xFFFF_FFFF;
      && o.result == (if bad then BadTree else if TooMany(fspi, q) then Invalid else Success)
      && o.fspi == (if o.result.Success? && q.subwinCnt > 0 then (fspi + q.subwinCnt - 1) % SIZE_T_RANGE else fspi)
      && o.entry.valid == d.valid && o.entry.primary == 0 && o.entry.coherent == 1
      && (o.entry.otm, o.entry.omi) == (if q.omi < 16 then (PAACE_OTM_INDEXED, q.omi) else (d.otm, d.omi))
      && o.entry.stash == (if bad || q.stashid == 0xFFFF_FFFF then d.stash else q.stashid % 256)
      && o.entry.snoop == (if bad || q.snoopid == 0xFFFF_FFFF then d.snoop else q.snoopid % 256)
      && (!(o.result.Success? && q.subwinCnt == 0) ==>
            o.entry.page == d.page && o.entry.xlate == d.xlate && o.entry.perms == d.perms)
      && (o.entry.multi, o.entry.fspi) ==
           (if o.result.Success? && q.subwinCnt > 0 then (1, fspi) else (d.multi, d.fspi))
      && (!(o.result.Success? && q.subwinCnt > 0) ==> o.entry.wce == d.wce)
  {
    hide SizeToWse, CountToWce;
  }

  /** Or-ing in the valid bit sets that field. */
  lemma ValidBitSet(e: Paace)
    ensures Decode(e.(addrBitfields := Or(32, e.addrBitfields, 1))) == Decode(e).(valid := 1)
  {
    hide GetBf, SetBf, Or, Has, Pow2;
    ValidatedMeans(e, 1);
    var a, b := Or(32, e.addrBitfields, 1), SetBf(e.addrBitfields, V, 1);
    AddrFields(V);
    forall i: nat | i < 32 ensures Has(a, i) <==> Has(b, i) {
      HasLogic(32, e.addrBitfields, 1, i);
      OneBit(i);
      SetBits(e.addrBitfields, V, 1, i);
    }
    SameBits(32, a, b);
  }

  /** Whatever comes of a call that got its entry, the entry is no longer free. */
  lemma ConfiguredClaims(d: Entry, fspi: nat, q: Request)
    requires Fits(q) && IsWindow(q.winAddr, q.winSize)
    ensures q.winSize >= 0x1000 && Configured(d, fspi, q).entry.wse != 0
  {
    hide Pow2, SizeToWse, CountToWce, IsPow2;
    WseMeans(q.winSize);
  }

  // ---- changing the page of a configured entry ----

  /** pamu_reconfig_liodn's idea of the current page: a 32-bit word. */
  function CurrentRpn(e: Paace): nat {
    Or(32, Shl(32, e.twbah, 20), GetBf(e.winBitfields, TWBAL))
  }

  lemma TwbalBound(v: nat)
    ensures GetBf(v, TWBAL) < 0x10_0000
  {
    OtherFields(TWBAL);
    SmallPowers();
    hide GetBf, Pow2, IsField, Has;
    var x := GetBf(v, TWBAL);
    GetBound(v, TWBAL);
    ModWord(x, 20);
    forall i: nat | i < 32 ensures Has(x, i) <==> Has(x % Pow2(20), i) {
      GetBits(v, TWBAL, i);
      ModBits(x, 20, i);
    }
    SameBits(32, x, x % Pow2(20));
  }

  lemma ShiftWord(x: nat)
    ensures x * 0x10_0000 % 0x1_0000_0000 == x % 0x1000 * 0x10_0000
  {
  }

  /** It is the entry's page number cut to 32 bits. */
  lemma CurrentIsLow(e: Paace)
    ensures CurrentRpn(e) == Decode(e).page % 0x1_0000_0000
  {
    SmallPowers();
    hide Pow2, GetBf, Or;
    var t := GetBf(e.winBitfields, TWBAL);
    TwbalBound(e.winBitfields);
    ShiftWord(e.twbah);
    OrIsSum(32, e.twbah % 0x1000, 20, t);
    LowWord(e.twbah, t);
  }

  lemma LowWord(x: nat, t: nat)
    requires t < 0x10_0000
    ensures x % 0x1000 * 0x10_0000 + t == (x * 0x10_0000 + t) % 0x1_0000_0000
  {
    var q, r := x / 0x1000, x % 0x1000;
    assert x * 0x10_0000 + t == 0x1_0000_0000 * q + (r * 0x10_0000 + t);
    ModUnique(x * 0x10_0000 + t, 0x1_0000_0000, q, r * 0x10_0000 + t);
  }

  function Retargeted(d: Entry, rpn: nat): Entry {
    if d.page % 0x1_0000_0000 == rpn then d
    else d.(xlate := PAACE_ATM_WINDOW_XLATE, page := PageOf(rpn), perms := PAACE_AP_PERMS_ALL)
  }

  /** The entry ends up on the page asked for, unless the page has more than 52 bits or the entry is on a
      page past 2^32 whose low word is the one asked for. */
  lemma RetargetedRight(d: Entry, rpn: nat)
    ensures Retargeted(d, rpn).page == rpn <==>
      rpn < 0x10_0000_0000_0000 && !(d.page >= 0x1_0000_0000 && d.page % 0x1_0000_0000 == rpn)
  {
  }

  /** An entry on page 2^32 + 5 stays there when it is to move to page 5. */
  lemma RetargetMissed(d: Entry)
    requires d.page == 0x1_0000_0005
    ensures Retargeted(d, 5) == d && Retargeted(d, 5).page != 5
  {
  }

  lemma RetargetStored(e: Paace, rpn: nat)
    ensures Decode(Permitted(Translated(Permitted(e, PAACE_AP_PERMS_DENIED), rpn), PAACE_AP_PERMS_ALL))
         == Decode(e).(xlate := PAACE_ATM_WINDOW_XLATE, page := PageOf(rpn), perms := PAACE_AP_PERMS_ALL)
  {
    hide Translated, Permitted, Decode, PageOf;
    var c := Permitted(e, PAACE_AP_PERMS_DENIED);
    PermittedMeans(e, PAACE_AP_PERMS_DENIED);
    TranslatedMeans(c, rpn);
    PermittedMeans(Translated(c, rpn), PAACE_AP_PERMS_ALL);
  }

  // ---- the module's state ----

  class Tables {
    var ppaact: array?<Paace>
    var pamuFspi: nat

    ghost predicate Valid()
      reads this
    {
      (ppaact != null ==> ppaact.Length == PAACE_NUMBER_ENTRIES) && pamuFspi <= SPAACE_NUMBER_ENTRIES
    }

    ghost function Words(): set<object>
      reads this
    {
      if ppaact == null then {} else {ppaact}
    }

    /** pamu_get_ppaace. */
    predicate Exists(liodn: nat)
      requires Valid()
      reads this
    {
      ppaact != null && liodn < PAACE_NUMBER_ENTRIES
    }

    function At(liodn: nat): Entry
      requires Valid() && Exists(liodn)
      reads this, Words()
    {
      Decode(ppaact[liodn])
    }

    /** Every entry but one is as it was. */
    twostate predicate OthersKept(liodn: nat)
      reads this, Words()
    {
      && ppaact == old(ppaact)
      && (ppaact != null ==> forall i :: 0 <= i < ppaact.Length && i != liodn ==> ppaact[i] == old(ppaact[i]))
    }

    twostate predicate AllKept()
      reads this, Words()
    {
      ppaact == old(ppaact) && (ppaact != null ==> ppaact[..] == old(ppaact[..]))
    }

    method CompareAndSwap(was: nat, now: nat) returns (ok: bool)
      modifies this`pamuFspi
      ensures ok <==> old(pamuFspi) == was
      ensures pamuFspi == if ok then now else old(pamuFspi)
    {
      ok := pamuFspi == was;
      if ok { pamuFspi := now; }
    }

    /** None stands for ULONG_MAX. */
    method GetFspiAndAllocate(count: nat) returns (start: int)
      requires Valid()
      modifies this`pamuFspi
      ensures start == if NextFspi(old(pamuFspi), count) > SPAACE_NUMBER_ENTRIES then -1 else old(pamuFspi)
      ensures pamuFspi == if start == -1 then old(pamuFspi) else NextFspi(old(pamuFspi), count)
    {
      var tmp := pamuFspi;
      var swapped := false;
      while !swapped
        invariant tmp == old(pamuFspi)
        invariant pamuFspi == if swapped then NextFspi(tmp, count) else tmp
        invariant swapped ==> NextFspi(tmp, count) <= SPAACE_NUMBER_ENTRIES
        decreases !swapped
      {
        tmp := pamuFspi;
        if NextFspi(tmp, count) > SPAACE_NUMBER_ENTRIES { return -1; }
        swapped := CompareAndSwap(tmp, NextFspi(tmp, count));
      }
      start := tmp;
    }

    /** pamu_config_ppaace up to the release of the lock. */
    method Claim(q: Request) returns (r: Result)
      requires Valid() && Fits(q)
      modifies Words()
      ensures Valid() && pamuFspi == old(pamuFspi)
      ensures !IsWindow(q.winAddr, q.winSize) ==> r == BadTree
      ensures IsWindow(q.winAddr, q.winSize) && !Exists(q.liodn) ==> r == NotFound
      ensures IsWindow(q.winAddr, q.winSize) && Exists(q.liodn) ==> r == if old(At(q.liodn)).wse != 0 then Busy
        else Success
      ensures r != Success ==> AllKept()
      ensures r == Success ==>
        OthersKept(q.liodn) && ppaact[q.liodn] == Claimed(old(ppaact[q.liodn]), SizeToWse(q.winSize))
    {
      hide IsWindow, BadSize, BadBase, SizeToWse, Claimed, SetBf, GetBf;
      WindowTest(q.winAddr, q.winSize);
      if BadSize(q.winSize) { return BadTree; }
      if BadBase(q.winAddr, q.winSize) { return BadTree; }
      if !Exists(q.liodn) { return NotFound; }
      if GetBf(ppaact[q.liodn].addrBitfields, WSE) != 0 { return Busy; }
      ppaact[q.liodn] := Claimed(ppaact[q.liodn], SizeToWse(q.winSize));
      return Success;
    }

    method ConfigPpaace(q: Request) returns (r: Result)
      requires Valid() && Fits(q)
      modifies this`pamuFspi, Words()
      ensures Valid()
      ensures !IsWindow(q.winAddr, q.winSize) ==> r == BadTree && AllKept() && pamuFspi == old(pamuFspi)
      ensures IsWindow(q.winAddr, q.winSize) && !old(Exists(q.liodn)) ==>
        r == NotFound && AllKept() && pamuFspi == old(pamuFspi)
      ensures IsWindow(q.winAddr, q.winSize) && old(Exists(q.liodn)) ==>
        if old(At(q.liodn)).wse != 0 then
          r == Busy && AllKept() && pamuFspi == old(pamuFspi)
        else
          && OthersKept(q.liodn)
          && Outcome(r, At(q.liodn), pamuFspi) == Configured(old(At(q.liodn)), old(pamuFspi), q)
          && At(q.liodn).wse != 0 && !AllKept()
          && r == (if 16 <= q.omi && q.omi != 0xFFFF_FFFF then BadTree
                   else if TooMany(old(pamuFspi), q) then Invalid else Success)
    {
      hide IsWindow, SizeToWse, Claimed, Decode, StoreBase, StoreIds, StoreDirect, StoreSplit, Windowing, Identified,
        Direct, Split, SizeToWse;
      r := Claim(q);
      if r != Success { return; }
      ghost var e := old(ppaact[q.liodn]);
      ConfiguredClaims(Decode(e), pamuFspi, q);
      ConfiguredSays(Decode(e), pamuFspi, q);
      WindowStored(e, q);
      ppaact[q.liodn] := StoreBase(ppaact[q.liodn], q);
      if BadOmi(q.omi) { return BadTree; }
      IdsStored(ppaact[q.liodn], q);
      ppaact[q.liodn] := StoreIds(ppaact[q.liodn], q);
      if q.subwinCnt > 0 {
        var start := GetFspiAndAllocate(q.subwinCnt - 1);
        if start == -1 { return Invalid; }
        SplitStored(ppaact[q.liodn], q, start);
        ppaact[q.liodn] := StoreSplit(ppaact[q.liodn], q, start);
      } else {
        DirectStored(ppaact[q.liodn], q);
        ppaact[q.liodn] := StoreDirect(ppaact[q.liodn], q);
      }
      return Success;
    }

    method EnableLiodn(liodn: nat) returns (r: Result)
      requires Valid()
      modifies Words()
      ensures Valid() && pamuFspi == old(pamuFspi)
      ensures !Exists(liodn) ==> r == NotFound
      ensures Exists(liodn) ==> r == if old(At(liodn)).wse == 0 then Invalid else Success
      ensures r != Success ==> AllKept()
      ensures r == Success ==> OthersKept(liodn) && At(liodn) == old(At(liodn)).(valid := 1)
    {
      hide GetBf;
      if !Exists(liodn) { return NotFound; }
      if GetBf(ppaact[liodn].addrBitfields, WSE) == 0 { return Invalid; }
      ghost var e := ppaact[liodn];
      ppaact[liodn] := ppaact[liodn].(addrBitfields := Or(32, ppaact[liodn].addrBitfields, 1));
      ValidBitSet(e);
      return Success;
    }

    method DisableLiodn(liodn: nat) returns (r: Result)
      requires Valid()
      modifies Words()
      ensures Valid() && pamuFspi == old(pamuFspi)
      ensures !Exists(liodn) ==> r == NotFound && AllKept()
      ensures Exists(liodn) ==> r == Success && OthersKept(liodn) && At(liodn) == old(At(liodn)).(valid := 0)
    {
      hide Decode, Validated;
      if !Exists(liodn) { return NotFound; }
      ValidatedMeans(ppaact[liodn], 0);
      ppaact[liodn] := Validated(ppaact[liodn], 0);
      return Success;
    }

    method ReconfigLiodn(liodn: nat, rpn: nat) returns (r: Result)
      requires Valid() && rpn < SIZE_T_RANGE
      modifies Words()
      ensures Valid() && pamuFspi == old(pamuFspi)
      ensures !Exists(liodn) ==> r == NotFound && AllKept()
      ensures Exists(liodn) ==> r == Success && OthersKept(liodn) && At(liodn) == Retargeted(old(At(liodn)), rpn)
      ensures Exists(liodn) && old(At(liodn)).page % 0x1_0000_0000 == rpn ==> AllKept()
      ensures Exists(liodn) && old(At(liodn)).page % 0x1_0000_0000 != rpn ==>
        At(liodn) == old(At(liodn)).(page := rpn % 0x10_0000_0000_0000, perms := PAACE_AP_PERMS_ALL,
                                     xlate := PAACE_ATM_WINDOW_XLATE)
    {
      hide Decode, Permitted, Translated, CurrentRpn;
      if !Exists(liodn) { return NotFound; }
      CurrentIsLow(ppaact[liodn]);
      if CurrentRpn(ppaact[liodn]) != rpn {
        RetargetStored(ppaact[liodn], rpn);
        ppaact[liodn] := Permitted(ppaact[liodn], PAACE_AP_PERMS_DENIED);
        ppaact[liodn] := Translated(ppaact[liodn], rpn);
        ppaact[liodn] := Permitted(ppaact[liodn], PAACE_AP_PERMS_ALL);
      }
      return Success;
    }
  }

  // ---- an entry once claimed ----

  datatype Later =
    | Configure(q: Request)
    | Enable(liodn: nat)
    | Disable(liodn: nat)
    | Retarget(liodn: nat, rpn: nat)

  predicate Proper(c: Later) {
    match c
    case Configure(q) => Fits(q)
    case Retarget(_, rpn) => rpn < SIZE_T_RANGE
    case _ => true
  }

  method Apply(t: Tables, c: Later)
    requires t.Valid() && Proper(c)
    modifies t`pamuFspi, t.Words()
    ensures t.Valid() && t.ppaact == old(t.ppaact)
    ensures forall n :: t.Exists(n) && old(t.At(n)).wse != 0 ==> t.At(n).wse != 0
  {
    hide Decode, IsWindow, Configured;
    var r;
    match c
    case Configure(q) => r := t.ConfigPpaace(q);
    case Enable(n) => r := t.EnableLiodn(n);
    case Disable(n) => r := t.DisableLiodn(n);
    case Retarget(n, rpn) => r := t.ReconfigLiodn(n, rpn);
  }

  /** A call that finds its window good and its entry free claims the entry for good, refused or not: after any
      calls, the next one for the same LIODN finds it busy. */
  method ClaimedForGood(t: Tables, q: Request, calls: seq<Later>, again: Request) returns (first: Result, r: Result)
    requires t.Valid() && Fits(q) && IsWindow(q.winAddr, q.winSize) && t.Exists(q.liodn) && t.At(q.liodn).wse == 0
    requires (forall c :: c in calls ==> Proper(c)) && Fits(again) && IsWindow(again.winAddr, again.winSize)
      && again.liodn == q.liodn
    modifies t`pamuFspi, t.Words()
    ensures first == Configured(old(t.At(q.liodn)), old(t.pamuFspi), q).result && r == Busy
  {
    hide Decode, IsWindow, Configured, Proper;
    first := t.ConfigPpaace(q);
    for i := 0 to |calls|
      invariant t.Valid() && t.ppaact == old(t.ppaact) && t.Exists(q.liodn) && t.At(q.liodn).wse != 0
    {
      Apply(t, calls[i]);
    }
    r := t.ConfigPpaace(again);
  }
}
