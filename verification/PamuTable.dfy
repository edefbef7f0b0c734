/** Entries of the PAMU's primary table: the packed words, and the record they stand for. */
module PamuTable {
  import opened BinMaps
  import opened BinIndex
  import opened BitFields

  const PAACE_NUMBER_ENTRIES := 0x500
  const SPAACE_NUMBER_ENTRIES := 0x8000
  const OME_NUMBER_ENTRIES := 16
  const PAACE_AP_PERMS_ALL := 3
  const PAACE_AP_PERMS_DENIED := 0
  const PAACE_ATM_WINDOW_XLATE := 1
  const PAACE_OTM_INDEXED := 2

  const WBAL := Field(0xfffff000, 12, 20)
  const WSE := Field(0xfc0, 6, 6)
  const MW := Field(0x20, 5, 1)
  const AP := Field(0x18, 3, 2)
  const PT := Field(0x2, 1, 1)
  const V := Field(0x1, 0, 1)
  const CR := Field(0x80, 7, 1)
  const CID := Field(0xFF0000, 16, 8)
  const WCE := Field(0xF0, 4, 4)
  const ATM := Field(0xC, 2, 2)
  const OTM := Field(0x3, 0, 2)
  const TWBAL := Field(0xfffff000, 12, 20)

  /** paace_t, without the words the code never writes. */
  datatype Paace = Paace(wbah: nat, addrBitfields: nat, snpid: nat, coherency: nat, implAttr: nat,
                         twbah: nat, winBitfields: nat, fspi: nat, omi: nat)

  /** What an entry says. */
  datatype Entry = Entry(wse: nat, base: nat, page: nat, perms: nat, multi: nat, primary: nat, valid: nat,
                         coherent: nat, snoop: nat, stash: nat, wce: nat, xlate: nat, otm: nat, omi: nat, fspi: nat)

  function Decode(e: Paace): Entry {
    Entry(GetBf(e.addrBitfields, WSE),
          e.wbah * 0x1_0000_0000 + GetBf(e.addrBitfields, WBAL) * 0x1000,
          e.twbah * 0x10_0000 + GetBf(e.winBitfields, TWBAL),
          GetBf(e.addrBitfields, AP), GetBf(e.addrBitfields, MW), GetBf(e.addrBitfields, PT), GetBf(e.addrBitfields, V),
          GetBf(e.coherency, CR), e.snpid, GetBf(e.implAttr, CID), GetBf(e.implAttr, WCE), GetBf(e.implAttr, ATM),
          GetBf(e.implAttr, OTM), e.omi, e.fspi)
  }

  // ---- the fields of each word do not overlap ----

  predicate IsAddr(f: Field) { f == WBAL || f == WSE || f == MW || f == AP || f == PT || f == V }
  predicate IsImpl(f: Field) { f == CID || f == WCE || f == ATM || f == OTM }

  lemma Listed()
    ensures IsAddr(WBAL) && IsAddr(WSE) && IsAddr(MW) && IsAddr(AP) && IsAddr(PT) && IsAddr(V)
    ensures IsImpl(CID) && IsImpl(WCE) && IsImpl(ATM) && IsImpl(OTM)
  {
  }

  lemma SmallPowers()
    ensures Pow2(0) == 1 && Pow2(1) == 2 && Pow2(2) == 4 && Pow2(3) == 8 && Pow2(4) == 16 && Pow2(5) == 32
      && Pow2(6) == 64
    ensures Pow2(7) == 0x80 && Pow2(8) == 0x100 && Pow2(12) == 0x1000 && Pow2(16) == 0x10000 && Pow2(20) == 0x10_0000
    ensures Pow2(32) == 0x1_0000_0000
  {
    Pow2Literals();
    assert Pow2(4) == 16;
    Pow2Add(4, 8);
    Pow2Add(8, 8);
    Pow2Add(8, 12);
  }

  lemma FieldIs(f: Field, w: nat, s: nat)
    requires f.shift + f.width <= 32 && w == Pow2(f.width) && s == Pow2(f.shift) && f.mask == (w - 1) * s
    requires f.mask < 0x1_0000_0000
    ensures IsField(f)
  {
    Pow2Literals();
  }

  lemma AddrFields(f: Field)
    requires IsAddr(f)
    ensures IsField(f)
  {
    SmallPowers();
    hide Pow2, IsField;
    FieldIs(f, Pow2(f.width), Pow2(f.shift));
  }

  lemma OtherFields(f: Field)
    requires IsImpl(f) || f == CR || f == TWBAL
    ensures IsField(f)
  {
    SmallPowers();
    hide Pow2, IsField;
    FieldIs(f, Pow2(f.width), Pow2(f.shift));
  }

  lemma SetAddr(v: nat, f: Field, x: nat, g: Field)
    requires IsAddr(f) && IsAddr(g)
    ensures GetBf(SetBf(v, f, x), g) == if g == f then x % Pow2(f.width) else GetBf(v, g)
  {
    hide GetBf, SetBf, Pow2, IsField;
    AddrFields(f);
    AddrFields(g);
    if g == f { ReadBack(v, f, x); } else { OthersKept(v, f, x, g); }
  }

  lemma SetImpl(v: nat, f: Field, x: nat, g: Field)
    requires IsImpl(f) && IsImpl(g)
    ensures GetBf(SetBf(v, f, x), g) == if g == f then x % Pow2(f.width) else GetBf(v, g)
  {
    hide GetBf, SetBf, Pow2, IsField;
    OtherFields(f);
    OtherFields(g);
    if g == f { ReadBack(v, f, x); } else { OthersKept(v, f, x, g); }
  }

  lemma SetAddrAll(v: nat, f: Field, x: nat)
    requires IsAddr(f)
    ensures forall g: Field ::
      IsAddr(g) ==> GetBf(SetBf(v, f, x), g) == if g == f then x % Pow2(f.width) else GetBf(v, g)
  {
    hide *;
    forall g: Field | IsAddr(g)
      ensures GetBf(SetBf(v, f, x), g) == if g == f then x % Pow2(f.width) else GetBf(v, g)
    {
      SetAddr(v, f, x, g);
    }
  }

  lemma SetImplAll(v: nat, f: Field, x: nat)
    requires IsImpl(f)
    ensures forall g: Field ::
      IsImpl(g) ==> GetBf(SetBf(v, f, x), g) == if g == f then x % Pow2(f.width) else GetBf(v, g)
  {
    hide *;
    forall g: Field | IsImpl(g)
      ensures GetBf(SetBf(v, f, x), g) == if g == f then x % Pow2(f.width) else GetBf(v, g)
    {
      SetImpl(v, f, x, g);
    }
  }

  // ---- what pamu.c stores in an entry ----

  function Claimed(e: Paace, wse: nat): Paace {
    e.(addrBitfields := SetBf(e.addrBitfields, WSE, wse))
  }

  /** pamu_setup_default_xfer_to_host_ppaace. */
  function ToHost(e: Paace): Paace {
    e.(addrBitfields := SetBf(e.addrBitfields, PT, 0), coherency := SetBf(e.coherency, CR, 1))
  }

  function Based(e: Paace, winAddr: nat): Paace {
    e.(wbah := winAddr / 0x1_0000_0000 % 0x1_0000_0000, addrBitfields := SetBf(e.addrBitfields, WBAL, winAddr / 0x1000))
  }

  function Mapped(e: Paace, omi: nat): Paace {
    e.(implAttr := SetBf(e.implAttr, OTM, PAACE_OTM_INDEXED), omi := omi)
  }

  function Stashed(e: Paace, stashid: nat): Paace {
    e.(implAttr := SetBf(e.implAttr, CID, stashid))
  }

  function Snooped(e: Paace, snoopid: nat): Paace { e.(snpid := snoopid % 256) }

  function Windowed(e: Paace, wce: nat, fspi: nat): Paace {
    e.(implAttr := SetBf(e.implAttr, WCE, wce), addrBitfields := SetBf(e.addrBitfields, MW, 1), fspi := fspi)
  }

  function Translated(e: Paace, rpn: nat): Paace {
    e.(implAttr := SetBf(e.implAttr, ATM, PAACE_ATM_WINDOW_XLATE), twbah := rpn / 0x10_0000 % 0x1_0000_0000,
       winBitfields := SetBf(e.winBitfields, TWBAL, rpn))
  }

  function Permitted(e: Paace, perms: nat): Paace {
    e.(addrBitfields := SetBf(e.addrBitfields, AP, perms))
  }

  function Validated(e: Paace, valid: nat): Paace {
    e.(addrBitfields := SetBf(e.addrBitfields, V, valid))
  }

  // ---- each store changes what it means to and nothing else ----

  /** An address cut to its 4K page, and the page number an entry can hold. */
  function PageBase(addr: nat): (r: nat)
    ensures r <= addr < r + 0x1000 && r % 0x1000 == 0
  {
    addr / 0x1000 * 0x1000
  }

  function PageOf(rpn: nat): nat { rpn % 0x10_0000_0000_0000 }

  lemma BaseParts(addr: nat)
    requires addr < 0x1_0000_0000_0000_0000
    ensures addr / 0x1_0000_0000 % 0x1_0000_0000 * 0x1_0000_0000 + addr / 0x1000 % 0x10_0000 * 0x1000 == PageBase(addr)
  {
  }

  lemma PageParts(rpn: nat)
    ensures rpn / 0x10_0000 % 0x1_0000_0000 * 0x10_0000 + rpn % 0x10_0000 == PageOf(rpn)
  {
  }

  lemma ClaimedMeans(e: Paace, wse: nat)
    requires wse < 64
    ensures Decode(Claimed(e, wse)) == Decode(e).(wse := wse)
  {
    hide SetBf, GetBf, Pow2, IsAddr, IsImpl, PageBase, PageOf;
    Listed();
    SetAddrAll(e.addrBitfields, WSE, wse);
    SmallPowers();
  }

  lemma ToHostMeans(e: Paace)
    ensures Decode(ToHost(e)) == Decode(e).(primary := 0, coherent := 1)
  {
    hide SetBf, GetBf, Pow2, IsAddr, IsImpl, PageBase, PageOf;
    Listed();
    SetAddrAll(e.addrBitfields, PT, 0);
    OtherFields(CR);
    ReadBack(e.coherency, CR, 1);
    SmallPowers();
  }

  lemma BasedMeans(e: Paace, winAddr: nat)
    requires winAddr < 0x1_0000_0000_0000_0000
    ensures Decode(Based(e, winAddr)) == Decode(e).(base := PageBase(winAddr))
  {
    hide SetBf, GetBf, Pow2, IsAddr, IsImpl, PageBase, PageOf;
    Listed();
    SetAddrAll(e.addrBitfields, WBAL, winAddr / 0x1000);
    BaseParts(winAddr);
    SmallPowers();
  }

  lemma MappedMeans(e: Paace, omi: nat)
    ensures Decode(Mapped(e, omi)) == Decode(e).(otm := PAACE_OTM_INDEXED, omi := omi)
  {
    hide SetBf, GetBf, Pow2, IsAddr, IsImpl, PageBase, PageOf;
    Listed();
    SetImplAll(e.implAttr, OTM, PAACE_OTM_INDEXED);
    SmallPowers();
  }

  lemma StashedMeans(e: Paace, stashid: nat)
    ensures Decode(Stashed(e, stashid)) == Decode(e).(stash := stashid % 256)
  {
    hide SetBf, GetBf, Pow2, IsAddr, IsImpl, PageBase, PageOf;
    Listed();
    SetImplAll(e.implAttr, CID, stashid);
    SmallPowers();
  }

  lemma SnoopedMeans(e: Paace, snoopid: nat)
    ensures Decode(Snooped(e, snoopid)) == Decode(e).(snoop := snoopid % 256)
  {
    hide GetBf;
  }

  lemma WindowedMeans(e: Paace, wce: nat, fspi: nat)
    ensures Decode(Windowed(e, wce, fspi)) == Decode(e).(wce := wce % 16, multi := 1, fspi := fspi)
  {
    hide SetBf, GetBf, Pow2, IsAddr, IsImpl, PageBase, PageOf;
    Listed();
    SetImplAll(e.implAttr, WCE, wce);
    SetAddrAll(e.addrBitfields, MW, 1);
    SmallPowers();
  }

  lemma TranslatedMeans(e: Paace, rpn: nat)
    ensures Decode(Translated(e, rpn)) == Decode(e).(xlate := PAACE_ATM_WINDOW_XLATE, page := PageOf(rpn))
  {
    hide SetBf, GetBf, Pow2, IsAddr, IsImpl, PageBase, PageOf;
    Listed();
    SetImplAll(e.implAttr, ATM, PAACE_ATM_WINDOW_XLATE);
    OtherFields(TWBAL);
    ReadBack(e.winBitfields, TWBAL, rpn);
    PageParts(rpn);
    SmallPowers();
  }

  lemma PermittedMeans(e: Paace, perms: nat)
    requires perms < 4
    ensures Decode(Permitted(e, perms)) == Decode(e).(perms := perms)
  {
    hide SetBf, GetBf, Pow2, IsAddr, IsImpl, PageBase, PageOf;
    Listed();
    SetAddrAll(e.addrBitfields, AP, perms);
    SmallPowers();
  }

  lemma ValidatedMeans(e: Paace, valid: nat)
    requires valid < 2
    ensures Decode(Validated(e, valid)) == Decode(e).(valid := valid)
  {
    hide SetBf, GetBf, Pow2, IsAddr, IsImpl, PageBase, PageOf;
    Listed();
    SetAddrAll(e.addrBitfields, V, valid);
    SmallPowers();
  }
}
