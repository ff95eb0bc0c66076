/** The part table: one row per supported board microcontroller (its printed name left out), and the
    geometry derived from it. */
module Parts {

  const FLASH_BASE := 0x0800_0000
  const SRAM_BASE := 0x2000_0000
  const STACK_CAP := 0x2000_2000
  const IMAGE_BUFFER := 73_728

  const FAMILY_F10X := 0
  const FAMILY_F1X0 := 1
  const FAMILY_MM32SPIN05 := 2

  const TIMER0_CCHP := 0x4001_2C44
  const TIMER7_CCHP := 0x4001_3444
  const TIMER0_ONLY := [TIMER0_CCHP]

  datatype Core = M3 | M0(id: int)

  datatype Option<+T> = None | Some(value: T)

  datatype Part = Part(
    core: Core,
    family: int,
    flashKib: nat,
    page: nat,
    sramKib: nat,
    ring: nat,
    timers: seq<int>
  ) {

    function FlashLen(): nat {
      flashKib * 1024
    }

    /** Two pages, at the very top of flash. */
    function StoreStart(): int {
      FLASH_BASE + FlashLen() - 2 * page
    }

    function StoreLen(): nat {
      2 * page
    }

    /** The longest image: it may neither reach the store nor outgrow the buffer. */
    function MaxImage(): int {
      if StoreStart() - FLASH_BASE < IMAGE_BUFFER then StoreStart() - FLASH_BASE else IMAGE_BUFFER
    }

    function StackTop(): int {
      var end := SRAM_BASE + sramKib * 1024;
      if end < STACK_CAP then end else STACK_CAP
    }
  }

  /** The page of flash that the byte at offset `off` is in, on the two page sizes there are. */
  function PageOf(p: Part, off: int): int {
    if p.page == 1024 then off / 1024 else off / 2048
  }

  const GD32F103_64 := Part(M3, FAMILY_F10X, 64, 1024, 20, 4096, TIMER0_ONLY)
  const GD32F130C8 := Part(M3, FAMILY_F1X0, 64, 1024, 8, 4096, TIMER0_ONLY)
  const GD32F130C6 := Part(M3, FAMILY_F1X0, 32, 1024, 4, 2048, TIMER0_ONLY)
  const MM32SPIN05 := Part(M0(0xCC44_60B1), FAMILY_MM32SPIN05, 32, 1024, 4, 2048, TIMER0_ONLY)
  const GD32F103RC := Part(M3, FAMILY_F10X, 256, 2048, 48, 4096, [TIMER0_CCHP, TIMER7_CCHP])

  const PARTS: seq<Part> := [GD32F103_64, GD32F130C8, GD32F130C6, MM32SPIN05, GD32F103RC]

  predicate IsRow(p: Part) {
    p in PARTS
  }

  /** The first row of `rows` that `keep` accepts, as an iterator's `find` returns it. */
  function Find(rows: seq<Part>, keep: Part -> bool): (r: Option<Part>)
    ensures r.Some? ==> r.value in rows && keep(r.value)
    ensures r.None? ==> forall p :: p in rows ==> !keep(p)
  {
    if rows == [] then None
    else if keep(rows[0]) then Some(rows[0])
    else Find(rows[1..], keep)
  }

  function Lookup(family: int, flashKib: nat): Option<Part> {
    Find(PARTS, (p: Part) => p.family == family && p.flashKib == flashKib)
  }

  function LookupM0(id: int): Option<Part> {
    Find(PARTS, (p: Part) => p.core == M0(id))
  }

  /** What the loader and the flash job need of a part. */
  predicate Sound(p: Part) {
    && (p.page == 1024 || p.page == 2048)
    && p.ring % 1024 == 0 && 2048 <= p.ring
    && p.flashKib % 2 == 0 && 8 <= p.flashKib
    && 0x2000_0400 + p.ring <= p.StackTop()
  }

  /** An image of `len` bytes fits the buffer and ends no higher than where the store begins. */
  predicate LimitedTo(p: Part, len: int) {
    len <= IMAGE_BUFFER && FLASH_BASE + len <= p.StoreStart()
  }

  /** Every row is sound, its image limit the largest that fits, a whole number of pages, and its first timer timer 0. */
  lemma RowGeometry(p: Part)
    requires IsRow(p)
    ensures Sound(p)
    ensures p.FlashLen() % p.page == 0 && p.MaxImage() % p.page == 0
    ensures p.StoreStart() + 2 * p.page == p.StoreStart() + p.StoreLen() == FLASH_BASE + p.flashKib * 1024
    ensures 1 <= p.MaxImage() && LimitedTo(p, p.MaxImage()) && !LimitedTo(p, p.MaxImage() + 1)
    ensures p.StackTop() <= SRAM_BASE + p.sramKib * 1024
    ensures p.timers == TIMER0_ONLY || p.timers == [TIMER0_CCHP, TIMER7_CCHP]
  {
  }

  /** Where each row's store begins, what its image may be, and where its loader's stack starts. */
  lemma RowLimits(p: Part)
    requires IsRow(p)
    ensures (p.StoreStart(), p.MaxImage(), p.StackTop()) ==
            if p.flashKib == 256 then (0x0803_F000, 73_728, 0x2000_2000)
            else if p.flashKib == 64 then (0x0800_F800, 62 * 1024, 0x2000_2000)
            else (0x0800_7800, 30 * 1024, 0x2000_1000)
  {
  }

  /** The table has no two rows alike: either way of looking a row up finds that row. */
  lemma LookupFindsTheRow(p: Part)
    requires IsRow(p)
    ensures Lookup(p.family, p.flashKib) == Some(p)
    ensures p.core.M0? ==> LookupM0(p.core.id) == Some(p)
  {
    assert forall i, j :: 0 <= i < j < |PARTS| ==> PARTS[i].core != PARTS[j].core || PARTS[i].core.M3?;
    assert forall i, j :: 0 <= i < j < |PARTS| ==> PARTS[i].family != PARTS[j].family || PARTS[i].flashKib != PARTS[j].flashKib;
  }
}
