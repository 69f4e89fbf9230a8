/** The generic address space: one 32-bit range that holds global, shared and local memory. */
module GenericAddress {

  const ADDRESS_LIMIT := 0x1_0000_0000
  const GLOBAL_HEAP_START := 0x8000_0000
  const SHARED_MEM_SIZE_MAX := 64 * 1024
  const LOCAL_MEM_SIZE_MAX := 8 * 1024
  const MAX_STREAMING_MULTIPROCESSORS := 64
  const MAX_THREAD_PER_SM := 2048
  const TOTAL_LOCAL_MEM_PER_SM := MAX_THREAD_PER_SM * LOCAL_MEM_SIZE_MAX
  const TOTAL_SHARED_MEM := MAX_STREAMING_MULTIPROCESSORS * SHARED_MEM_SIZE_MAX
  const TOTAL_LOCAL_MEM := MAX_STREAMING_MULTIPROCESSORS * MAX_THREAD_PER_SM * LOCAL_MEM_SIZE_MAX
  const SHARED_GENERIC_START := GLOBAL_HEAP_START - TOTAL_SHARED_MEM
  const LOCAL_GENERIC_START := SHARED_GENERIC_START - TOTAL_LOCAL_MEM
  const STATIC_ALLOC_LIMIT := GLOBAL_HEAP_START - (TOTAL_LOCAL_MEM + TOTAL_SHARED_MEM)

  datatype Space = GlobalSpace | SharedSpace | LocalSpace

  /** Unsigned 32-bit arithmetic. */
  function Wrap(x: int): nat {
    x % ADDRESS_LIMIT
  }

  predicate LegalSm(smid: nat) {
    smid < MAX_STREAMING_MULTIPROCESSORS
  }

  predicate LegalThread(hwtid: nat) {
    hwtid < MAX_THREAD_PER_SM
  }

  function SharedStart(smid: nat): nat {
    Wrap(SHARED_GENERIC_START + Wrap(smid * SHARED_MEM_SIZE_MAX))
  }

  function SharedToGeneric(smid: nat, addr: nat): nat
    requires addr < SHARED_MEM_SIZE_MAX
  {
    Wrap(SharedStart(smid) + addr)
  }

  predicate IsSpaceShared(smid: nat, addr: nat) {
    !(addr >= SharedStart(smid + 1) || addr < SharedStart(smid))
  }

  function GenericToShared(smid: nat, addr: nat): nat
    requires IsSpaceShared(smid, addr)
  {
    Wrap(addr - SharedStart(smid))
  }

  function LocalStart(smid: nat, hwtid: nat): nat {
    Wrap(LOCAL_GENERIC_START + Wrap(TOTAL_LOCAL_MEM_PER_SM * smid) + Wrap(LOCAL_MEM_SIZE_MAX * hwtid))
  }

  function LocalToGeneric(smid: nat, hwtid: nat, addr: nat): nat
    requires addr < LOCAL_MEM_SIZE_MAX
  {
    Wrap(LocalStart(smid, hwtid) + addr)
  }

  predicate IsSpaceLocal(smid: nat, hwtid: nat, addr: nat) {
    !(addr >= LocalStart(smid, hwtid + 1) || addr < LocalStart(smid, hwtid))
  }

  function GenericToLocal(smid: nat, hwtid: nat, addr: nat): nat
    requires IsSpaceLocal(smid, hwtid, addr)
  {
    Wrap(addr - LocalStart(smid, hwtid))
  }

  predicate IsSpaceGlobal(addr: nat) {
    addr >= GLOBAL_HEAP_START || addr < STATIC_ALLOC_LIMIT
  }

  function WhichSpace(addr: nat): Space {
    if addr >= GLOBAL_HEAP_START || addr < STATIC_ALLOC_LIMIT then GlobalSpace
    else if addr >= SHARED_GENERIC_START then SharedSpace
    else LocalSpace
  }

  // ---------------------------------------------------------------- laws

  lemma NoWrap(x: int)
    requires 0 <= x < ADDRESS_LIMIT
    ensures Wrap(x) == x
  {
  }

  /** For legal numbers no window boundary wraps around. */
  lemma SharedWindow(smid: nat)
    requires smid <= MAX_STREAMING_MULTIPROCESSORS
    ensures SharedStart(smid) == 0x7fc0_0000 + 0x1_0000 * smid
  {
    hide Wrap;
    NoWrap(smid * SHARED_MEM_SIZE_MAX);
    NoWrap(SHARED_GENERIC_START + smid * SHARED_MEM_SIZE_MAX);
  }

  lemma LocalWindow(smid: nat, hwtid: nat)
    requires LegalSm(smid) && hwtid <= MAX_THREAD_PER_SM
    ensures LocalStart(smid, hwtid) == 0x3fc0_0000 + 0x100_0000 * smid + 0x2000 * hwtid
  {
    hide Wrap;
    NoWrap(TOTAL_LOCAL_MEM_PER_SM * smid);
    NoWrap(LOCAL_MEM_SIZE_MAX * hwtid);
    NoWrap(LOCAL_GENERIC_START + TOTAL_LOCAL_MEM_PER_SM * smid + LOCAL_MEM_SIZE_MAX * hwtid);
  }

  /** The window of a legal multiprocessor is a range of 64K addresses in the shared region. */
  lemma SharedSpan(smid: nat)
    requires LegalSm(smid)
    ensures SharedStart(smid + 1) == SharedStart(smid) + SHARED_MEM_SIZE_MAX
    ensures SHARED_GENERIC_START <= SharedStart(smid) && SharedStart(smid + 1) <= GLOBAL_HEAP_START
  {
    hide SharedStart;
    SharedWindow(smid);
    SharedWindow(smid + 1);
  }

  /** The window of a legal thread is a range of 8K addresses in the local region. */
  lemma LocalSpan(smid: nat, hwtid: nat)
    requires LegalSm(smid) && LegalThread(hwtid)
    ensures LocalStart(smid, hwtid + 1) == LocalStart(smid, hwtid) + LOCAL_MEM_SIZE_MAX
    ensures LOCAL_GENERIC_START <= LocalStart(smid, hwtid) && LocalStart(smid, hwtid + 1) <= SHARED_GENERIC_START
  {
    hide LocalStart;
    LocalWindow(smid, hwtid);
    LocalWindow(smid, hwtid + 1);
  }

  /** The shared window of a multiprocessor and the offsets below 64K are in bijection. */
  lemma SharedRoundTrip(smid: nat, offset: nat, addr: nat)
    requires LegalSm(smid)
    ensures offset < SHARED_MEM_SIZE_MAX ==>
              var g := SharedToGeneric(smid, offset);
              IsSpaceShared(smid, g) && GenericToShared(smid, g) == offset && WhichSpace(g) == SharedSpace
    ensures IsSpaceShared(smid, addr) ==>
              var o := GenericToShared(smid, addr);
              o < SHARED_MEM_SIZE_MAX && SharedToGeneric(smid, o) == addr
  {
    SharedSpan(smid);
    hide SharedStart, Wrap;
    if offset < SHARED_MEM_SIZE_MAX {
      NoWrap(SharedStart(smid) + offset);
      NoWrap(offset);
    }
    if IsSpaceShared(smid, addr) {
      NoWrap(addr - SharedStart(smid));
      NoWrap(addr);
    }
  }

  /** The same for the local window of a thread and the offsets below 8K. */
  lemma LocalRoundTrip(smid: nat, hwtid: nat, offset: nat, addr: nat)
    requires LegalSm(smid) && LegalThread(hwtid)
    ensures offset < LOCAL_MEM_SIZE_MAX ==>
              var g := LocalToGeneric(smid, hwtid, offset);
              IsSpaceLocal(smid, hwtid, g) && GenericToLocal(smid, hwtid, g) == offset && WhichSpace(g) == LocalSpace
    ensures IsSpaceLocal(smid, hwtid, addr) ==>
              var o := GenericToLocal(smid, hwtid, addr);
              o < LOCAL_MEM_SIZE_MAX && LocalToGeneric(smid, hwtid, o) == addr
  {
    LocalSpan(smid, hwtid);
    hide LocalStart, Wrap;
    if offset < LOCAL_MEM_SIZE_MAX {
      NoWrap(LocalStart(smid, hwtid) + offset);
      NoWrap(offset);
    }
    if IsSpaceLocal(smid, hwtid, addr) {
      NoWrap(addr - LocalStart(smid, hwtid));
      NoWrap(addr);
    }
  }

  /** The window an address of the shared, or of the local, region lies in. */
  function SharedWindowOf(addr: nat): int {
    (addr - SHARED_GENERIC_START) / SHARED_MEM_SIZE_MAX
  }

  function LocalWindowOf(addr: nat): int {
    (addr - LOCAL_GENERIC_START) / LOCAL_MEM_SIZE_MAX
  }

  lemma InSharedWindow(addr: nat, n: nat)
    ensures SharedWindowOf(addr) == n <==> 0x7fc0_0000 + 0x1_0000 * n <= addr < 0x7fc0_0000 + 0x1_0000 * (n + 1)
  {
    var d := addr - 0x7fc0_0000;
    assert SharedWindowOf(addr) == d / 0x1_0000;
  }

  lemma InLocalWindow(addr: nat, n: nat)
    ensures LocalWindowOf(addr) == n <==> 0x3fc0_0000 + 0x2000 * n <= addr < 0x3fc0_0000 + 0x2000 * (n + 1)
  {
    var d := addr - 0x3fc0_0000;
    assert LocalWindowOf(addr) == d / 0x2000;
  }

  /** The windows of the multiprocessors tile the shared region: a shared address is in exactly one
      of them, any other address in none. */
  lemma SharedTiles(addr: nat, smid: nat)
    requires LegalSm(smid)
    ensures IsSpaceShared(smid, addr) <==> WhichSpace(addr) == SharedSpace && smid == SharedWindowOf(addr)
  {
    SharedWindow(smid);
    SharedWindow(smid + 1);
    hide SharedStart, Wrap, SharedWindowOf;
    InSharedWindow(addr, smid);
  }

  /** The windows of the threads tile the local region in the same way, and the rest is global. */
  lemma LocalTiles(addr: nat, smid: nat, hwtid: nat)
    requires LegalSm(smid) && LegalThread(hwtid)
    ensures IsSpaceLocal(smid, hwtid, addr) <==>
            WhichSpace(addr) == LocalSpace && MAX_THREAD_PER_SM * smid + hwtid == LocalWindowOf(addr)
    ensures WhichSpace(addr) == GlobalSpace <==> IsSpaceGlobal(addr)
  {
    LocalWindow(smid, hwtid);
    LocalWindow(smid, hwtid + 1);
    hide LocalStart, Wrap, LocalWindowOf;
    InLocalWindow(addr, MAX_THREAD_PER_SM * smid + hwtid);
  }

  /** Every shared address and every local address has an owner. */
  lemma SharedOwner(addr: nat)
    requires WhichSpace(addr) == SharedSpace
    ensures SharedWindowOf(addr) >= 0 && LegalSm(SharedWindowOf(addr)) && IsSpaceShared(SharedWindowOf(addr), addr)
  {
    SharedTiles(addr, SharedWindowOf(addr));
  }

  lemma LocalOwner(addr: nat)
    requires WhichSpace(addr) == LocalSpace
    ensures var w := LocalWindowOf(addr);
            w >= 0 && LegalSm(w / MAX_THREAD_PER_SM) && LegalThread(w % MAX_THREAD_PER_SM)
            && IsSpaceLocal(w / MAX_THREAD_PER_SM, w % MAX_THREAD_PER_SM, addr)
  {
    var w := LocalWindowOf(addr);
    assert 0 <= w < MAX_STREAMING_MULTIPROCESSORS * MAX_THREAD_PER_SM;
    hide LocalWindowOf, IsSpaceLocal;
    assert MAX_THREAD_PER_SM * (w / MAX_THREAD_PER_SM) + w % MAX_THREAD_PER_SM == w;
    LocalTiles(addr, w / MAX_THREAD_PER_SM, w % MAX_THREAD_PER_SM);
  }
}
