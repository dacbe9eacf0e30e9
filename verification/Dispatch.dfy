/**
 aclsoc_rw and aclsoc_get_checked_addr: a request block is fetched from user space and
 either executed as a special command or routed to one of two mapped regions,
 bounds-checked with 32-bit arithmetic and carried out, all under the semaphore.
 */
module Dispatch {
  import opened Bytes
  import opened Commands
  import opened Common
  import opened Transfer

  const CMD_BAR: u32 := 23
  const DMA_BAR: u32 := 25
  const WINDOW_BASE: u32 := 0x10000
  const WINDOW_SIZE: u32 := 0x10000
  const BAR0_SIZE: u32 := 0x20000
  const BAR2_SIZE: u32 := 0x40000

  /** The size of struct acl_cmd. */
  const BLOCK_SIZE: nat := 24

  /** A read() or write(): where its request block lies, how the copy of the block and the user copies after it
      go, and what the rest of the driver answers it. */
  datatype Call = Call(block: nat, blockCopy: Copy, reading: bool, answers: Answers, faults: Faults)

  /** The same once the block has been fetched, or has failed to be. */
  datatype Request = Request(cmd: Cmd, cmdFaults: bool, reading: bool, answers: Answers, faults: Faults)

  function Field(block: seq<byte>, at: nat): u32
    requires at + 4 <= |block|
  {
    var bs := Sub(block, at, 4);
    assert Capacity(4) == 0x1_0000_0000;
    Decode(bs)
  }

  function BlockContents(block: seq<byte>): Cmd
    requires |block| == BLOCK_SIZE
  {
    Cmd(Field(block, 0), Field(block, 4), Field(block, 8), Field(block, 12), Field(block, 16))
  }

  function Fetch(user: seq<byte>, c: Call): Request {
    Request(BlockContents(Fetched(user, c.block, BLOCK_SIZE, c.blockCopy)),
            FaultsAt(|user|, c.block, BLOCK_SIZE, c.blockCopy), c.reading, c.answers, c.faults)
  }

  /** The words of a block as a caller lays it out: the fields of struct acl_cmd in order. */
  function Laid(cmd: Cmd, last: u32): (block: seq<byte>)
    ensures |block| == BLOCK_SIZE
  {
    Encode(cmd.barId, 4) + Encode(cmd.command, 4) + Encode(cmd.deviceAddr, 4) + Encode(cmd.userAddr, 4)
    + Encode(cmd.size, 4) + Encode(last, 4)
  }

  lemma FieldOf(block: seq<byte>, at: nat, v: u32)
    requires at + 4 <= |block| && Sub(block, at, 4) == Encode(v, 4)
    ensures Field(block, at) == v
  {
    assert Capacity(4) == 0x1_0000_0000;
    DecodeEncode(v, 4);
  }

  /** The request is what the caller laid out, field by field, if its copy goes through; otherwise it is marked as
      not fetched. The rest of the call is passed on. */
  lemma FetchReadsBlock(user: seq<byte>, c: Call, cmd: Cmd, last: u32)
    requires c.block + BLOCK_SIZE <= |user| && Sub(user, c.block, BLOCK_SIZE) == Laid(cmd, last)
    ensures
      var q := Fetch(user, c);
      && (q.cmdFaults <==> FaultsAt(|user|, c.block, 24, c.blockCopy))
      && (!q.cmdFaults ==> q.cmd == cmd)
      && q.reading == c.reading && q.answers == c.answers && q.faults == c.faults
  {
    if !FaultsAt(|user|, c.block, BLOCK_SIZE, c.blockCopy) {
      var block := Laid(cmd, last);
      assert Sub(block, 0, 4) == Encode(cmd.barId, 4);
      assert Sub(block, 4, 4) == Encode(cmd.command, 4);
      assert Sub(block, 8, 4) == Encode(cmd.deviceAddr, 4);
      assert Sub(block, 12, 4) == Encode(cmd.userAddr, 4);
      assert Sub(block, 16, 4) == Encode(cmd.size, 4);
      hide Sub, Encode;
      FieldOf(block, 0, cmd.barId);
      FieldOf(block, 4, cmd.command);
      FieldOf(block, 8, cmd.deviceAddr);
      FieldOf(block, 12, cmd.userAddr);
      FieldOf(block, 16, cmd.size);
    }
  }

  /** A `Stray` call leaves its mapped region, after which the model says nothing. */
  datatype Outcome = Returned(code: int) | Stray

  /** Address arithmetic on unsigned long. */
  function Wrapped(a: u32, n: u32): u32 {
    (a + n) % 0x1_0000_0000
  }

  /** The same bits as a 32-bit ssize_t. */
  function AsSigned(a: u32): int {
    if a < 0x8000_0000 then a else a - 0x1_0000_0000
  }

  /** The region a request goes to: BAR 0 for the memory window, BAR 2 for everything else. */
  function Route(cmd: Cmd): (bar: u32) {
    if cmd.barId == 0 && AsSigned(cmd.deviceAddr) >= WINDOW_BASE
      && Wrapped(cmd.deviceAddr, cmd.size) <= WINDOW_BASE + WINDOW_SIZE
    then 0 else 2
  }

  /** Device and user memory. */
  datatype Mem = Mem(bar0: seq<byte>, bar2: seq<byte>, user: seq<byte>) {
    predicate WellSized() {
      |bar0| == BAR0_SIZE && |bar2| == BAR2_SIZE
    }

    function Window(bar: u32): seq<byte> {
      if bar == 0 then bar0 else bar2
    }

    function With(bar: u32, e: Effect): Mem {
      if bar == 0 then Mem(e.window, bar2, e.user) else Mem(bar0, e.window, e.user)
    }
  }

  function RegionSize(bar: u32): u32 {
    if bar == 0 then BAR0_SIZE else BAR2_SIZE
  }

  /** The bounds check of aclsoc_get_checked_addr, on the wrapped sum. */
  predicate PassesCheck(bar: u32, addr: u32, count: u32) {
    (bar == 0 || bar == 2) && Wrapped(addr, count) <= RegionSize(bar)
  }

  predicate IsCommand(q: Request) {
    !q.cmdFaults && q.cmd.barId == CMD_BAR
  }

  /** The request is a transfer and passes the check. */
  predicate Accepted(q: Request) {
    !q.cmdFaults && q.cmd.barId != CMD_BAR && PassesCheck(Route(q.cmd), q.cmd.deviceAddr, q.cmd.size)
  }

  /** How many device bytes, from the device address on, the transfer touches before it ends or faults. */
  function Extent(space: nat, q: Request, page: nat): nat
    requires page > 0
  {
    if IsSmall(q.cmd.size) then Width(q.cmd.size, q.reading)
    else Touched(space, q.cmd.userAddr, q.cmd.size, page, q.faults, 0, q.reading)
  }

  predicate LeavesRegion(space: nat, q: Request, page: nat)
    requires page > 0
  {
    var n := Extent(space, q, page);
    n > 0 && q.cmd.deviceAddr + n > RegionSize(Route(q.cmd))
  }

  predicate Strays(space: nat, q: Request, page: nat)
    requires page > 0
  {
    Accepted(q) && LeavesRegion(space, q, page)
  }

  function TransferEffect(m: Mem, q: Request, page: nat): (e: Effect)
    requires m.WellSized() && page > 0 && !LeavesRegion(|m.user|, q, page)
    ensures |e.window| == |m.Window(Route(q.cmd))| && |e.user| == |m.user|
  {
    var w := m.Window(Route(q.cmd));
    if IsSmall(q.cmd.size) then
      SmallEffect(w, q.cmd.deviceAddr, m.user, q.cmd.userAddr, q.cmd.size, q.faults, q.reading)
    else LargeEffect(w, q.cmd.deviceAddr, m.user, q.cmd.userAddr, q.cmd.size, page, q.faults, 0, q.reading)
  }

  datatype Served = Served(mem: Mem, outcome: Outcome)

  /** What one call does, from fetching its block to releasing the semaphore. */
  function Serve(m: Mem, q: Request, page: nat): (s: Served)
    requires m.WellSized() && page > 0
    ensures s.mem.WellSized() && |s.mem.user| == |m.user|
  {
    if q.cmdFaults then Served(m, Returned(-EFAULT))
    else if q.cmd.barId == CMD_BAR then
      var e := CommandEffect(m.bar2, m.user, q.cmd, q.answers, q.faults);
      Served(m.With(2, e), Returned(e.result))
    else if !Accepted(q) then Served(m, Returned(-EFAULT))
    else if LeavesRegion(|m.user|, q, page) then Served(m, Stray)
    else
      var e := TransferEffect(m, q, page);
      Served(m.With(Route(q.cmd), e), Returned(e.result))
  }

  function ServeCall(m: Mem, c: Call, page: nat): (s: Served)
    requires m.WellSized() && page > 0
    ensures s.mem.WellSized() && |s.mem.user| == |m.user|
  {
    Serve(m, Fetch(m.user, c), page)
  }

  /** The bus accesses of that call, on the region it is routed to; commands use BAR 2. */
  function TraceOf(space: nat, q: Request, page: nat): seq<Access>
    requires page > 0
  {
    if IsCommand(q) then CommandTrace(q.cmd.command, q.answers)
    else if !Accepted(q) then []
    else if IsSmall(q.cmd.size) then SmallTrace(q.cmd.deviceAddr, q.cmd.size, q.reading)
    else Touches(q.cmd.deviceAddr, Touched(space, q.cmd.userAddr, q.cmd.size, page, q.faults, 0, q.reading), !q.reading)
  }

  // ---------------------------------------------------------------- routing and ranges

  /** Routing only ever picks BAR 0 or BAR 2, so the DMA branch is dead; what goes to BAR 0 always passes
      its check; and without wrap-around a request lies wholly inside the memory window or goes wholly to
      BAR 2. */
  lemma Routing(cmd: Cmd)
    ensures Route(cmd) != DMA_BAR && (Route(cmd) == 0 || Route(cmd) == 2)
    ensures Route(cmd) == 0 ==> PassesCheck(0, cmd.deviceAddr, cmd.size)
    ensures cmd.deviceAddr + cmd.size < 0x1_0000_0000 ==>
      (Route(cmd) == 0 <==>
        cmd.barId == 0 && WINDOW_BASE <= cmd.deviceAddr && cmd.deviceAddr + cmd.size <= WINDOW_BASE + WINDOW_SIZE)
  {
  }

  /** Routing in numbers: BAR 0 takes a request addressed to it that starts in the upper half of its 128 KiB, or
      beyond but below 2 GiB, and whose end, modulo 2^32, is not past them. */
  lemma RoutesExactly(cmd: Cmd)
    ensures Route(cmd) == 0 <==>
      && cmd.barId == 0 && 0x10000 <= cmd.deviceAddr < 0x8000_0000
      && (cmd.deviceAddr + cmd.size <= 0x20000 || 0 <= cmd.deviceAddr + cmd.size - 0x1_0000_0000 <= 0x20000)
    ensures Route(cmd) == 0 || Route(cmd) == 2
  {
  }

  /** The bounds check in numbers: of the transfers whose block could be fetched those routed to BAR 2 are turned
      away whose end, modulo 2^32, lies past its 256 KiB, and no others. */
  lemma AcceptsExactly(q: Request)
    ensures Accepted(q) <==>
      && !q.cmdFaults && q.cmd.barId != 23
      && (Route(q.cmd) == 2 ==>
            || q.cmd.deviceAddr + q.cmd.size <= 0x40000
            || 0 <= q.cmd.deviceAddr + q.cmd.size - 0x1_0000_0000 <= 0x40000)
  {
  }

  /** A request that is turned away, or whose block could not be fetched, returns -EFAULT, -14, and changes nothing. */
  lemma RefusedFails(m: Mem, q: Request, page: nat)
    requires m.WellSized() && page > 0
    ensures q.cmdFaults ==> Serve(m, q, page) == Served(m, Returned(-14))
    ensures q.cmd.barId != 23 && Route(q.cmd) == 2 && 0x40000 < q.cmd.deviceAddr + q.cmd.size < 0x1_0000_0000 ==>
      Serve(m, q, page) == Served(m, Returned(-14))
    ensures q.cmd.barId != 23 && Route(q.cmd) == 2 && q.cmd.deviceAddr + q.cmd.size > 0x1_0004_0000 ==>
      Serve(m, q, page) == Served(m, Returned(-14))
  {
    AcceptsExactly(q);
  }

  /** The user copies of an accepted transfer all go through; of the two of a two-byte write only the second counts. */
  ghost predicate CopiesSucceed(space: nat, q: Request, page: nat)
    requires page > 0
  {
    var cmd := q.cmd;
    if IsSmall(cmd.size) then
      var k := if !q.reading && cmd.size == 2 then 1 else 0;
      !FaultsAt(space, cmd.userAddr, Width(cmd.size, q.reading), CopyAt(q.faults, k))
    else NoCopyFaults(space, cmd.userAddr, cmd.size, page, q.faults)
  }

  /** Every outcome of a transfer: it strays, or is turned away, or returns 0 or -EFAULT as its user copies go. */
  lemma OutcomeExactly(m: Mem, q: Request, page: nat)
    requires m.WellSized() && page > 0 && !q.cmdFaults && q.cmd.barId != 23
    ensures Serve(m, q, page).outcome ==
      if !Accepted(q) then Returned(-EFAULT)
      else if LeavesRegion(|m.user|, q, page) then Stray
      else if CopiesSucceed(|m.user|, q, page) then Returned(0)
      else Returned(-EFAULT)
  {
    if Accepted(q) && !LeavesRegion(|m.user|, q, page) && !IsSmall(q.cmd.size) {
      var w := m.Window(Route(q.cmd));
      LargeResult(w, q.cmd.deviceAddr, m.user, q.cmd.userAddr, q.cmd.size, page, q.faults, q.reading);
    }
    hide LargeEffect, NoCopyFaults, FaultsAt;
  }

  /** A write leaves user memory alone; a read changes it in its range only; a command in its answer only. The
      region a request is not routed to stays as it was. */
  lemma UserFrame(m: Mem, q: Request, page: nat, i: nat)
    requires m.WellSized() && page > 0 && !Strays(|m.user|, q, page) && i < |m.user|
    requires IsCommand(q) ==> !InAnswer(Answer(m.user, q.cmd, q.answers, q.faults), i)
    requires !IsCommand(q) && q.reading ==> !(q.cmd.userAddr <= i < q.cmd.userAddr + q.cmd.size)
    ensures Serve(m, q, page).mem.user[i] == m.user[i]
    ensures Route(q.cmd) == 2 ==> Serve(m, q, page).mem.bar0 == m.bar0
    ensures Route(q.cmd) == 0 ==> Serve(m, q, page).mem.bar2 == m.bar2
  {
    if IsCommand(q) {
      CommandFrame(m.bar2, m.user, q.cmd, q.answers, q.faults);
    } else if Accepted(q) && !IsSmall(q.cmd.size) {
      PlanBounds(|m.user|, q.cmd.userAddr, q.cmd.size, page, q.faults, 0);
    }
    hide CommandEffect, Plan;
  }

  lemma FootprintOfTwo(a: Access, b: Access)
    ensures Footprint([a]) == Span(a.addr, a.width)
    ensures Footprint([a, b]) == Span(a.addr, a.width) + Span(b.addr, b.width)
  {
    assert Footprint([b]) == Span(b.addr, b.width) + Footprint([]);
    assert [a][1..] == [] && [a, b][1..] == [b];
  }

  lemma SpanHas(addr: nat, n: nat, a: nat)
    ensures a in Span(addr, n) <==> addr <= a < addr + n
  {
    if addr <= a < addr + n { assert Span(addr, n)[a - addr] == a; }
  }

  /** The device bytes an accepted transfer touches are those from its address on, as far as it gets: the
      requested range if no user copy faults, two bytes more for a two-byte write. */
  lemma TouchesExactly(space: nat, q: Request, page: nat, a: nat)
    requires page > 0 && Accepted(q)
    ensures a in Footprint(TraceOf(space, q, page)) <==>
      q.cmd.deviceAddr <= a < q.cmd.deviceAddr + Extent(space, q, page)
    ensures Extent(space, q, page) <= Width(q.cmd.size, q.reading)
  {
    var addr, n := q.cmd.deviceAddr, Extent(space, q, page);
    SpanHas(addr, n, a);
    if IsSmall(q.cmd.size) {
      SpanHas(addr, 2, a);
      FootprintOfTwo(Access(addr, q.cmd.size, !q.reading), Access(addr, 4, true));
    } else {
      TouchesOnceAscending(addr, n, !q.reading);
    }
  }

  /** Some access of an accepted transfer falls outside its region exactly when the stretch it touches
      reaches beyond the region's end. */
  lemma StraysExactly(space: nat, q: Request, page: nat)
    requires page > 0 && Accepted(q)
    ensures (exists a :: a in Footprint(TraceOf(space, q, page)) && a >= RegionSize(Route(q.cmd))) <==>
      LeavesRegion(space, q, page)
  {
    var end := q.cmd.deviceAddr + Extent(space, q, page);
    if LeavesRegion(space, q, page) {
      TouchesExactly(space, q, page, end - 1);
      assert end - 1 in Footprint(TraceOf(space, q, page));
    }
    forall a: nat | a in Footprint(TraceOf(space, q, page)) ensures a < end { TouchesExactly(space, q, page, a); }
  }

  predicate Wraps(q: Request) {
    q.cmd.deviceAddr + q.cmd.size >= 0x1_0000_0000
  }

  /** A two-byte write within the last three bytes of its region. */
  predicate LateTwoByteWrite(q: Request) {
    !q.reading && q.cmd.size == 2 && q.cmd.deviceAddr + 4 > RegionSize(Route(q.cmd))
  }

  /** How many bytes of the region there are from the request's device address on. */
  function Inside(q: Request): nat {
    if q.cmd.deviceAddr < RegionSize(Route(q.cmd)) then RegionSize(Route(q.cmd)) - q.cmd.deviceAddr else 0
  }

  /** How many of its chunks the transfer must get copied to reach beyond the region. A read has fetched a
      chunk when its copy faults, and needs one less. */
  function ChunksInside(q: Request, page: nat): nat
    requires page > 0
  {
    Inside(q) / page + if q.reading then 0 else 1
  }

  /** The same in terms of the request and its user copies. Without wrap-around only a late two-byte write leaves
      the region, and it always does; a small request whose sum wraps always does; a large one does exactly if
      the user copies of its chunks up to the region's end go through. */
  lemma StraysByRequest(space: nat, q: Request, page: nat)
    requires page > 0 && Accepted(q)
    ensures LeavesRegion(space, q, page) <==>
      if IsSmall(q.cmd.size) then Wraps(q) || LateTwoByteWrite(q)
      else
        && Wraps(q)
        && CopiesGoThrough(space, q.cmd.userAddr, q.cmd.size, page, q.faults, ChunksInside(q, page))
  {
    Routing(q.cmd);
    if !IsSmall(q.cmd.size) && Wraps(q) {
      ReachesBeyond(space, q.cmd.userAddr, q.cmd.size, page, q.faults, q.reading, Inside(q), ChunksInside(q, page));
    }
    hide ChunksInside, CopiesGoThrough, Plan;
  }

  /** So a wrapped transfer that would succeed always leaves it. */
  lemma WrappedSuccessStrays(space: nat, q: Request, page: nat)
    requires page > 0 && Accepted(q) && Wraps(q)
    requires IsSmall(q.cmd.size) || Plan(space, q.cmd.userAddr, q.cmd.size, page, q.faults, 0).ok
    ensures LeavesRegion(space, q, page)
  {
    StraysByRequest(space, q, page);
    GoThroughMeaning(space, q.cmd.userAddr, q.cmd.size, page, q.faults, ChunksInside(q, page));
    hide Plan, CopiesGoThrough;
  }

  /** Both ways of leaving the region occur, and so does a wrapped request that an early fault saves. */
  lemma StrayExamples(a: Answers)
    ensures Strays(0x1_0000_0000, Request(Cmd(0, 0, 0x10000, 0, 0xFFFF_FFFF), false, true, a, []), 4096)
    ensures Strays(0, Request(Cmd(0, 0, 0x1FFFE, 0, 2), false, false, a, []), 4096)
    ensures
      var q := Request(Cmd(0, 0, 0x10000, 0, 0xFFFF_FFFF), false, false, a, [Partial(0, [])]);
      Accepted(q) && Wraps(q) && !LeavesRegion(0x1_0000_0000, q, 4096)
  {
    WrappedRead(a);
    SavedByFault(a);
    hide Touched, LeavesRegion;
    StraysByRequest(0, Request(Cmd(0, 0, 0x1FFFE, 0, 2), false, false, a, []), 4096);
  }

  lemma WrappedRead(a: Answers)
    ensures Strays(0x1_0000_0000, Request(Cmd(0, 0, 0x10000, 0, 0xFFFF_FFFF), false, true, a, []), 4096)
  {
    FaultFree(0x1_0000_0000, 0, 0xFFFF_FFFF, 4096, 0);
    hide Plan, LeavesRegion;
    WrappedSuccessStrays(0x1_0000_0000, Request(Cmd(0, 0, 0x10000, 0, 0xFFFF_FFFF), false, true, a, []), 4096);
  }

  lemma SavedByFault(a: Answers)
    ensures
      var q := Request(Cmd(0, 0, 0x10000, 0, 0xFFFF_FFFF), false, false, a, [Partial(0, [])]);
      Accepted(q) && Wraps(q) && !LeavesRegion(0x1_0000_0000, q, 4096)
  {
    PlanStep(0x1_0000_0000, 0, 0xFFFF_FFFF, 4096, [Partial(0, [])], 0);
    hide Plan;
  }

  lemma {:induction false} FaultFree(space: nat, ua: nat, len: nat, page: nat, k: nat)
    requires page > 0 && ua + len <= space
    ensures Plan(space, ua, len, page, [], k).ok
    decreases len
  {
    if len > 0 { FaultFree(space, ua + Chunk(len, page), len - Chunk(len, page), page, k + 1); }
  }

  /** Every device byte a call touches lies in the region it is routed to, unless the call strays; a
      command's lie in the enable register. */
  lemma TouchesStayInRegion(space: nat, q: Request, page: nat, a: nat)
    requires page > 0 && !Strays(space, q, page) && a in Footprint(TraceOf(space, q, page))
    ensures a < RegionSize(Route(q.cmd))
    ensures IsCommand(q) ==> InRegister(a)
  {
    if Accepted(q) {
      TouchesExactly(space, q, page, a);
    } else {
      CommandTouches(|CommandTrace(q.cmd.command, q.answers)|, a);
    }
  }

  lemma {:induction false} CommandTouches(n: nat, a: nat)
    requires a in Footprint(seq(n, _ => Access(ENABLE_REGISTER, 4, true)))
    ensures InRegister(a)
  {
    var t := seq(n, _ => Access(ENABLE_REGISTER, 4, true));
    if n > 0 {
      assert t[1..] == seq(n - 1, _ => Access(ENABLE_REGISTER, 4, true));
      SpanHas(ENABLE_REGISTER, 4, a);
      if a in Footprint(t[1..]) { CommandTouches(n - 1, a); }
    }
  }

  // ---------------------------------------------------------------- the device object

  class Aclsoc {
    const bar0: Bus
    const bar2: Bus
    const buffer: array<byte>
    var sem: nat
    var globalMemSegment: u32

    ghost predicate Valid(user: array<byte>)
      reads this
    {
      && bar0.mem.Length == BAR0_SIZE && bar2.mem.Length == BAR2_SIZE
      && buffer.Length > 0 && buffer.Length % 4 == 0
      && bar0 != bar2
      && bar0.mem != bar2.mem && bar0.mem != buffer && bar2.mem != buffer
      && user != bar0.mem && user != bar2.mem && user != buffer
      && sem <= 1
    }

    ghost function Contents(user: array<byte>): (m: Mem)
      requires Valid(user)
      reads this, bar0.mem, bar2.mem, user
      ensures m.WellSized()
    {
      Mem(bar0.mem[..], bar2.mem[..], user[..])
    }

    ghost function Region(bar: u32): Bus {
      if bar == 0 then bar0 else bar2
    }

    constructor (pageSize: nat)
      requires pageSize > 0 && pageSize % 4 == 0
      ensures bar0.mem.Length == BAR0_SIZE && bar2.mem.Length == BAR2_SIZE && buffer.Length == pageSize
      ensures fresh(bar0.mem) && fresh(bar2.mem) && fresh(buffer)
      ensures sem == 1
    {
      bar0 := new Bus(BAR0_SIZE);
      bar2 := new Bus(BAR2_SIZE);
      buffer := new byte[pageSize](_ => 0);
      sem := 1;
      globalMemSegment := 0;
    }

    /** down_interruptible: takes the semaphore, if need be after waiting for others to release it, or fails
        because a signal ended the wait. */
    method Down(released: nat) returns (failed: bool)
      requires sem > 0 ==> released == 0
      modifies this`sem
      ensures failed <==> old(sem) + released == 0
      ensures sem == if failed then 0 else old(sem) + released - 1
    {
      sem := sem + released;
      failed := sem == 0;
      if !failed { sem := sem - 1; }
    }

    method Up()
      modifies this`sem
      ensures sem == old(sem) + 1
    {
      sem := sem + 1;
    }

    /** aclsoc_open: the segment starts at 0. */
    method Open(released: nat) returns (result: int)
      requires sem > 0 ==> released == 0
      modifies this`sem, this`globalMemSegment
      ensures sem == old(sem) + released
      ensures result == if sem == 0 then -ERESTARTSYS else 0
      ensures globalMemSegment == if result == 0 then 0 else old(globalMemSegment)
    {
      var failed := Down(released);
      if failed { return -ERESTARTSYS; }
      globalMemSegment := 0;
      Up();
      return 0;
    }

    /** aclsoc_get_checked_addr: the bounds check on a wrapped sum. */
    method GetCheckedAddr(bar: u32, deviceAddr: u32, count: u32) returns (errno: int, addr: u32)
      ensures errno == if PassesCheck(bar, deviceAddr, count) then 0 else -EFAULT
      ensures errno == 0 ==> addr == deviceAddr
    {
      addr := 0;
      if bar != 0 && bar != 2 { return -EFAULT, 0; }
      if Wrapped(deviceAddr, count) > RegionSize(bar) { return -EFAULT, 0; }
      return 0, deviceAddr;
    }

    /** The switch over the size. */
    method Transfer(bus: Bus, addr: nat, user: array<byte>, q: Request) returns (result: int)
      requires buffer.Length > 0 && buffer.Length % 4 == 0
      requires bus.mem.Length == RegionSize(Route(q.cmd)) && addr == q.cmd.deviceAddr
      requires !LeavesRegion(user.Length, q, buffer.Length)
      requires bus.mem != buffer && bus.mem != user && user != buffer
      modifies bus`trace, bus.mem, user, buffer
      ensures Effect(bus.mem[..], user[..], result) ==
        if IsSmall(q.cmd.size) then
          SmallEffect(old(bus.mem[..]), addr, old(user[..]), q.cmd.userAddr, q.cmd.size, q.faults, q.reading)
        else
          LargeEffect(old(bus.mem[..]), addr, old(user[..]), q.cmd.userAddr, q.cmd.size, buffer.Length, q.faults, 0,
                      q.reading)
      ensures Accepted(q) ==> bus.trace == old(bus.trace) + TraceOf(user.Length, q, buffer.Length)
    {
      hide LargeEffect, SmallEffect, Touched, Touches, CommandTrace;
      var size := q.cmd.size;
      if size == 1 || size == 2 || size == 4 {
        if q.reading {
          result := ReadSmall(bus, addr, user, q.cmd.userAddr, size, q.faults);
        } else {
          result := WriteSmall(bus, addr, user, q.cmd.userAddr, size, q.faults);
        }
      } else {
        result := RwLarge(bus, addr, user, q.cmd.userAddr, size, buffer, q.reading, q.faults);
      }
    }

    /** copy_from_user of the request block. */
    method FetchBlock(user: array<byte>, c: Call) returns (q: Request)
      ensures q == Fetch(user[..], c)
    {
      var block := new byte[BLOCK_SIZE](_ => 0);
      var missed := CopyFromUser(block, user, c.block, BLOCK_SIZE, c.blockCopy);
      assert block[..] == Fetched(user[..], c.block, BLOCK_SIZE, c.blockCopy);
      return Request(BlockContents(block[..]), missed > 0, c.reading, c.answers, c.faults);
    }

    /** The part of aclsoc_rw between acquiring and releasing the semaphore. The branch for the DMA BAR is dead. */
    method Dispatch(user: array<byte>, q: Request) returns (outcome: Outcome)
      requires Valid(user)
      modifies bar0`trace, bar2`trace, bar0.mem, bar2.mem, buffer, user
      ensures outcome == Serve(old(Contents(user)), q, buffer.Length).outcome
      ensures !outcome.Stray? ==> Contents(user) == Serve(old(Contents(user)), q, buffer.Length).mem
      ensures !outcome.Stray? ==>
        var bus := Region(Route(q.cmd));
        bus.trace == old(bus.trace) + TraceOf(user.Length, q, buffer.Length)
      ensures Route(q.cmd) == 0 ==> bar2.trace == old(bar2.trace)
      ensures Route(q.cmd) != 0 ==> bar0.trace == old(bar0.trace)
    {
      hide SmallEffect, LargeEffect, CommandEffect, SmallTrace, CommandTrace, Touched, Touches, Extent;
      if q.cmdFaults { return Returned(-EFAULT); }
      if q.cmd.barId == CMD_BAR {
        var result := ExecCmd(bar2, user, q.cmd, q.answers, q.faults);
        return Returned(result);
      }
      var barId: u32 := 2;
      if q.cmd.barId == 0 && AsSigned(q.cmd.deviceAddr) >= WINDOW_BASE
        && Wrapped(q.cmd.deviceAddr, q.cmd.size) <= WINDOW_BASE + WINDOW_SIZE {
        barId := 0;
      }
      if barId == DMA_BAR { assert false; }
      var errno, addr := GetCheckedAddr(barId, q.cmd.deviceAddr, q.cmd.size);
      if errno != 0 { return Returned(-EFAULT); }
      if LeavesRegion(user.Length, q, buffer.Length) { return Stray; }
      var bus := if barId == 0 then bar0 else bar2;
      var result := Transfer(bus, addr, user, q);
      return Returned(result);
    }

    /** aclsoc_rw. Every path after the semaphore is taken gives it back exactly once. The call does nothing while
        it waits, so its starting state is the one in which the wait, if any, ends. */
    method Rw(user: array<byte>, c: Call, released: nat) returns (outcome: Outcome)
      requires Valid(user) && (sem > 0 ==> released == 0) && released <= 1
      modifies this`sem, bar0`trace, bar2`trace, bar0.mem, bar2.mem, buffer, user
      ensures Valid(user) && sem == old(sem) + released
      ensures sem == 0 ==> outcome == Returned(-ERESTARTSYS) && Contents(user) == old(Contents(user))
      ensures sem > 0 ==> outcome == ServeCall(old(Contents(user)), c, buffer.Length).outcome
      ensures sem > 0 && !outcome.Stray? ==> Contents(user) == ServeCall(old(Contents(user)), c, buffer.Length).mem
      ensures sem > 0 && !outcome.Stray? ==>
        var q := Fetch(old(user[..]), c);
        var bus := Region(Route(q.cmd));
        bus.trace == old(bus.trace) + TraceOf(user.Length, q, buffer.Length)
    {
      hide Serve, TraceOf, Fetch, Route;
      var failed := Down(released);
      if failed { return Returned(-ERESTARTSYS); }
      var q := FetchBlock(user, c);
      outcome := Dispatch(user, q);
      Up();
    }

    /** A program's calls, one after the other after an open(), until one strays: memory is what the requests
        fetched do to a flat memory, and the segment is still 0. */
    method Session(user: array<byte>, calls: seq<Call>) returns (strayed: bool)
      requires Valid(user) && sem == 1
      modifies this`sem, this`globalMemSegment, bar0`trace, bar2`trace, bar0.mem, bar2.mem, buffer, user
      ensures Valid(user) && sem == 1 && globalMemSegment == 0
      ensures
        var m, page := old(Contents(user)), buffer.Length;
        strayed <==> exists q :: q in Requests(m, calls, page) && Strays(|m.user|, q, page)
      ensures !strayed ==>
        Contents(user) == Run(old(Contents(user)), Requests(old(Contents(user)), calls, buffer.Length), buffer.Length)
    {
      hide Serve, Fetch, Strays;
      ghost var m, page := Contents(user), buffer.Length;
      var _ := Open(0);
      for i := 0 to |calls|
        invariant Valid(user) && sem == 1 && globalMemSegment == 0 && |Contents(user).user| == |m.user|
        invariant Run(Contents(user), Requests(Contents(user), calls[i..], page), page) ==
          Run(m, Requests(m, calls, page), page)
        invariant forall q :: q in Requests(m, calls, page) && Strays(|m.user|, q, page) ==>
          q in Requests(Contents(user), calls[i..], page)
        invariant forall q :: q in Requests(Contents(user), calls[i..], page) ==> q in Requests(m, calls, page)
      {
        ghost var now := Contents(user);
        assert calls[i..][1..] == calls[i + 1..];
        RequestsCons(now, calls[i..], page);
        StrayServed(now, Fetch(now.user, calls[i]), page);
        var outcome := Rw(user, calls[i], 0);
        if outcome.Stray? { return true; }
      }
      return false;
    }
  }

  // ---------------------------------------------------------------- reads return the last writes

  /** Requests served one after the other. */
  function Run(m: Mem, qs: seq<Request>, page: nat): (r: Mem)
    requires m.WellSized() && page > 0
    ensures r.WellSized() && |r.user| == |m.user|
    decreases qs
  {
    if qs == [] then m else Run(Serve(m, qs[0], page).mem, qs[1..], page)
  }

  /** The requests that calls made one after the other turn out to be: each block is fetched when its turn
      comes, from memory as the calls before it left it. */
  function Requests(m: Mem, calls: seq<Call>, page: nat): (qs: seq<Request>)
    requires m.WellSized() && page > 0
    ensures |qs| == |calls|
    decreases calls
  {
    if calls == [] then []
    else [Fetch(m.user, calls[0])] + Requests(ServeCall(m, calls[0], page).mem, calls[1..], page)
  }

  lemma RequestsCons(m: Mem, calls: seq<Call>, page: nat)
    requires m.WellSized() && page > 0 && calls != []
    ensures
      var q, after := Fetch(m.user, calls[0]), ServeCall(m, calls[0], page).mem;
      && Requests(m, calls, page) == [q] + Requests(after, calls[1..], page)
      && Run(m, Requests(m, calls, page), page) == Run(after, Requests(after, calls[1..], page), page)
  {
  }

  lemma StrayServed(m: Mem, q: Request, page: nat)
    requires m.WellSized() && page > 0
    ensures Serve(m, q, page).outcome.Stray? <==> Strays(|m.user|, q, page)
  {
  }

  /** A write that stores to byte `a` of a region, successful or not. */
  predicate Stores(space: nat, q: Request, page: nat, bar: u32, a: nat)
    requires page > 0
  {
    !q.reading && Accepted(q) && Route(q.cmd) == bar
    && q.cmd.deviceAddr <= a < q.cmd.deviceAddr + Extent(space, q, page)
  }

  /** What it stores there: a small write its kernel variable, a large one the user's byte. */
  function StoredByte(user: seq<byte>, q: Request, page: nat, bar: u32, a: nat): byte
    requires page > 0 && Stores(|user|, q, page, bar, a)
  {
    var size, ua, i := q.cmd.size, q.cmd.userAddr, a - q.cmd.deviceAddr;
    PlanBounds(|user|, ua, size, page, q.faults, 0);
    if IsSmall(size) then Fetched(user, ua, Width(size, false), CopyAt(q.faults, Deciding(size, false)))[i]
    else user[ua + i]
  }

  /** A read request that covers byte `a` of a region. */
  predicate Reads(q: Request, bar: u32, a: nat) {
    q.reading && Accepted(q) && Route(q.cmd) == bar && q.cmd.deviceAddr <= a < q.cmd.deviceAddr + q.cmd.size
  }

  /** The request is a command that writes the interrupt enable register, of which `a` is a byte. */
  predicate Arms(q: Request, bar: u32, a: nat) {
    IsCommand(q) && RegisterWrites(q.cmd.command, q.answers) != [] && bar == 2 && InRegister(a)
  }

  lemma LargeFrame(window: seq<byte>, addr: nat, user: seq<byte>, ua: nat, len: nat, page: nat, f: Faults,
                   reading: bool, a: nat)
    requires page > 0 && StaysIn(|window|, addr, |user|, ua, len, page, f, 0, reading) && a < |window|
    ensures
      var n := if reading then 0 else Touched(|user|, ua, len, page, f, 0, false);
      && (n > 0 ==> ua + n <= |user|)
      && LargeEffect(window, addr, user, ua, len, page, f, 0, reading).window[a] ==
           if addr <= a < addr + n then user[ua + (a - addr)] else window[a]
  {
    PlanBounds(|user|, ua, len, page, f, 0);
  }

  /** A request leaves every device byte alone that it does not store to, fault or no fault. */
  lemma ServeFrame(m: Mem, q: Request, page: nat, bar: u32, a: nat)
    requires m.WellSized() && page > 0 && (bar == 0 || bar == 2) && a < RegionSize(bar)
    requires !Stores(|m.user|, q, page, bar, a) && !Strays(|m.user|, q, page) && !Arms(q, bar, a)
    ensures Serve(m, q, page).mem.Window(bar)[a] == m.Window(bar)[a]
  {
    if IsCommand(q) {
      CommandFrame(m.bar2, m.user, q.cmd, q.answers, q.faults);
    } else if Accepted(q) && Route(q.cmd) == bar && !IsSmall(q.cmd.size) {
      LargeFrame(m.Window(bar), q.cmd.deviceAddr, m.user, q.cmd.userAddr, q.cmd.size, page, q.faults, q.reading, a);
    }
  }

  lemma {:induction false} RunFrame(m: Mem, qs: seq<Request>, page: nat, bar: u32, a: nat)
    requires m.WellSized() && page > 0 && (bar == 0 || bar == 2) && a < RegionSize(bar)
    requires forall q <- qs :: !Stores(|m.user|, q, page, bar, a) && !Strays(|m.user|, q, page) && !Arms(q, bar, a)
    ensures Run(m, qs, page).Window(bar)[a] == m.Window(bar)[a]
    decreases qs
  {
    if qs != [] {
      ServeFrame(m, qs[0], page, bar, a);
      RunFrame(Serve(m, qs[0], page).mem, qs[1..], page, bar, a);
    }
  }

  /** A store lands, whether or not the write goes on to fail. */
  lemma StoreLands(m: Mem, q: Request, page: nat, bar: u32, a: nat)
    requires m.WellSized() && page > 0 && (bar == 0 || bar == 2)
    requires Stores(|m.user|, q, page, bar, a) && !Strays(|m.user|, q, page)
    ensures a < RegionSize(bar) && Serve(m, q, page).mem.Window(bar)[a] == StoredByte(m.user, q, page, bar, a)
  {
    if !IsSmall(q.cmd.size) {
      LargeFrame(m.Window(bar), q.cmd.deviceAddr, m.user, q.cmd.userAddr, q.cmd.size, page, q.faults, false, a);
      hide LargeEffect, Plan;
    }
  }

  lemma SmallSuccess(m: Mem, q: Request, page: nat)
    requires m.WellSized() && page > 0 && Accepted(q) && IsSmall(q.cmd.size)
    requires Serve(m, q, page).outcome == Returned(0)
    ensures !FaultsAt(|m.user|, q.cmd.userAddr, Width(q.cmd.size, q.reading),
                      CopyAt(q.faults, Deciding(q.cmd.size, q.reading)))
  {
    hide Patch, Sub, Fetched, Delivered, FaultsAt;
  }

  lemma LargeStoresUsersByte(user: seq<byte>, q: Request, page: nat, bar: u32, a: nat)
    requires page > 0 && Stores(|user|, q, page, bar, a) && !IsSmall(q.cmd.size)
    ensures
      var from := q.cmd.userAddr + (a - q.cmd.deviceAddr);
      from < |user| && StoredByte(user, q, page, bar, a) == user[from]
  {
    PlanBounds(|user|, q.cmd.userAddr, q.cmd.size, page, q.faults, 0);
  }

  lemma SmallStoresUsersByte(user: seq<byte>, q: Request, page: nat, bar: u32, a: nat)
    requires page > 0 && Stores(|user|, q, page, bar, a) && IsSmall(q.cmd.size)
    requires !FaultsAt(|user|, q.cmd.userAddr, Width(q.cmd.size, false), CopyAt(q.faults, Deciding(q.cmd.size, false)))
    ensures
      var from := q.cmd.userAddr + (a - q.cmd.deviceAddr);
      from < |user| && StoredByte(user, q, page, bar, a) == user[from]
  {
    hide Route, Wrapped;
  }

  /** If the write succeeds or is a large one, what it stores is the user's byte. */
  lemma StoresUsersByte(m: Mem, q: Request, page: nat, bar: u32, a: nat)
    requires m.WellSized() && page > 0 && Stores(|m.user|, q, page, bar, a) && !Strays(|m.user|, q, page)
    requires Serve(m, q, page).outcome == Returned(0) || !IsSmall(q.cmd.size)
    ensures
      var from := q.cmd.userAddr + (a - q.cmd.deviceAddr);
      from < |m.user| && StoredByte(m.user, q, page, bar, a) == m.user[from]
  {
    hide Serve, Strays, StoredByte;
    if IsSmall(q.cmd.size) {
      SmallSuccess(m, q, page);
      SmallStoresUsersByte(m.user, q, page, bar, a);
    } else {
      LargeStoresUsersByte(m.user, q, page, bar, a);
    }
  }

  lemma ReadDelivers(m: Mem, q: Request, page: nat, bar: u32, a: nat)
    requires m.WellSized() && page > 0 && (bar == 0 || bar == 2)
    requires Reads(q, bar, a) && Serve(m, q, page).outcome == Returned(0)
    ensures a < RegionSize(bar) && q.cmd.userAddr + (a - q.cmd.deviceAddr) < |m.user|
    ensures Serve(m, q, page).mem.user[q.cmd.userAddr + (a - q.cmd.deviceAddr)] == m.Window(bar)[a]
  {
    if !IsSmall(q.cmd.size) {
      SuccessCopies(m.Window(bar), q.cmd.deviceAddr, m.user, q.cmd.userAddr, q.cmd.size, page, q.faults, true);
      hide LargeEffect, Touched;
    }
  }

  /** A successful read returns, byte for byte, what was last stored, whatever the sizes of the requests,
      whatever is read, written or commanded elsewhere in between, and even if the write failed after storing
      the byte. The enable register is left out: the interrupt handler writes it at any time. */
  lemma ReadReturnsLastStore(m: Mem, w: Request, between: seq<Request>, r: Request, page: nat, bar: u32, a: nat)
    requires m.WellSized() && page > 0 && (bar == 0 || bar == 2) && !(bar == 2 && InRegister(a))
    requires Stores(|m.user|, w, page, bar, a) && !Strays(|m.user|, w, page)
    requires forall q <- between :: !Stores(|m.user|, q, page, bar, a) && !Strays(|m.user|, q, page)
    requires Reads(r, bar, a) && Serve(Run(Serve(m, w, page).mem, between, page), r, page).outcome == Returned(0)
    ensures
      var end := Serve(Run(Serve(m, w, page).mem, between, page), r, page).mem;
      var from, to := w.cmd.userAddr + (a - w.cmd.deviceAddr), r.cmd.userAddr + (a - r.cmd.deviceAddr);
      && to < |m.user| && end.user[to] == StoredByte(m.user, w, page, bar, a)
      && (Serve(m, w, page).outcome == Returned(0) || !IsSmall(w.cmd.size) ==>
            from < |m.user| && end.user[to] == m.user[from])
  {
    StoreLands(m, w, page, bar, a);
    if Serve(m, w, page).outcome == Returned(0) || !IsSmall(w.cmd.size) { StoresUsersByte(m, w, page, bar, a); }
    RunFrame(Serve(m, w, page).mem, between, page, bar, a);
    ReadDelivers(Run(Serve(m, w, page).mem, between, page), r, page, bar, a);
  }

  lemma {:induction false} RunConcat(m: Mem, a: seq<Request>, b: seq<Request>, page: nat)
    requires m.WellSized() && page > 0
    ensures Run(m, a + b, page) == Run(Run(m, a, page), b, page)
    decreases a
  {
    hide Serve;
    if a == [] {
      assert a + b == b;
    } else {
      assert (a + b)[1..] == a[1..] + b;
      RunConcat(Serve(m, a[0], page).mem, a[1..], b, page);
    }
  }

  lemma RunSnoc(m: Mem, qs: seq<Request>, q: Request, page: nat)
    requires m.WellSized() && page > 0
    ensures Run(m, qs + [q], page) == Serve(Run(m, qs, page), q, page).mem
  {
    RunConcat(m, qs, [q], page);
    hide Serve;
    assert [q][1..] == [];
  }

  predicate NoRequestStrays(space: nat, qs: seq<Request>, page: nat)
    requires page > 0
  {
    forall q <- qs :: !Strays(space, q, page)
  }

  predicate NoRequestStores(space: nat, qs: seq<Request>, page: nat, bar: u32, a: nat)
    requires page > 0
  {
    forall q <- qs :: !Stores(space, q, page, bar, a)
  }

  /** The last request of a run reads byte `a`, which `w` stores and nothing after it, and nothing strays. */
  predicate LastStore(space: nat, page: nat, pre: seq<Request>, w: Request, between: seq<Request>, r: Request,
                      bar: u32, a: nat)
    requires page > 0
  {
    && (bar == 0 || bar == 2) && !(bar == 2 && InRegister(a)) && Reads(r, bar, a)
    && NoRequestStrays(space, pre, page) && !Strays(space, w, page) && NoRequestStrays(space, between, page)
    && Stores(space, w, page, bar, a) && NoRequestStores(space, between, page, bar, a)
  }

  lemma RunParts(m: Mem, pre: seq<Request>, w: Request, between: seq<Request>, r: Request, page: nat)
    requires m.WellSized() && page > 0
    ensures
      var mid := Run(Serve(Run(m, pre, page), w, page).mem, between, page);
      Run(m, pre + [w] + between, page) == mid && Run(m, pre + [w] + between + [r], page) == Serve(mid, r, page).mem
  {
    hide Serve, Run;
    RunSnoc(m, pre, w, page);
    RunConcat(m, pre + [w], between, page);
    RunSnoc(m, pre + [w] + between, r, page);
  }

  predicate Succeeds(m: Mem, q: Request, page: nat)
    requires m.WellSized() && page > 0
  {
    Serve(m, q, page).outcome == Returned(0)
  }

  /** User memory `now` holds at byte `a` of `r`'s range what `w`, given user memory `before`, stored there. */
  predicate HoldsStored(now: seq<byte>, r: Request, before: seq<byte>, w: Request, page: nat, bar: u32, a: nat)
    requires page > 0
  {
    Stores(|before|, w, page, bar, a) && Reads(r, bar, a) &&
    var to := r.cmd.userAddr + (a - r.cmd.deviceAddr);
    to < |now| && now[to] == StoredByte(before, w, page, bar, a)
  }

  lemma LastStoreHolds(m: Mem, w: Request, between: seq<Request>, r: Request, page: nat, bar: u32, a: nat)
    requires m.WellSized() && page > 0 && LastStore(|m.user|, page, [], w, between, r, bar, a)
    requires Succeeds(Run(Serve(m, w, page).mem, between, page), r, page)
    ensures HoldsStored(Serve(Run(Serve(m, w, page).mem, between, page), r, page).mem.user, r, m.user, w, page, bar, a)
  {
    hide Serve, Run, StoredByte, Stores, Strays, Reads;
    ReadReturnsLastStore(m, w, between, r, page, bar, a);
  }

  /** The same at the end of any run: its last request reads what an earlier one stored, if none between them
      has stored to the byte. */
  lemma LastStoreAlone(space: nat, page: nat, pre: seq<Request>, w: Request, between: seq<Request>, r: Request,
                       bar: u32, a: nat)
    requires page > 0 && LastStore(space, page, pre, w, between, r, bar, a)
    ensures LastStore(space, page, [], w, between, r, bar, a)
  {
  }

  lemma RunReadsLastStore(m: Mem, pre: seq<Request>, w: Request, between: seq<Request>, r: Request, page: nat,
                          bar: u32, a: nat)
    requires m.WellSized() && page > 0 && LastStore(|m.user|, page, pre, w, between, r, bar, a)
    requires Succeeds(Run(m, pre + [w] + between, page), r, page)
    ensures HoldsStored(Run(m, pre + [w] + between + [r], page).user, r, Run(m, pre, page).user, w, page, bar, a)
  {
    hide *;
    hide Run;
    RunParts(m, pre, w, between, r, page);
    LastStoreAlone(|m.user|, page, pre, w, between, r, bar, a);
    LastStoreHolds(Run(m, pre, page), w, between, r, page, bar, a);
  }
}
