/**
 The byte-moving half of aclsoc_fileio.c: aclsoc_rw_large, aclsoc_read_small and
 aclsoc_write_small, over a mapped device region, a user address space and the
 page-sized bounce buffer.
 */
module Transfer {
  import opened Bytes
  import opened Common

  // ---------------------------------------------------------------- copies to and from user space

  /** How one user copy goes: it is only as good as its addresses, or it faults after a prefix.
      `rest` is what a kernel-side destination holds after a fault, as far as the prefix
      did not overwrite it. */
  datatype Copy = Whole | Partial(moved: nat, rest: seq<byte>)

  /** The outcomes of the user copies of one call, in order; past the end of the list they succeed. */
  type Faults = seq<Copy>

  function CopyAt(f: Faults, k: nat): Copy {
    if k < |f| then f[k] else Whole
  }

  /** A copy of `n` bytes at `at` in a user space of `space` bytes faults. */
  predicate FaultsAt(space: nat, at: nat, n: nat, c: Copy) {
    at + n > space || c.Partial?
  }

  /** How many bytes that copy moves. */
  function Moved(space: nat, at: nat, n: nat, c: Copy): (m: nat)
    requires n > 0
    ensures m <= n
    ensures m < n <==> FaultsAt(space, at, n, c)
    ensures m > 0 ==> at + m <= space
  {
    var reachable := if at >= space then 0 else if at + n > space then space - at else n;
    match c
    case Whole => reachable
    case Partial(k, _) =>
      if reachable == 0 then 0
      else if k < reachable && k < n then k
      else if reachable < n then reachable
      else n - 1
  }

  /** What a kernel-side destination of `n` bytes holds after copying from user space. */
  function Fetched(user: seq<byte>, at: nat, n: nat, c: Copy): (bs: seq<byte>)
    requires n > 0
    ensures |bs| == n
    ensures forall i :: 0 <= i < Moved(|user|, at, n, c) ==> bs[i] == user[at + i]
    ensures !FaultsAt(|user|, at, n, c) ==> bs == Sub(user, at, n)
  {
    var m := Moved(|user|, at, n, c);
    seq(n, i requires 0 <= i < n => if i < m then user[at + i] else if c.Partial? && i < |c.rest| then c.rest[i] else 0)
  }

  /** User memory after copying `bs` to it. */
  function Delivered(user: seq<byte>, at: nat, bs: seq<byte>, c: Copy): (r: seq<byte>)
    requires bs != []
    ensures |r| == |user|
    ensures !FaultsAt(|user|, at, |bs|, c) ==> r == Patch(user, at, bs)
  {
    Patch(user, at, bs[..Moved(|user|, at, |bs|, c)])
  }

  /** A copy that faults can have moved any shorter prefix that user space has, and no other. */
  lemma AnyPrefixCanMove(space: nat, at: nat, n: nat, j: nat, rest: seq<byte>)
    requires n > 0
    ensures (j < n && (j > 0 ==> at + j <= space)) <==>
      exists c: Copy :: FaultsAt(space, at, n, c) && Moved(space, at, n, c) == j
    ensures j < n && (j > 0 ==> at + j <= space) ==>
      FaultsAt(space, at, n, Partial(j, rest)) && Moved(space, at, n, Partial(j, rest)) == j
  {
    if j < n && (j > 0 ==> at + j <= space) {
      assert FaultsAt(space, at, n, Partial(j, rest)) && Moved(space, at, n, Partial(j, rest)) == j;
    }
  }

  /** After it a kernel-side destination holds that prefix and, beyond it, can hold anything. */
  lemma AnythingCanRemain(user: seq<byte>, at: nat, n: nat, j: nat, rest: seq<byte>)
    requires j < n == |rest| && at + j <= |user|
    ensures Fetched(user, at, n, Partial(j, rest)) == user[at..at + j] + rest[j..]
  {
    AnyPrefixCanMove(|user|, at, n, j, rest);
  }

  /** User space has the prefix that was moved to it and is otherwise as before. */
  lemma DeliveredExactly(user: seq<byte>, at: nat, bs: seq<byte>, c: Copy, i: nat)
    requires bs != [] && i < |user|
    ensures Delivered(user, at, bs, c)[i] ==
      if at <= i < at + Moved(|user|, at, |bs|, c) then bs[i - at] else user[i]
  {
  }

  method CopyFromUser(to: array<byte>, user: array<byte>, at: nat, n: nat, c: Copy) returns (missed: nat)
    requires 0 < n <= to.Length && to != user
    modifies to
    ensures missed == n - Moved(user.Length, at, n, c)
    ensures to[..] == Patch(old(to[..]), 0, Fetched(user[..], at, n, c))
  {
    var bs := Fetched(user[..], at, n, c);
    forall i | 0 <= i < n { to[i] := bs[i]; }
    missed := n - Moved(user.Length, at, n, c);
  }

  method CopyToUser(user: array<byte>, at: nat, from: seq<byte>, c: Copy) returns (missed: nat)
    requires from != []
    modifies user
    ensures missed == |from| - Moved(user.Length, at, |from|, c)
    ensures user[..] == Delivered(old(user[..]), at, from, c)
  {
    var m := Moved(user.Length, at, |from|, c);
    forall i | 0 <= i < m { user[at + i] := from[i]; }
    missed := |from| - m;
  }

  // ---------------------------------------------------------------- the device and its bus trace

  /** One bus access: `width` bytes at `addr`. */
  datatype Access = Access(addr: nat, width: nat, write: bool)

  /** The addresses an access touches, in order. */
  function Span(addr: nat, n: nat): (r: seq<nat>)
    ensures |r| == n
    ensures forall i :: 0 <= i < n ==> r[i] == addr + i
  {
    seq(n, i => addr + i)
  }

  /** Every byte address a trace touches, in order and with repetitions. */
  function Footprint(trace: seq<Access>): seq<nat> {
    if trace == [] then [] else Span(trace[0].addr, trace[0].width) + Footprint(trace[1..])
  }

  /** Words while four bytes are left, then single bytes. */
  function Touches(addr: nat, n: nat, write: bool): seq<Access>
    decreases n
  {
    if n >= 4 then [Access(addr, 4, write)] + Touches(addr + 4, n - 4, write)
    else if n > 0 then [Access(addr, 1, write)] + Touches(addr + 1, n - 1, write)
    else []
  }

  /** A mapped register window: plain memory behind readb/readw/readl and writeb/writew/writel. */
  class Bus {
    const mem: array<byte>
    ghost var trace: seq<Access>

    constructor (size: nat)
      ensures fresh(mem) && mem.Length == size && trace == []
    {
      mem := new byte[size](_ => 0);
      trace := [];
    }

    method Read(addr: nat, width: nat) returns (v: nat)
      requires addr + width <= mem.Length
      modifies this`trace
      ensures v == Decode(Sub(mem[..], addr, width))
      ensures trace == old(trace) + [Access(addr, width, false)]
    {
      v := Decode(Sub(mem[..], addr, width));
      trace := trace + [Access(addr, width, false)];
    }

    method Write(v: nat, addr: nat, width: nat)
      requires addr + width <= mem.Length
      modifies this`trace, mem
      ensures mem[..] == Patch(old(mem[..]), addr, Encode(v, width))
      ensures trace == old(trace) + [Access(addr, width, true)]
    {
      var bs := Encode(v, width);
      forall i | 0 <= i < width { mem[addr + i] := bs[i]; }
      trace := trace + [Access(addr, width, true)];
    }
  }

  lemma {:induction false} TouchesSplit(addr: nat, a: nat, b: nat, write: bool)
    requires a % 4 == 0
    ensures Touches(addr, a + b, write) == Touches(addr, a, write) + Touches(addr + a, b, write)
    decreases a
  {
    if a > 0 { TouchesSplit(addr + 4, a - 4, b, write); }
  }

  lemma {:induction false} TouchesSnocByte(addr: nat, r: nat, write: bool)
    requires r < 3
    ensures Touches(addr, r + 1, write) == Touches(addr, r, write) + [Access(addr + r, 1, write)]
    decreases r
  {
    if r > 0 { TouchesSnocByte(addr + 1, r - 1, write); }
  }

  /** Each byte of the range is touched exactly once, in ascending order. */
  lemma {:induction false} TouchesOnceAscending(addr: nat, n: nat, write: bool)
    ensures Footprint(Touches(addr, n, write)) == Span(addr, n)
    decreases n
  {
    if n > 0 {
      var w := if n >= 4 then 4 else 1;
      var rest := Touches(addr + w, n - w, write);
      assert Touches(addr, n, write) == [Access(addr, w, write)] + rest;
      hide Touches, Footprint, Span;
      TouchesOnceAscending(addr + w, n - w, write);
      FootprintCons(Access(addr, w, write), rest);
      SpanSplits(addr, w, n - w);
    }
  }

  lemma SpanSplits(addr: nat, a: nat, b: nat)
    ensures Span(addr, a) + Span(addr + a, b) == Span(addr, a + b)
  {
  }

  lemma FootprintCons(a: Access, rest: seq<Access>)
    ensures Footprint([a] + rest) == Span(a.addr, a.width) + Footprint(rest)
  {
    assert ([a] + rest)[1..] == rest;
  }

  /** The number of bus accesses, and the direction and width of each. */
  lemma {:induction false} TouchesCount(addr: nat, n: nat, write: bool)
    ensures |Touches(addr, n, write)| == n / 4 + n % 4
    ensures forall i :: 0 <= i < |Touches(addr, n, write)| ==>
      Touches(addr, n, write)[i] ==
        if i < n / 4 then Access(addr + 4 * i, 4, write) else Access(addr + n / 4 * 4 + (i - n / 4), 1, write)
    decreases n
  {
    if n >= 4 {
      TouchesCount(addr + 4, n - 4, write);
    } else if n > 0 {
      TouchesCount(addr + 1, n - 1, write);
    }
  }

  lemma QuotientBelow(n: nat, page: nat)
    requires page > 0 && page % 4 == 0
    ensures n / page * page <= n / 4 * 4
  {
    var q, p := n / page, page / 4;
    assert q * page == 4 * (q * p) by { assert page == 4 * p; }
    assert n == q * page + n % page;
  }

  /** Byte-wide accesses occur in the last chunk only. */
  lemma ByteAccessesInLastChunk(addr: nat, n: nat, page: nat, write: bool, i: nat)
    requires page > 0 && page % 4 == 0 && i < |Touches(addr, n, write)|
    requires Touches(addr, n, write)[i].width == 1
    ensures n > 0 && Touches(addr, n, write)[i].addr >= addr + (n - 1) / page * page
  {
    TouchesCount(addr, n, write);
    QuotientBelow(n - 1, page);
  }

  // ---------------------------------------------------------------- large transfers

  function Chunk(left: nat, page: nat): nat {
    if left < page then left else page
  }

  /** How far a chunked transfer gets: `whole` bytes in `chunks` complete chunks, then, unless `ok`,
      a chunk of `next` bytes whose user copy moved only `extra`. */
  datatype Progress = Progress(whole: nat, chunks: nat, next: nat, extra: nat, ok: bool)

  /** The same progress with one more chunk of `c` bytes before it. */
  function After(c: nat, p: Progress): Progress {
    p.(whole := c + p.whole, chunks := p.chunks + 1)
  }

  function Plan(space: nat, ua: nat, len: nat, page: nat, f: Faults, k: nat): Progress
    requires page > 0
    decreases len
  {
    if len == 0 then Progress(0, 0, 0, 0, true)
    else
      var c := Chunk(len, page);
      if FaultsAt(space, ua, c, CopyAt(f, k)) then Progress(0, 0, c, Moved(space, ua, c, CopyAt(f, k)), false)
      else
        After(c, Plan(space, ua + c, len - c, page, f, k + 1))
  }

  /** The transfer stays within its length and within user space. */
  lemma {:induction false} PlanBounds(space: nat, ua: nat, len: nat, page: nat, f: Faults, k: nat)
    requires page > 0
    ensures
      var p := Plan(space, ua, len, page, f, k);
      && (if p.ok then p.whole == len && p.next == p.extra == 0
          else p.whole + p.next <= len && p.extra < p.next <= page)
      && (p.whole + p.extra > 0 ==> ua + p.whole + p.extra <= space)
    decreases len
  {
    var c := Chunk(len, page);
    if len > 0 && !FaultsAt(space, ua, c, CopyAt(f, k)) { PlanBounds(space, ua + c, len - c, page, f, k + 1); }
  }

  /** The user copy of chunk j of the transfer faults. */
  predicate ChunkFaults(space: nat, ua: nat, len: nat, page: nat, f: Faults, k: nat, j: nat)
    decreases j
  {
    len > 0 &&
    if j == 0 then FaultsAt(space, ua, Chunk(len, page), CopyAt(f, k))
    else len > page && ChunkFaults(space, ua + page, len - page, page, f, k + 1, j - 1)
  }

  /** Chunk j covers the bytes from j pages on, and its copy is the (k + j)-th of the call. */
  lemma {:induction false} ChunkFaultsMeaning(space: nat, ua: nat, len: nat, page: nat, f: Faults, k: nat, j: nat)
    requires page > 0
    ensures ChunkFaults(space, ua, len, page, f, k, j) <==>
      j * page < len && FaultsAt(space, ua + j * page, Chunk(len - j * page, page), CopyAt(f, k + j))
    decreases j
  {
    if j > 0 {
      assert j * page == page + (j - 1) * page;
      if len > page {
        ChunkFaultsMeaning(space, ua + page, len - page, page, f, k + 1, j - 1);
        assert CopyAt(f, k + j) == CopyAt(f, k + 1 + (j - 1));
      }
    }
  }

  lemma PlanStep(space: nat, ua: nat, len: nat, page: nat, f: Faults, k: nat)
    requires page > 0
    ensures
      var p, c := Plan(space, ua, len, page, f, k), Chunk(len, page);
      if len == 0 then p == Progress(0, 0, 0, 0, true)
      else if FaultsAt(space, ua, c, CopyAt(f, k)) then p == Progress(0, 0, c, Moved(space, ua, c, CopyAt(f, k)), false)
      else
        p == After(c, Plan(space, ua + c, len - c, page, f, k + 1))
  {
  }

  lemma {:induction false} NoFaultBefore(space: nat, ua: nat, len: nat, page: nat, f: Faults, k: nat, j: nat)
    requires page > 0 && (Plan(space, ua, len, page, f, k).ok || j < Plan(space, ua, len, page, f, k).chunks)
    ensures !ChunkFaults(space, ua, len, page, f, k, j)
    decreases j
  {
    PlanStep(space, ua, len, page, f, k);
    hide Plan, FaultsAt, Moved;
    if j > 0 && len > page && !FaultsAt(space, ua, page, CopyAt(f, k)) {
      NoFaultBefore(space, ua + page, len - page, page, f, k + 1, j - 1);
    }
  }

  function Pages(n: nat, page: nat): nat {
    if n == 0 then 0 else page + Pages(n - 1, page)
  }

  lemma {:induction false} PagesIsProduct(n: nat, page: nat)
    ensures Pages(n, page) == n * page
  {
    if n > 0 {
      PagesIsProduct(n - 1, page);
      assert n * page == page + (n - 1) * page;
    }
  }

  lemma {:induction false} FaultAtStop(space: nat, ua: nat, len: nat, page: nat, f: Faults, k: nat)
    requires page > 0 && !Plan(space, ua, len, page, f, k).ok
    ensures
      var p := Plan(space, ua, len, page, f, k);
      ChunkFaults(space, ua, len, page, f, k, p.chunks) && p.whole == Pages(p.chunks, page)
    decreases len
  {
    PlanStep(space, ua, len, page, f, k);
    if len <= page { PlanStep(space, ua + len, 0, page, f, k + 1); }
    hide Plan, FaultsAt, Moved;
    if len > page && !FaultsAt(space, ua, page, CopyAt(f, k)) {
      FaultAtStop(space, ua + page, len - page, page, f, k + 1);
    }
  }

  /** A transfer succeeds exactly when no chunk faults; otherwise it stops at the first chunk that does,
      with that many whole pages behind it. */
  lemma StopsAtFirstFault(space: nat, ua: nat, len: nat, page: nat, f: Faults, k: nat)
    requires page > 0
    ensures
      var p := Plan(space, ua, len, page, f, k);
      && (p.ok <==> forall j: nat :: !ChunkFaults(space, ua, len, page, f, k, j))
      && (!p.ok ==> p.whole == p.chunks * page && ChunkFaults(space, ua, len, page, f, k, p.chunks))
      && forall j: nat :: j < p.chunks ==> !ChunkFaults(space, ua, len, page, f, k, j)
  {
    var p := Plan(space, ua, len, page, f, k);
    forall j: nat | p.ok || j < p.chunks ensures !ChunkFaults(space, ua, len, page, f, k, j) {
      NoFaultBefore(space, ua, len, page, f, k, j);
    }
    if !p.ok {
      FaultAtStop(space, ua, len, page, f, k);
      PagesIsProduct(p.chunks, page);
    }
    assert p.ok ==> forall j: nat :: !ChunkFaults(space, ua, len, page, f, k, j);
    assert !p.ok ==> exists j: nat :: ChunkFaults(space, ua, len, page, f, k, j);
  }

  /** `ibuffer[i] = word` or `cbuffer[i] = b` on the byte-addressed buffer. */
  method StoreRegister(buffer: array<byte>, at: nat, v: nat, width: nat)
    requires at + width <= buffer.Length
    modifies buffer
    ensures buffer[..] == Patch(old(buffer[..]), at, Encode(v, width))
  {
    var bs := Encode(v, width);
    forall j | 0 <= j < width { buffer[at + j] := bs[j]; }
  }

  /** `after` is `before` with `n` bytes of `src` from `from` on copied to `at`. */
  predicate Copied(before: seq<byte>, after: seq<byte>, at: nat, src: seq<byte>, from: nat, n: nat) {
    (n == 0 || (at + n <= |before| && from + n <= |src|)) && after == Patch(before, at, Sub(src, from, n))
  }

  /** The accesses since `before` are those of `n` bytes at `addr`. */
  predicate Traced(before: seq<Access>, after: seq<Access>, addr: nat, n: nat, write: bool) {
    after == before + Touches(addr, n, write)
  }

  lemma NothingMoved(m: seq<byte>, at: nat, src: seq<byte>, from: nat, t: seq<Access>, addr: nat, write: bool)
    ensures Copied(m, m, at, src, from, 0) && Traced(t, t, addr, 0, write)
  {
  }

  /** Moving one more register extends the stretch already copied. */
  lemma ExtendCopy(before: seq<byte>, now: seq<byte>, at: nat, src: seq<byte>, from: nat, done: nat, width: nat)
    requires Copied(before, now, at, src, from, done)
    requires width > 0 && at + done + width <= |before| == |now| && from + done + width <= |src|
    ensures Copied(before, Patch(now, at + done, Encode(Decode(Sub(src, from + done, width)), width)),
                   at, src, from, done + width)
  {
    EncodeDecode(Sub(src, from + done, width));
    JoinCopies(before, src, from, at, done, width);
  }

  lemma JoinCopies(was: seq<byte>, src: seq<byte>, from: nat, at: nat, a: nat, b: nat)
    requires a + b == 0 || (at + a + b <= |was| && from + a + b <= |src|)
    ensures Patch(Patch(was, at, Sub(src, from, a)), at + a, Sub(src, from + a, b)) ==
      Patch(was, at, Sub(src, from, a + b))
  {
    PatchAdjacent(was, at, Sub(src, from, a), Sub(src, from + a, b));
    SubAdjacent(src, from, a, b);
  }

  /** Two adjacent copies, words before the rest, are one. */
  lemma JoinMoves(m0: seq<byte>, m1: seq<byte>, m2: seq<byte>, at: nat, src: seq<byte>, from: nat,
                  t0: seq<Access>, t1: seq<Access>, t2: seq<Access>, addr: nat, a: nat, b: nat, write: bool)
    requires a % 4 == 0 && (a + b == 0 || (at + a + b <= |m0| && from + a + b <= |src|))
    requires Copied(m0, m1, at, src, from, a) && Copied(m1, m2, at + a, src, from + a, b)
    requires Traced(t0, t1, addr, a, write) && Traced(t1, t2, addr + a, b, write)
    ensures Copied(m0, m2, at, src, from, a + b) && Traced(t0, t2, addr, a + b, write)
  {
    JoinCopies(m0, src, from, at, a, b);
    TouchesSplit(addr, a, b, write);
  }

  lemma NextWord(t: seq<Access>, now: seq<Access>, addr: nat, i: nat, write: bool)
    requires Traced(t, now, addr, 4 * i, write)
    ensures Traced(t, now + [Access(addr + 4 * i, 4, write)], addr, 4 * i + 4, write)
  {
    TouchesSplit(addr, 4 * i, 4, write);
    assert Touches(addr + 4 * i, 4, write) == [Access(addr + 4 * i, 4, write)];
  }

  lemma NextByte(t: seq<Access>, now: seq<Access>, addr: nat, r: nat, write: bool)
    requires r < 3 && Traced(t, now, addr, r, write)
    ensures Traced(t, now + [Access(addr + r, 1, write)], addr, r + 1, write)
  {
    TouchesSnocByte(addr, r, write);
  }

  method ReadWords(dev: Bus, addr: nat, words: nat, buffer: array<byte>)
    requires addr + 4 * words <= dev.mem.Length && 4 * words <= buffer.Length && dev.mem != buffer
    modifies dev`trace, buffer
    ensures Copied(old(buffer[..]), buffer[..], 0, dev.mem[..], addr, 4 * words)
    ensures Traced(old(dev.trace), dev.trace, addr, 4 * words, false)
  {
    hide Copied, Traced;
    ghost var was, mem, start := buffer[..], dev.mem[..], dev.trace;
    NothingMoved(was, 0, mem, addr, start, addr, false);
    for i := 0 to words
      invariant dev.mem[..] == mem
      invariant Copied(was, buffer[..], 0, mem, addr, 4 * i)
      invariant Traced(start, dev.trace, addr, 4 * i, false)
    {
      ExtendCopy(was, buffer[..], 0, mem, addr, 4 * i, 4);
      NextWord(start, dev.trace, addr, i, false);
      var word := dev.Read(addr + 4 * i, 4);
      StoreRegister(buffer, 4 * i, word, 4);
    }
  }

  method ReadBytes(dev: Bus, addr: nat, at: nat, missed: nat, buffer: array<byte>)
    requires addr + missed <= dev.mem.Length && at + missed <= buffer.Length && dev.mem != buffer && missed < 4
    modifies dev`trace, buffer
    ensures Copied(old(buffer[..]), buffer[..], at, dev.mem[..], addr, missed)
    ensures Traced(old(dev.trace), dev.trace, addr, missed, false)
  {
    hide Copied, Traced;
    ghost var was, mem, start := buffer[..], dev.mem[..], dev.trace;
    NothingMoved(was, at, mem, addr, start, addr, false);
    for i := 0 to missed
      invariant dev.mem[..] == mem
      invariant Copied(was, buffer[..], at, mem, addr, i)
      invariant Traced(start, dev.trace, addr, i, false)
    {
      ExtendCopy(was, buffer[..], at, mem, addr, i, 1);
      NextByte(start, dev.trace, addr, i, false);
      var b := dev.Read(addr + i, 1);
      StoreRegister(buffer, at + i, b, 1);
    }
  }

  /** The number of whole words in a stretch. */
  function Words(n: nat): (w: nat)
    ensures 4 * w <= n < 4 * w + 4
  {
    n / 4
  }

  /** One chunk from the device into the bounce buffer: words first, then the bytes left over. */
  method ReadChunk(dev: Bus, addr: nat, chunk: nat, buffer: array<byte>)
    requires addr + chunk <= dev.mem.Length && chunk <= buffer.Length && dev.mem != buffer
    modifies dev`trace, buffer
    ensures Copied(old(buffer[..]), buffer[..], 0, dev.mem[..], addr, chunk)
    ensures Traced(old(dev.trace), dev.trace, addr, chunk, false)
  {
    hide Copied, Traced, Words;
    var numToRead := Words(chunk);
    var offset := 4 * numToRead;
    var numMissed := chunk - offset;
    ReadWords(dev, addr, numToRead, buffer);
    ghost var buffer1, trace1 := buffer[..], dev.trace;
    ReadBytes(dev, addr + offset, offset, numMissed, buffer);
    JoinMoves(old(buffer[..]), buffer1, buffer[..], 0, dev.mem[..], addr,
              old(dev.trace), trace1, dev.trace, addr, offset, numMissed, false);
  }

  method WriteWords(dev: Bus, addr: nat, words: nat, buffer: array<byte>)
    requires addr + 4 * words <= dev.mem.Length && 4 * words <= buffer.Length && dev.mem != buffer
    modifies dev`trace, dev.mem
    ensures Copied(old(dev.mem[..]), dev.mem[..], addr, buffer[..], 0, 4 * words)
    ensures Traced(old(dev.trace), dev.trace, addr, 4 * words, true)
  {
    hide Copied, Traced;
    ghost var was, data, start := dev.mem[..], buffer[..], dev.trace;
    NothingMoved(was, addr, data, 0, start, addr, true);
    for i := 0 to words
      invariant buffer[..] == data
      invariant Copied(was, dev.mem[..], addr, data, 0, 4 * i)
      invariant Traced(start, dev.trace, addr, 4 * i, true)
    {
      ExtendCopy(was, dev.mem[..], addr, data, 0, 4 * i, 4);
      NextWord(start, dev.trace, addr, i, true);
      dev.Write(Decode(Sub(buffer[..], 4 * i, 4)), addr + 4 * i, 4);
    }
  }

  method WriteBytes(dev: Bus, addr: nat, at: nat, missed: nat, buffer: array<byte>)
    requires addr + missed <= dev.mem.Length && at + missed <= buffer.Length && dev.mem != buffer && missed < 4
    modifies dev`trace, dev.mem
    ensures Copied(old(dev.mem[..]), dev.mem[..], addr, buffer[..], at, missed)
    ensures Traced(old(dev.trace), dev.trace, addr, missed, true)
  {
    hide Copied, Traced;
    ghost var was, data, start := dev.mem[..], buffer[..], dev.trace;
    NothingMoved(was, addr, data, at, start, addr, true);
    for i := 0 to missed
      invariant buffer[..] == data
      invariant Copied(was, dev.mem[..], addr, data, at, i)
      invariant Traced(start, dev.trace, addr, i, true)
    {
      ExtendCopy(was, dev.mem[..], addr, data, at, i, 1);
      NextByte(start, dev.trace, addr, i, true);
      dev.Write(Decode(Sub(buffer[..], at + i, 1)), addr + i, 1);
    }
  }

  /** One chunk from the bounce buffer to the device. */
  method WriteChunk(dev: Bus, addr: nat, chunk: nat, buffer: array<byte>)
    requires addr + chunk <= dev.mem.Length && chunk <= buffer.Length && dev.mem != buffer
    modifies dev`trace, dev.mem
    ensures Copied(old(dev.mem[..]), dev.mem[..], addr, buffer[..], 0, chunk)
    ensures Traced(old(dev.trace), dev.trace, addr, chunk, true)
  {
    hide Copied, Traced, Words;
    var numToWrite := Words(chunk);
    var offset := 4 * numToWrite;
    var numMissed := chunk - offset;
    WriteWords(dev, addr, numToWrite, buffer);
    ghost var mem1, trace1 := dev.mem[..], dev.trace;
    WriteBytes(dev, addr + offset, offset, numMissed, buffer);
    JoinMoves(old(dev.mem[..]), mem1, dev.mem[..], addr, buffer[..], 0,
              old(dev.trace), trace1, dev.trace, addr, offset, numMissed, true);
  }

  // ---------------------------------------------------------------- the transfer operations

  /** What a transfer of any size does: to the device window, to user memory, and its return value. */
  datatype Effect = Effect(window: seq<byte>, user: seq<byte>, result: int)

  function Verdict(ok: bool): int {
    if ok then 0 else -EFAULT
  }

  /** How many bytes a transfer delivers or stores. */
  function Carried(p: Progress, reading: bool): nat {
    if reading then p.whole + p.extra else p.whole
  }

  predicate InBounds(size: nat, addr: nat, space: nat, ua: nat, p: Progress, reading: bool) {
    var n := Carried(p, reading);
    n > 0 ==> addr + n <= size && ua + n <= space
  }

  /** One flat copy of the stretch that a transfer got through. */
  function FlatCopy(window: seq<byte>, addr: nat, user: seq<byte>, ua: nat, p: Progress, reading: bool): (e: Effect)
    requires InBounds(|window|, addr, |user|, ua, p, reading)
    ensures |e.window| == |window| && |e.user| == |user|
  {
    var n := Carried(p, reading);
    if reading then Effect(window, Patch(user, ua, Sub(window, addr, n)), Verdict(p.ok))
    else Effect(Patch(window, addr, Sub(user, ua, n)), user, Verdict(p.ok))
  }

  /** How many device bytes a large transfer touches: a faulting read has fetched its chunk already. */
  function Touched(space: nat, ua: nat, len: nat, page: nat, f: Faults, k: nat, reading: bool): (n: nat)
    requires page > 0
    ensures n <= len
  {
    PlanBounds(space, ua, len, page, f, k);
    var p := Plan(space, ua, len, page, f, k);
    if reading then p.whole + p.next else p.whole
  }

  /** What it touches lies in a region of `size` bytes. */
  predicate StaysIn(size: nat, addr: nat, space: nat, ua: nat, len: nat, page: nat, f: Faults, k: nat, reading: bool)
    requires page > 0
  {
    var n := Touched(space, ua, len, page, f, k, reading);
    n > 0 ==> addr + n <= size
  }

  lemma PlanInBounds(size: nat, addr: nat, space: nat, ua: nat, len: nat, page: nat, f: Faults, k: nat, reading: bool)
    requires page > 0 && StaysIn(size, addr, space, ua, len, page, f, k, reading)
    ensures InBounds(size, addr, space, ua, Plan(space, ua, len, page, f, k), reading)
  {
    PlanBounds(space, ua, len, page, f, k);
  }

  /** The flat meaning of aclsoc_rw_large. */
  function LargeEffect(window: seq<byte>, addr: nat, user: seq<byte>, ua: nat, len: nat, page: nat, f: Faults, k: nat,
                       reading: bool): (e: Effect)
    requires page > 0 && StaysIn(|window|, addr, |user|, ua, len, page, f, k, reading)
    ensures |e.window| == |window| && |e.user| == |user|
  {
    PlanInBounds(|window|, addr, |user|, ua, len, page, f, k, reading);
    FlatCopy(window, addr, user, ua, Plan(|user|, ua, len, page, f, k), reading)
  }

  /** No chunk's user copy faults. */
  ghost predicate NoCopyFaults(space: nat, ua: nat, len: nat, page: nat, f: Faults) {
    forall j: nat :: !ChunkFaults(space, ua, len, page, f, 0, j)
  }

  /** A transfer returns 0 if no chunk's user copy faults, and -EFAULT otherwise. */
  lemma LargeResult(window: seq<byte>, addr: nat, user: seq<byte>, ua: nat, len: nat, page: nat, f: Faults,
                    reading: bool)
    requires page > 0 && StaysIn(|window|, addr, |user|, ua, len, page, f, 0, reading)
    ensures LargeEffect(window, addr, user, ua, len, page, f, 0, reading).result ==
      if NoCopyFaults(|user|, ua, len, page, f) then 0 else -EFAULT
  {
    StopsAtFirstFault(|user|, ua, len, page, f, 0);
    var p := Plan(|user|, ua, len, page, f, 0);
    assert p.ok ==> forall j: nat :: !ChunkFaults(|user|, ua, len, page, f, 0, j);
    assert !p.ok ==> exists j: nat :: ChunkFaults(|user|, ua, len, page, f, 0, j);
  }

  /** A transfer that succeeds makes the destination range equal the source range byte for byte and changes
      nothing else. */
  lemma SuccessCopies(window: seq<byte>, addr: nat, user: seq<byte>, ua: nat, len: nat, page: nat, f: Faults,
                      reading: bool)
    requires page > 0 && StaysIn(|window|, addr, |user|, ua, len, page, f, 0, reading)
    ensures
      var e := LargeEffect(window, addr, user, ua, len, page, f, 0, reading);
      e.result == 0 ==>
        && (len > 0 ==> ua + len <= |user| && addr + len <= |window|)
        && (forall i :: 0 <= i < |user| ==>
              e.user[i] == if reading && ua <= i < ua + len then window[addr + (i - ua)] else user[i])
        && (forall i :: 0 <= i < |window| ==>
              e.window[i] == if !reading && addr <= i < addr + len then user[ua + (i - addr)] else window[i])
  {
    PlanBounds(|user|, ua, len, page, f, 0);
  }

  /** A transfer fails exactly when some chunk's user copy faults. It has then moved the whole pages before the
      first such chunk: a write has changed those device bytes and nothing else; a read has delivered them,
      changed at most the faulting chunk's part of user memory beyond, and left the device alone. */
  lemma FailureLeavesWholePages(window: seq<byte>, addr: nat, user: seq<byte>, ua: nat, len: nat, page: nat, f: Faults,
                                reading: bool, k: nat)
    requires page > 0 && StaysIn(|window|, addr, |user|, ua, len, page, f, 0, reading)
    requires ChunkFaults(|user|, ua, len, page, f, 0, k)
    requires forall j: nat :: j < k ==> !ChunkFaults(|user|, ua, len, page, f, 0, j)
    ensures
      var e := LargeEffect(window, addr, user, ua, len, page, f, 0, reading);
      var n := k * page;
      && e.result == -EFAULT && n < len && (n > 0 ==> ua + n <= |user| && addr + n <= |window|)
      && (!reading ==> e.user == user && e.window == Patch(window, addr, Sub(user, ua, n)))
      && (reading ==>
            && e.window == window
            && (forall i :: ua <= i < ua + n ==> e.user[i] == window[addr + (i - ua)])
            && (forall i :: 0 <= i < |user| && !(ua <= i < ua + n + Chunk(len - n, page)) ==> e.user[i] == user[i]))
  {
    var p := Plan(|user|, ua, len, page, f, 0);
    PlanBounds(|user|, ua, len, page, f, 0);
    if p.ok || k < p.chunks { NoFaultBefore(|user|, ua, len, page, f, 0, k); }
    FaultAtStop(|user|, ua, len, page, f, 0);
    assert p.chunks == k;
    PagesIsProduct(k, page);
    NextIsChunk(|user|, ua, len, page, f, 0);
  }

  lemma {:induction false} NextIsChunk(space: nat, ua: nat, len: nat, page: nat, f: Faults, k: nat)
    requires page > 0 && !Plan(space, ua, len, page, f, k).ok
    ensures var p := Plan(space, ua, len, page, f, k); p.whole < len && p.next == Chunk(len - p.whole, page)
    decreases len
  {
    var c := Chunk(len, page);
    if len > 0 && !FaultsAt(space, ua, c, CopyAt(f, k)) { NextIsChunk(space, ua + c, len - c, page, f, k + 1); }
  }

  lemma ProductGrows(a: nat, b: nat, page: nat)
    requires a <= b
    ensures a * page <= b * page
  {
    assert b * page - a * page == (b - a) * page;
  }

  /** k pages reach beyond a point exactly if there are more of them than fit before it. */
  lemma PagesBeyond(k: nat, page: nat, point: nat, q: nat)
    requires page > 0 && q == point / page
    ensures k * page > point <==> k > q
  {
    assert q * page <= point < q * page + page by { assert point == q * page + point % page; }
    if k > q {
      ProductGrows(q + 1, k, page);
      assert (q + 1) * page == q * page + page;
    } else {
      ProductGrows(k, q, page);
    }
  }

  /** Where a faulting transfer stands when it ends. */
  lemma TouchedAtFault(space: nat, ua: nat, len: nat, page: nat, f: Faults, k: nat, reading: bool, whole: nat)
    requires page > 0 && !Plan(space, ua, len, page, f, k).ok
    requires whole == Plan(space, ua, len, page, f, k).chunks * page
    ensures whole < len
    ensures Touched(space, ua, len, page, f, k, reading) == whole + if reading then Chunk(len - whole, page) else 0
  {
    StopsAtFirstFault(space, ua, len, page, f, k);
    NextIsChunk(space, ua, len, page, f, k);
    hide Plan, ChunkFaults;
  }

  /** The user copies of a transfer's first n chunks, as far as it has them, go through. */
  predicate CopiesGoThrough(space: nat, ua: nat, len: nat, page: nat, f: Faults, n: nat) {
    forall j: nat :: j < n ==> !ChunkFaults(space, ua, len, page, f, 0, j)
  }

  lemma GoThroughMeaning(space: nat, ua: nat, len: nat, page: nat, f: Faults, bound: nat)
    requires page > 0
    ensures CopiesGoThrough(space, ua, len, page, f, bound) <==>
      Plan(space, ua, len, page, f, 0).ok || Plan(space, ua, len, page, f, 0).chunks >= bound
  {
    StopsAtFirstFault(space, ua, len, page, f, 0);
    var p := Plan(space, ua, len, page, f, 0);
    assert p.ok ==> forall j: nat :: j < bound ==> !ChunkFaults(space, ua, len, page, f, 0, j);
    assert !p.ok && p.chunks < bound ==> exists j: nat :: j < bound && ChunkFaults(space, ua, len, page, f, 0, j);
    assert p.chunks >= bound ==> forall j: nat :: j < bound ==> !ChunkFaults(space, ua, len, page, f, 0, j);
  }

  lemma StopBeyond(chunks: nat, whole: nat, page: nat, len: nat, reading: bool, inside: nat, q: nat)
    requires page > 0 && whole == chunks * page && whole < len && inside < len && q == inside / page
    ensures whole + (if reading then Chunk(len - whole, page) else 0) > inside <==>
      chunks >= q + if reading then 0 else 1
  {
    PagesBeyond(chunks, page, inside, q);
    PagesBeyond(chunks + 1, page, inside, q);
    assert (chunks + 1) * page == whole + page;
  }

  /** A transfer touches bytes past the first `inside` of its range exactly if the user copies of all chunks
      that start before them go through; a read has fetched a chunk when its copy faults, so for it the last of
      these may fault. */
  lemma ReachesBeyond(space: nat, ua: nat, len: nat, page: nat, f: Faults, reading: bool, inside: nat, bound: nat)
    requires page > 0 && inside < len && bound == inside / page + if reading then 0 else 1
    ensures Touched(space, ua, len, page, f, 0, reading) > inside <==>
      CopiesGoThrough(space, ua, len, page, f, bound)
  {
    GoThroughMeaning(space, ua, len, page, f, bound);
    hide ChunkFaults, CopiesGoThrough, FaultsAt, Moved;
    var p := Plan(space, ua, len, page, f, 0);
    if p.ok {
      PlanBounds(space, ua, len, page, f, 0);
    } else {
      var whole := p.chunks * page;
      TouchedAtFault(space, ua, len, page, f, 0, reading, whole);
      StopBeyond(p.chunks, whole, page, len, reading, inside, inside / page);
      hide Touched;
    }
  }

  lemma DeliveredPrefix(user: seq<byte>, ua: nat, window: seq<byte>, addr: nat, n: nat, c: Copy)
    requires n > 0 && addr + n <= |window|
    ensures
      var m := Moved(|user|, ua, n, c);
      Delivered(user, ua, Sub(window, addr, n), c) == Patch(user, ua, Sub(window, addr, m))
  {
    var m := Moved(|user|, ua, n, c);
    assert Sub(window, addr, n)[..m] == Sub(window, addr, m);
  }

  /** A flat copy is one of its first bytes followed by one of the rest. */
  lemma FlatCopySplits(window: seq<byte>, addr: nat, user: seq<byte>, ua: nat, c: nat, p: Progress, reading: bool)
    requires addr + c <= |window| && ua + c <= |user| && InBounds(|window|, addr + c, |user|, ua + c, p, reading)
    ensures InBounds(|window|, addr, |user|, ua, After(c, p), reading)
    ensures FlatCopy(window, addr, user, ua, After(c, p), reading) ==
      if reading then FlatCopy(window, addr + c, Patch(user, ua, Sub(window, addr, c)), ua + c, p, true)
      else FlatCopy(Patch(window, addr, Sub(user, ua, c)), addr + c, user, ua + c, p, false)
  {
    JoinCopies(user, window, addr, ua, c, Carried(p, reading));
    JoinCopies(window, user, ua, addr, c, Carried(p, reading));
  }

  /** The first chunk's part in what a transfer touches. */
  lemma TouchedStep(size: nat, addr: nat, space: nat, ua: nat, len: nat, page: nat, f: Faults, k: nat, reading: bool,
                    c: nat)
    requires page > 0 && 0 < len && c == Chunk(len, page)
    ensures Touched(space, ua, len, page, f, k, reading) ==
      if FaultsAt(space, ua, c, CopyAt(f, k)) then if reading then c else 0
      else c + Touched(space, ua + c, len - c, page, f, k + 1, reading)
    ensures StaysIn(size, addr, space, ua, len, page, f, k, reading) ==>
      if FaultsAt(space, ua, c, CopyAt(f, k)) then reading ==> addr + c <= size
      else addr + c <= size && StaysIn(size, addr + c, space, ua + c, len - c, page, f, k + 1, reading)
  {
    PlanStep(space, ua, len, page, f, k);
    hide Plan, FaultsAt, Moved;
  }

  lemma LargeStops(window: seq<byte>, addr: nat, user: seq<byte>, ua: nat, len: nat, page: nat, f: Faults, k: nat,
                   reading: bool, c: nat)
    requires page > 0 && 0 < len && c == Chunk(len, page)
    requires StaysIn(|window|, addr, |user|, ua, len, page, f, k, reading)
    requires FaultsAt(|user|, ua, c, CopyAt(f, k))
    ensures reading ==> addr + c <= |window|
    ensures LargeEffect(window, addr, user, ua, len, page, f, k, reading) ==
      Effect(window, if reading then Delivered(user, ua, Sub(window, addr, c), CopyAt(f, k)) else user, -EFAULT)
  {
    PlanStep(|user|, ua, len, page, f, k);
    TouchedStep(|window|, addr, |user|, ua, len, page, f, k, reading, c);
    if reading { DeliveredPrefix(user, ua, window, addr, c, CopyAt(f, k)); }
    hide Plan, Delivered, Sub, Moved, Touched;
  }

  lemma PlanGoesOn(space: nat, ua: nat, len: nat, page: nat, f: Faults, k: nat, c: nat)
    requires page > 0 && 0 < len && c == Chunk(len, page) && !FaultsAt(space, ua, c, CopyAt(f, k))
    ensures c <= len && ua + c <= space
    ensures Plan(space, ua, len, page, f, k) == After(c, Plan(space, ua + c, len - c, page, f, k + 1))
  {
  }

  /** A transfer whose first chunk goes through is that chunk followed by the transfer of the rest. */
  lemma LargeGoesOn(window: seq<byte>, addr: nat, user: seq<byte>, ua: nat, len: nat, page: nat, f: Faults, k: nat,
                    reading: bool, c: nat)
    requires page > 0 && 0 < len && c == Chunk(len, page) && !FaultsAt(|user|, ua, c, CopyAt(f, k))
    requires StaysIn(|window|, addr, |user|, ua, len, page, f, k, reading)
    ensures c <= len && addr + c <= |window| && ua + c <= |user|
    ensures StaysIn(|window|, addr + c, |user|, ua + c, len - c, page, f, k + 1, reading)
    ensures LargeEffect(window, addr, user, ua, len, page, f, k, reading) ==
      if reading then
        LargeEffect(window, addr + c, Patch(user, ua, Sub(window, addr, c)), ua + c, len - c, page, f, k + 1, true)
      else
        LargeEffect(Patch(window, addr, Sub(user, ua, c)), addr + c, user, ua + c, len - c, page, f, k + 1, false)
  {
    TouchedStep(|window|, addr, |user|, ua, len, page, f, k, reading, c);
    hide Plan, Patch, Sub, FlatCopy, InBounds, After, CopyAt, FaultsAt, Chunk, Verdict, Moved, StaysIn;
    PlanGoesOn(|user|, ua, len, page, f, k, c);
    PlanInBounds(|window|, addr + c, |user|, ua + c, len - c, page, f, k + 1, reading);
    FlatCopySplits(window, addr, user, ua, c, Plan(|user|, ua + c, len - c, page, f, k + 1), reading);
  }

  /** One chunk of a write: nothing reaches the device unless the whole chunk came from user space. */
  method MoveToDevice(dev: Bus, addr: nat, user: array<byte>, ua: nat, chunk: nat, buffer: array<byte>, c: Copy)
    returns (missed: nat)
    requires 0 < chunk <= buffer.Length
    requires FaultsAt(user.Length, ua, chunk, c) || addr + chunk <= dev.mem.Length
    requires dev.mem != buffer && user != buffer && user != dev.mem
    modifies dev`trace, dev.mem, buffer
    ensures missed > 0 <==> FaultsAt(user.Length, ua, chunk, c)
    ensures missed > 0 ==> dev.mem[..] == old(dev.mem[..]) && dev.trace == old(dev.trace)
    ensures missed == 0 ==> dev.mem[..] == Patch(old(dev.mem[..]), addr, Sub(user[..], ua, chunk))
    ensures missed == 0 ==> dev.trace == old(dev.trace) + Touches(addr, chunk, true)
  {
    missed := CopyFromUser(buffer, user, ua, chunk, c);
    if missed == 0 {
      assert Sub(buffer[..], 0, chunk) == Sub(user[..], ua, chunk);
      WriteChunk(dev, addr, chunk, buffer);
    }
  }

  /** One chunk of a read: the device is read in full before user space sees any of it. */
  method MoveToUser(dev: Bus, addr: nat, user: array<byte>, ua: nat, chunk: nat, buffer: array<byte>, c: Copy)
    returns (missed: nat)
    requires addr + chunk <= dev.mem.Length && 0 < chunk <= buffer.Length
    requires dev.mem != buffer && user != buffer && user != dev.mem
    modifies dev`trace, user, buffer
    ensures missed > 0 <==> FaultsAt(user.Length, ua, chunk, c)
    ensures user[..] == Delivered(old(user[..]), ua, Sub(dev.mem[..], addr, chunk), c)
    ensures dev.trace == old(dev.trace) + Touches(addr, chunk, false)
  {
    ReadChunk(dev, addr, chunk, buffer);
    assert buffer[..chunk] == Sub(dev.mem[..], addr, chunk);
    missed := CopyToUser(user, ua, buffer[..chunk], c);
  }

  lemma TraceNext(t: seq<Access>, addr: nat, done: nat, b: nat, write: bool)
    requires done % 4 == 0
    ensures t + Touches(addr, done, write) + Touches(addr + done, b, write) == t + Touches(addr, done + b, write)
  {
    TouchesSplit(addr, done, b, write);
  }

  lemma NothingLeft(window: seq<byte>, addr: nat, user: seq<byte>, ua: nat, page: nat, f: Faults, k: nat, reading: bool)
    requires page > 0
    ensures Touched(|user|, ua, 0, page, f, k, reading) == 0 && Touches(addr, 0, !reading) == []
    ensures LargeEffect(window, addr, user, ua, 0, page, f, k, reading) == Effect(window, user, 0)
  {
  }

  /** The body of the chunk loop. */
  method MoveChunk(dev: Bus, addr: nat, user: array<byte>, ua: nat, left: nat, buffer: array<byte>, reading: bool,
                   f: Faults, k: nat) returns (chunk: nat, missed: nat)
    requires left > 0 && buffer.Length > 0
    requires StaysIn(dev.mem.Length, addr, user.Length, ua, left, buffer.Length, f, k, reading)
    requires dev.mem != buffer && user != buffer && user != dev.mem
    modifies dev`trace, dev.mem, user, buffer
    ensures chunk == Chunk(left, buffer.Length)
    ensures missed == 0 ==>
      StaysIn(dev.mem.Length, addr + chunk, user.Length, ua + chunk, left - chunk, buffer.Length, f, k + 1, reading)
    ensures LargeEffect(old(dev.mem[..]), addr, old(user[..]), ua, left, buffer.Length, f, k, reading) ==
      if missed > 0 then Effect(dev.mem[..], user[..], -EFAULT)
      else LargeEffect(dev.mem[..], addr + chunk, user[..], ua + chunk, left - chunk, buffer.Length, f, k + 1, reading)
    ensures dev.trace == old(dev.trace) + Touches(addr, if missed > 0 && !reading then 0 else chunk, !reading)
    ensures Touched(user.Length, ua, left, buffer.Length, f, k, reading) ==
      if missed > 0 then if reading then chunk else 0
      else chunk + Touched(user.Length, ua + chunk, left - chunk, buffer.Length, f, k + 1, reading)
  {
    chunk := Chunk(left, buffer.Length);
    TouchedStep(dev.mem.Length, addr, user.Length, ua, left, buffer.Length, f, k, reading, chunk);
    if FaultsAt(user.Length, ua, chunk, CopyAt(f, k)) {
      LargeStops(dev.mem[..], addr, user[..], ua, left, buffer.Length, f, k, reading, chunk);
    } else {
      LargeGoesOn(dev.mem[..], addr, user[..], ua, left, buffer.Length, f, k, reading, chunk);
    }
    hide LargeEffect, StaysIn, Touched;
    if !reading {
      missed := MoveToDevice(dev, addr, user, ua, chunk, buffer, CopyAt(f, k));
    } else {
      missed := MoveToUser(dev, addr, user, ua, chunk, buffer, CopyAt(f, k));
    }
  }

  /** aclsoc_rw_large: chunk by chunk through the bounce buffer. */
  method RwLarge(dev: Bus, addr: nat, user: array<byte>, ua: nat, len: nat, buffer: array<byte>,
                 reading: bool, f: Faults)
    returns (result: int)
    requires buffer.Length > 0 && buffer.Length % 4 == 0
    requires StaysIn(dev.mem.Length, addr, user.Length, ua, len, buffer.Length, f, 0, reading)
    requires dev.mem != buffer && dev.mem != user && user != buffer
    modifies dev`trace, dev.mem, user, buffer
    ensures Effect(dev.mem[..], user[..], result) ==
      LargeEffect(old(dev.mem[..]), addr, old(user[..]), ua, len, buffer.Length, f, 0, reading)
    ensures dev.trace ==
      old(dev.trace) + Touches(addr, Touched(user.Length, ua, len, buffer.Length, f, 0, reading), !reading)
  {
    hide LargeEffect, StaysIn, Touched, Touches;
    ghost var start, page := dev.trace, buffer.Length;
    ghost var whole := LargeEffect(dev.mem[..], addr, user[..], ua, len, page, f, 0, reading);
    ghost var touched := Touched(user.Length, ua, len, page, f, 0, reading);
    var devAddr: nat, userAddr: nat, bytesLeft: nat, k: nat := addr, ua, len, 0;
    NothingLeft(dev.mem[..], addr, user[..], ua, page, f, 0, reading);
    while bytesLeft > 0
      invariant devAddr + bytesLeft == addr + len
      invariant bytesLeft > 0 ==> (devAddr - addr) % 4 == 0
      invariant StaysIn(dev.mem.Length, devAddr, user.Length, userAddr, bytesLeft, page, f, k, reading)
      invariant LargeEffect(dev.mem[..], devAddr, user[..], userAddr, bytesLeft, page, f, k, reading) == whole
      invariant dev.trace == start + Touches(addr, devAddr - addr, !reading)
      invariant touched == devAddr - addr + Touched(user.Length, userAddr, bytesLeft, page, f, k, reading)
    {
      var chunk, missed := MoveChunk(dev, devAddr, user, userAddr, bytesLeft, buffer, reading, f, k);
      TraceNext(start, addr, devAddr - addr, if missed > 0 && !reading then 0 else chunk, !reading);
      if missed > 0 { return -EFAULT; }
      devAddr, userAddr, bytesLeft, k := devAddr + chunk, userAddr + chunk, bytesLeft - chunk, k + 1;
    }
    NothingLeft(dev.mem[..], devAddr, user[..], userAddr, page, f, k, reading);
    return 0;
  }

  // ---------------------------------------------------------------- small transfers

  predicate IsSmall(len: nat) {
    len == 1 || len == 2 || len == 4
  }

  /** How many device bytes a request of this size covers: a two-byte write falls through into the
      four-byte case and stores four. */
  function Width(len: nat, reading: bool): (w: nat)
    ensures w >= len && (w != len <==> !reading && len == 2)
  {
    if !reading && len == 2 then 4 else len
  }

  /** The user copy whose outcome decides a small transfer: the second one for a two-byte write. */
  function Deciding(len: nat, reading: bool): nat {
    if !reading && len == 2 then 1 else 0
  }

  function SmallEffect(window: seq<byte>, addr: nat, user: seq<byte>, ua: nat, len: nat, f: Faults,
                       reading: bool): (e: Effect)
    requires IsSmall(len) && addr + Width(len, reading) <= |window|
    ensures |e.window| == |window| && |e.user| == |user|
  {
    var w, c := Width(len, reading), CopyAt(f, Deciding(len, reading));
    var result := Verdict(!FaultsAt(|user|, ua, w, c));
    if reading then Effect(window, Delivered(user, ua, Sub(window, addr, len), c), result)
    else Effect(Patch(window, addr, Fetched(user, ua, w, c)), user, result)
  }

  /** The register accesses of a small transfer. */
  function SmallTrace(addr: nat, len: nat, reading: bool): seq<Access> {
    if !reading && len == 2 then [Access(addr, 2, true), Access(addr, 4, true)] else [Access(addr, len, !reading)]
  }

  /** aclsoc_read_small. Sizes other than 1, 2 and 4 do nothing and succeed. */
  method ReadSmall(dev: Bus, addr: nat, user: array<byte>, ua: nat, len: nat, f: Faults) returns (result: int)
    requires IsSmall(len) ==> addr + len <= dev.mem.Length
    requires dev.mem != user
    modifies dev`trace, user
    ensures IsSmall(len) ==>
      Effect(dev.mem[..], user[..], result) == SmallEffect(dev.mem[..], addr, old(user[..]), ua, len, f, true)
    ensures IsSmall(len) ==> dev.trace == old(dev.trace) + SmallTrace(addr, len, true)
    ensures !IsSmall(len) ==> user[..] == old(user[..]) && dev.trace == old(dev.trace) && result == 0
  {
    var missed := 0;
    if len == 1 || len == 2 || len == 4 {
      var d := dev.Read(addr, len);
      EncodeDecode(Sub(dev.mem[..], addr, len));
      missed := CopyToUser(user, ua, Encode(d, len), CopyAt(f, 0));
    }
    result := if missed > 0 then -EFAULT else 0;
  }

  /** A kernel variable filled by copy_from_user, as the value the following register write stores. */
  method FetchVariable(user: array<byte>, ua: nat, width: nat, c: Copy) returns (d: nat, missed: nat)
    requires width > 0
    ensures d == Decode(Fetched(user[..], ua, width, c)) && Encode(d, width) == Fetched(user[..], ua, width, c)
    ensures missed == width - Moved(user.Length, ua, width, c)
  {
    var bytes := new byte[width](_ => 0);
    missed := CopyFromUser(bytes, user, ua, width, c);
    d := Decode(bytes[..]);
    EncodeDecode(bytes[..]);
    assert bytes[..] == Fetched(user[..], ua, width, c);
  }

  /** aclsoc_write_small. The variable is stored whether or not the user copy succeeded, and the
      two-byte case goes on into the four-byte one. */
  method WriteSmall(dev: Bus, addr: nat, user: array<byte>, ua: nat, len: nat, f: Faults) returns (result: int)
    requires IsSmall(len) ==> addr + Width(len, false) <= dev.mem.Length
    requires dev.mem != user
    modifies dev`trace, dev.mem
    ensures IsSmall(len) ==>
      Effect(dev.mem[..], user[..], result) == SmallEffect(old(dev.mem[..]), addr, user[..], ua, len, f, false)
    ensures IsSmall(len) ==> dev.trace == old(dev.trace) + SmallTrace(addr, len, false)
    ensures !IsSmall(len) ==> dev.mem[..] == old(dev.mem[..]) && dev.trace == old(dev.trace) && result == 0
  {
    ghost var was := dev.mem[..];
    var d, missed := 0, 0;
    if len == 1 {
      d, missed := FetchVariable(user, ua, 1, CopyAt(f, 0));
      dev.Write(d, addr, 1);
    } else {
      var k := 0;
      if len == 2 {
        d, missed := FetchVariable(user, ua, 2, CopyAt(f, 0));
        dev.Write(d, addr, 2);
        k := 1;
      }
      if len == 2 || len == 4 {
        d, missed := FetchVariable(user, ua, 4, CopyAt(f, k));
        dev.Write(d, addr, 4);
        if len == 2 {
          PatchCovers(was, addr, Fetched(user[..], ua, 2, CopyAt(f, 0)), Fetched(user[..], ua, 4, CopyAt(f, 1)));
        }
      }
    }
    result := if missed > 0 then -EFAULT else 0;
  }

  /** Unless the user copy of a write faults, one- and four-byte writes and all small reads do exactly what the
      large path would, and a two-byte write acts as a four-byte one. */
  lemma SmallAgreesWithLarge(window: seq<byte>, addr: nat, user: seq<byte>, ua: nat, len: nat, page: nat, f: Faults,
                             reading: bool)
    requires IsSmall(len) && page >= 4 && addr + Width(len, reading) <= |window|
    requires reading || !FaultsAt(|user|, ua, Width(len, reading), CopyAt(f, Deciding(len, reading)))
    ensures SmallEffect(window, addr, user, ua, len, f, reading) ==
      LargeEffect(window, addr, user, ua, Width(len, reading), page, f, Deciding(len, reading), reading)
  {
    var w, k := Width(len, reading), Deciding(len, reading);
    if FaultsAt(|user|, ua, w, CopyAt(f, k)) {
      LargeStops(window, addr, user, ua, w, page, f, k, reading, w);
    } else {
      assert Plan(|user|, ua + w, 0, page, f, k + 1) == Progress(0, 0, 0, 0, true);
      assert Plan(|user|, ua, w, page, f, k) == Progress(w, 1, 0, 0, true);
    }
  }

  /** On a fault the two paths part: a large write leaves the device alone, a small one stores what the
      kernel variable holds. They agree then only if that is what the device held already. */
  lemma SmallWriteFaultStores(window: seq<byte>, addr: nat, user: seq<byte>, ua: nat, len: nat, page: nat, f: Faults)
    requires IsSmall(len) && page >= 4 && addr + Width(len, false) <= |window|
    requires FaultsAt(|user|, ua, Width(len, false), CopyAt(f, Deciding(len, false)))
    ensures
      var w, k := Width(len, false), Deciding(len, false);
      var small := SmallEffect(window, addr, user, ua, len, f, false);
      small == LargeEffect(window, addr, user, ua, w, page, f, k, false) <==>
        Fetched(user, ua, w, CopyAt(f, k)) == Sub(window, addr, w)
  {
    var w, k := Width(len, false), Deciding(len, false);
    var bs := Fetched(user, ua, w, CopyAt(f, k));
    if Patch(window, addr, bs) == window {
      forall i | 0 <= i < w ensures bs[i] == window[addr + i] {
        assert Patch(window, addr, bs)[addr + i] == bs[i];
      }
    }
  }

  /** The two in one: the small and the large path differ exactly if the user copy of a write faults and leaves
      something in the kernel variable that the device does not hold already. */
  lemma SmallAgreesExactly(window: seq<byte>, addr: nat, user: seq<byte>, ua: nat, len: nat, page: nat, f: Faults,
                           reading: bool)
    requires IsSmall(len) && page >= 4 && addr + Width(len, reading) <= |window|
    ensures
      var w, k := Width(len, reading), Deciding(len, reading);
      SmallEffect(window, addr, user, ua, len, f, reading) ==
        LargeEffect(window, addr, user, ua, w, page, f, k, reading) <==>
      reading || !FaultsAt(|user|, ua, w, CopyAt(f, k)) || Fetched(user, ua, w, CopyAt(f, k)) == Sub(window, addr, w)
  {
    hide SmallEffect, LargeEffect, FaultsAt, Fetched;
    if reading || !FaultsAt(|user|, ua, Width(len, reading), CopyAt(f, Deciding(len, reading))) {
      SmallAgreesWithLarge(window, addr, user, ua, len, page, f, reading);
    } else {
      SmallWriteFaultStores(window, addr, user, ua, len, page, f);
    }
  }

  /** A small read makes one access of its size. So does a small write, but a two-byte one makes a second of
      four bytes at the same place. */
  lemma SmallTouches(addr: nat, len: nat, reading: bool)
    requires IsSmall(len)
    ensures
      var t := SmallTrace(addr, len, reading);
      && (forall i :: 0 <= i < |t| ==> t[i].write == !reading)
      && (!reading && len == 2 ==> |t| == 2 && Footprint(t) == [addr, addr + 1, addr, addr + 1, addr + 2, addr + 3])
      && (reading || len != 2 ==> |t| == 1 && Footprint(t) == Span(addr, len))
  {
    var t := SmallTrace(addr, len, reading);
    assert Footprint(t) == Span(t[0].addr, t[0].width) + Footprint(t[1..]);
    if |t| == 2 {
      assert t[1..][1..] == [];
      assert Footprint(t[1..]) == Span(t[1].addr, t[1].width) + Footprint([]);
      assert Span(addr, 2) == [addr, addr + 1];
      assert Span(addr, 4) == [addr, addr + 1, addr + 2, addr + 3];
    }
  }

  /** A two-byte write is, in memory and result, a four-byte write with the user copies from the second on. */
  lemma TwoByteWriteIsFourByteWrite(window: seq<byte>, addr: nat, user: seq<byte>, ua: nat, first: Copy, f: Faults)
    requires addr + 4 <= |window|
    ensures SmallEffect(window, addr, user, ua, 2, [first] + f, false) ==
      SmallEffect(window, addr, user, ua, 4, f, false)
  {
    assert CopyAt([first] + f, 1) == CopyAt(f, 0);
  }

  /** What else a small transfer is: one user copy of its bytes, of which the device or user space gets exactly
      what was moved, or for a write what the kernel variable then holds; and it succeeds exactly if that copy
      does. */
  lemma SmallMeaning(window: seq<byte>, addr: nat, user: seq<byte>, ua: nat, len: nat, f: Faults, reading: bool)
    requires IsSmall(len) && (reading || len != 2) && addr + len <= |window|
    ensures
      var e, c := SmallEffect(window, addr, user, ua, len, f, reading), CopyAt(f, 0);
      && e.result == (if FaultsAt(|user|, ua, len, c) then -EFAULT else 0)
      && (reading ==> e.window == window && forall i :: 0 <= i < |user| ==>
            e.user[i] == if ua <= i < ua + Moved(|user|, ua, len, c) then window[addr + (i - ua)] else user[i])
      && (!reading ==> e.user == user && forall i :: 0 <= i < |window| ==>
            e.window[i] == if addr <= i < addr + len then Fetched(user, ua, len, c)[i - addr] else window[i])
  {
  }
}
