/**
 Concurrent read() and write() calls with interrupts taken at any point: the handler of
 aclsoc.c needs no semaphore and clears the interrupt enable register under their feet.
 */
module Preempted {
  import opened Bytes
  import opened Commands
  import opened Common
  import opened Transfer
  import opened Dispatch
  import opened Serial

  /** One event of a call, or one run of the interrupt handler. */
  datatype Tick = Program(e: Event) | Interrupt

  /** mask_irq, the only thing the handler does to memory. */
  function Masked(m: Mem): Mem
    requires m.WellSized()
  {
    m.(bar2 := AfterWrites(m.bar2, [0]))
  }

  function ExecuteAll(s: State, calls: seq<Call>, ticks: seq<Tick>): (r: State)
    requires Ok(s, calls)
    ensures Ok(r, calls)
    decreases ticks
  {
    if ticks == [] then s
    else if ticks[0].Interrupt? then ExecuteAll(s.(shared := s.shared.(mem := Masked(s.shared.mem))), calls, ticks[1..])
    else ExecuteAll(Step(s, calls, ticks[0].e), calls, ticks[1..])
  }

  /** The same schedule without its interrupts. */
  function Erased(ticks: seq<Tick>): seq<Event> {
    if ticks == [] then []
    else if ticks[0].Interrupt? then Erased(ticks[1..])
    else [ticks[0].e] + Erased(ticks[1..])
  }

  // ---------------------------------------------------------------- memories alike but for the register

  predicate AlikeWindow(bar: u32, v: seq<byte>, w: seq<byte>) {
    |v| == |w| && forall i :: 0 <= i < |v| && !(bar == 2 && InRegister(i)) ==> v[i] == w[i]
  }

  predicate AlikeMem(m: Mem, n: Mem) {
    m.bar0 == n.bar0 && AlikeWindow(2, m.bar2, n.bar2) && m.user == n.user
  }

  predicate AlikeShared(a: Shared, b: Shared) {
    AlikeMem(a.mem, b.mem) && a.buffer == b.buffer
  }

  predicate Alike(a: State, b: State) {
    AlikeShared(a.shared, b.shared) && a.sem == b.sem && a.phases == b.phases && a.order == b.order
  }

  /** A stretch of a region that has no byte of the register. */
  predicate Avoids(bar: u32, addr: nat, n: nat) {
    bar == 2 ==> addr + n <= ENABLE_REGISTER || ENABLE_REGISTER + 4 <= addr
  }

  /** The request is no transfer over the register. A command that writes it is fine. */
  predicate Clear(q: Request) {
    Accepted(q) ==> Avoids(Route(q.cmd), q.cmd.deviceAddr, Width(q.cmd.size, q.reading))
  }

  predicate ClearPhase(p: Phase) {
    p.Moving? ==> Avoids(Route(p.q.cmd), p.addr, p.left)
  }

  predicate ClearState(s: State) {
    forall t :: 0 <= t < |s.phases| ==> ClearPhase(s.phases[t])
  }

  /** No request that a schedule dispatches is a transfer over the register. */
  predicate ClearRun(s: State, calls: seq<Call>, events: seq<Event>)
    requires Ok(s, calls)
    decreases events
  {
    events == [] ||
    var e := events[0];
    && (e.Sched? && e.t < |calls| && s.phases[e.t].Acquired? ==> Clear(Fetch(s.shared.mem.user, calls[e.t])))
    && ClearRun(Step(s, calls, e), calls, events[1..])
  }

  lemma SubAlike(bar: u32, v: seq<byte>, w: seq<byte>, addr: nat, n: nat)
    requires AlikeWindow(bar, v, w) && Avoids(bar, addr, n) && addr + n <= |v|
    ensures Sub(v, addr, n) == Sub(w, addr, n)
  {
  }

  lemma PatchAlike(bar: u32, v: seq<byte>, w: seq<byte>, addr: nat, bs: seq<byte>)
    requires AlikeWindow(bar, v, w) && addr + |bs| <= |v|
    ensures AlikeWindow(bar, Patch(v, addr, bs), Patch(w, addr, bs))
  {
  }

  lemma WindowsAlike(m: Mem, n: Mem, bar: u32)
    requires AlikeMem(m, n) && (bar == 0 || bar == 2)
    ensures AlikeWindow(bar, m.Window(bar), n.Window(bar))
    ensures forall v, w, u, r :: AlikeWindow(bar, v, w) ==>
      AlikeMem(m.With(bar, Effect(v, u, r)), n.With(bar, Effect(w, u, r)))
  {
  }

  lemma MaskedIsAlike(m: Mem)
    requires m.WellSized()
    ensures AlikeMem(Masked(m), m)
  {
    LastWriteStays(m.bar2, [0]);
  }

  /** An interrupt leaves 0 in the register. */
  lemma InterruptClears(s: State, calls: seq<Call>)
    requires Ok(s, calls)
    ensures
      var m := ExecuteAll(s, calls, [Interrupt]).shared.mem;
      AlikeMem(m, s.shared.mem) && Decode(Sub(m.bar2, 0x4050, 4)) == 0
  {
    var s' := s.(shared := s.shared.(mem := Masked(s.shared.mem)));
    assert [Interrupt][1..] == [];
    assert ExecuteAll(s', calls, []) == s';
    assert ExecuteAll(s, calls, [Interrupt]) == s';
    MaskedIsAlike(s.shared.mem);
    RegisterHoldsLast(s.shared.mem.bar2, [0]);
    hide ExecuteAll, AfterWrites, Decode, Sub;
  }

  // ---------------------------------------------------------------- steps keep states alike

  lemma CommandAlike(v: seq<byte>, w: seq<byte>, user: seq<byte>, q: Request)
    requires AlikeWindow(2, v, w) && |v| >= ENABLE_REGISTER + 4
    ensures
      var e := CommandEffect(v, user, q.cmd, q.answers, q.faults);
      var g := CommandEffect(w, user, q.cmd, q.answers, q.faults);
      AlikeWindow(2, e.window, g.window) && e.user == g.user && e.result == g.result
  {
    CommandFrame(v, user, q.cmd, q.answers, q.faults);
    CommandFrame(w, user, q.cmd, q.answers, q.faults);
  }

  lemma SmallAlike(bar: u32, v: seq<byte>, w: seq<byte>, user: seq<byte>, q: Request)
    requires AlikeWindow(bar, v, w) && IsSmall(q.cmd.size)
    requires q.cmd.deviceAddr + Width(q.cmd.size, q.reading) <= |v|
    requires Avoids(bar, q.cmd.deviceAddr, Width(q.cmd.size, q.reading))
    ensures
      var e := SmallEffect(v, q.cmd.deviceAddr, user, q.cmd.userAddr, q.cmd.size, q.faults, q.reading);
      var g := SmallEffect(w, q.cmd.deviceAddr, user, q.cmd.userAddr, q.cmd.size, q.faults, q.reading);
      AlikeWindow(bar, e.window, g.window) && e.user == g.user && e.result == g.result
  {
    var addr, n := q.cmd.deviceAddr, Width(q.cmd.size, q.reading);
    if q.reading {
      SubAlike(bar, v, w, addr, n);
    } else {
      PatchAlike(bar, v, w, addr, Fetched(user, q.cmd.userAddr, n, CopyAt(q.faults, Deciding(q.cmd.size, false))));
    }
    hide Patch, Sub, Fetched, Delivered;
  }

  lemma ServeAlike(m: Mem, n: Mem, q: Request, page: nat)
    requires m.WellSized() && n.WellSized() && page > 0 && AlikeMem(m, n) && Clear(q)
    requires Accepted(q) && !LeavesRegion(|m.user|, q, page) ==> IsSmall(q.cmd.size)
    ensures AlikeMem(Serve(m, q, page).mem, Serve(n, q, page).mem)
    ensures Serve(m, q, page).outcome == Serve(n, q, page).outcome
  {
    if IsCommand(q) {
      WindowsAlike(m, n, 2);
      CommandAlike(m.bar2, n.bar2, m.user, q);
    } else if Accepted(q) && !LeavesRegion(|m.user|, q, page) {
      WindowsAlike(m, n, Route(q.cmd));
      SmallAlike(Route(q.cmd), m.Window(Route(q.cmd)), n.Window(Route(q.cmd)), m.user, q);
    }
    hide CommandEffect, SmallEffect, AlikeWindow;
  }

  lemma DispatchedAlike(a: Shared, b: Shared, c: Call)
    requires a.mem.WellSized() && b.mem.WellSized() && |b.buffer| > 0 && AlikeShared(a, b)
    requires Clear(Fetch(b.mem.user, c))
    ensures Dispatched(a, c).phase == Dispatched(b, c).phase && ClearPhase(Dispatched(b, c).phase)
    ensures AlikeShared(Dispatched(a, c).shared, Dispatched(b, c).shared)
  {
    var q := Fetch(b.mem.user, c);
    hide Serve, Fetch;
    if !(Accepted(q) && !LeavesRegion(|b.mem.user|, q, |b.buffer|) && !IsSmall(q.cmd.size)) {
      ServeAlike(a.mem, b.mem, q, |b.buffer|);
    }
  }

  lemma FilledAlike(a: Shared, b: Shared, p: Phase)
    requires Fits(a, p) && Fits(b, p) && AlikeShared(a, b) && p.Moving? && ClearPhase(p) && !p.filled && p.left > 0
    ensures Filled(a, p).phase == Filled(b, p).phase && ClearPhase(Filled(b, p).phase)
    ensures AlikeShared(Filled(a, p).shared, Filled(b, p).shared)
  {
    NextChunk(b, p);
    if p.q.reading {
      WindowsAlike(a.mem, b.mem, Route(p.q.cmd));
      var bar := Route(p.q.cmd);
      SubAlike(bar, a.mem.Window(bar), b.mem.Window(bar), p.addr, Chunk(p.left, |b.buffer|));
    }
    hide StaysInRegion, Patch, Sub, Fetched, ChunkFails;
  }

  lemma DrainedAlike(a: Shared, b: Shared, p: Phase)
    requires Fits(a, p) && Fits(b, p) && AlikeShared(a, b) && p.Moving? && ClearPhase(p) && p.filled
    ensures Drained(a, p).phase == Drained(b, p).phase && ClearPhase(Drained(b, p).phase)
    ensures AlikeShared(Drained(a, p).shared, Drained(b, p).shared)
  {
    NextChunk(b, p);
    if !p.q.reading {
      var bar := Route(p.q.cmd);
      WindowsAlike(a.mem, b.mem, bar);
      PatchAlike(bar, a.mem.Window(bar), b.mem.Window(bar), p.addr, b.buffer[..Chunk(p.left, |b.buffer|)]);
    }
    hide StaysInRegion, Patch, Delivered, ChunkFails, AlikeWindow;
  }

  lemma StepAlike(a: State, b: State, calls: seq<Call>, e: Event)
    requires Ok(a, calls) && Ok(b, calls) && Alike(a, b) && ClearState(b)
    requires e.Sched? && e.t < |calls| && b.phases[e.t].Acquired? ==> Clear(Fetch(b.shared.mem.user, calls[e.t]))
    ensures Alike(Step(a, calls, e), Step(b, calls, e)) && ClearState(Step(b, calls, e))
  {
    if e.Sched? && e.t < |calls| {
      var p := b.phases[e.t];
      if p.Acquired? {
        DispatchedAlike(a.shared, b.shared, calls[e.t]);
      } else if p.Moving? && p.left > 0 {
        if p.filled { DrainedAlike(a.shared, b.shared, p); } else { FilledAlike(a.shared, b.shared, p); }
      }
      hide Dispatched, Filled, Drained, AlikeShared;
    }
  }

  /** Interrupts do not disturb the calls: with and without them, a schedule goes through the same phases and
      leaves the same memory but for the register. */
  lemma {:induction false} InterruptsAreInvisible(a: State, b: State, calls: seq<Call>, ticks: seq<Tick>)
    requires Ok(a, calls) && Ok(b, calls) && Alike(a, b) && ClearState(b) && ClearRun(b, calls, Erased(ticks))
    ensures Alike(ExecuteAll(a, calls, ticks), Execute(b, calls, Erased(ticks)))
    decreases ticks
  {
    hide Step, AlikeWindow;
    if ticks != [] {
      if ticks[0].Interrupt? {
        MaskedIsAlike(a.shared.mem);
        var a' := a.(shared := a.shared.(mem := Masked(a.shared.mem)));
        AlikeTransitive(a', a, b);
        InterruptsAreInvisible(a', b, calls, ticks[1..]);
      } else {
        var e := ticks[0].e;
        assert Erased(ticks)[1..] == Erased(ticks[1..]);
        StepAlike(a, b, calls, e);
        InterruptsAreInvisible(Step(a, calls, e), Step(b, calls, e), calls, ticks[1..]);
      }
    }
  }

  lemma AlikeTransitive(a: State, b: State, c: State)
    requires Alike(a, b) && Alike(b, c)
    ensures Alike(a, c)
  {
  }

  /** Serialisation under interrupts. However any number of calls and interrupts are interleaved, provided no
      call transfers over the enable register, once all calls have returned memory is, but for that register,
      what serving them one at a time in the order of acquisition leaves, and every call returned what it
      returns there. */
  lemma SerialisationUnderInterrupts(m: Mem, buffer: seq<byte>, calls: seq<Call>, ticks: seq<Tick>)
    requires m.WellSized() && |buffer| > 0
    requires ClearRun(Serial.Init(m, buffer, calls), calls, Erased(ticks))
    ensures
      var s := ExecuteAll(Serial.Init(m, buffer, calls), calls, ticks);
      AllFinished(s) ==>
        && s.sem == 1 && Names(s.order, |calls|)
        && (forall t :: 0 <= t < |calls| && t !in s.order ==> s.phases[t] == Finished(Returned(-ERESTARTSYS)))
        && (NoneStrays(m, calls, s.order, |buffer|) ==>
              && AlikeMem(s.shared.mem, InTurn(m, calls, s.order, |buffer|))
              && forall i :: 0 <= i < |s.order| ==>
                   s.phases[s.order[i]] == Finished(OutcomeInTurn(m, calls, s.order, |buffer|, i)))
  {
    var s0 := Serial.Init(m, buffer, calls);
    hide Execute, ExecuteAll, ClearRun, Erased, Step, Serve, InTurn, OutcomeInTurn;
    InterruptsAreInvisible(s0, s0, calls, ticks);
    Serialisation(m, buffer, calls, Erased(ticks));
  }

  /** Calls and interrupts lead to `s`, and no call transfers over the register. */
  predicate Reached(m: Mem, buffer: seq<byte>, calls: seq<Call>, ticks: seq<Tick>, s: State)
    requires m.WellSized() && |buffer| > 0
  {
    var s0 := Serial.Init(m, buffer, calls);
    ClearRun(s0, calls, Erased(ticks)) && s == ExecuteAll(s0, calls, ticks)
  }

  /** What calls and interrupts lead to is, but for the register, what the calls alone can lead to. */
  lemma ReachedIsAlike(m: Mem, buffer: seq<byte>, calls: seq<Call>, ticks: seq<Tick>, s: State) returns (t: State)
    requires m.WellSized() && |buffer| > 0 && Reached(m, buffer, calls, ticks, s)
    ensures Alike(s, t)
    ensures Inv(t, calls, m) && |t.shared.buffer| == |buffer|
  {
    var s0 := Serial.Init(m, buffer, calls);
    InitKeepsInv(m, buffer, calls);
    ExecuteKeepsInv(s0, calls, m, Erased(ticks));
    t := Execute(s0, calls, Erased(ticks));
    hide ExecuteAll, ClearRun, Erased, Execute, Inv;
    InterruptsAreInvisible(s0, s0, calls, ticks);
  }

  lemma AlikeReadsLastStore(m: Mem, calls: seq<Call>, page: nat, s: State, t: State, pre: seq<Request>, w: Request,
                            between: seq<Request>, r: Request, bar: u32, a: nat)
    requires Alike(s, t) && Inv(t, calls, m) && |t.shared.buffer| == page
    requires s.sem == 0 && s.order != [] && s.order[|s.order| - 1] < |s.phases|
    requires s.phases[s.order[|s.order| - 1]] == Leaving(Returned(0))
    requires InOrder(m, calls, s.order, page) == pre + [w] + between + [r]
    requires LastStore(|m.user|, page, pre, w, between, r, bar, a)
    ensures HoldsStored(s.shared.mem.user, r, Run(m, pre, page).user, w, page, bar, a)
  {
    HolderReadsLastStore(t, calls, m, pre, w, between, r, bar, a);
    hide *;
  }

  /** Reads return the last writes under interrupts as well: the state is any that calls and interrupts lead to in
      which a call is about to return from a successful read. */
  lemma ReadsLastStoreUnderInterrupts(m: Mem, buffer: seq<byte>, calls: seq<Call>, ticks: seq<Tick>, s: State,
                                      pre: seq<Request>, w: Request, between: seq<Request>, r: Request,
                                      bar: u32, a: nat)
    requires m.WellSized() && |buffer| > 0 && Reached(m, buffer, calls, ticks, s)
    requires s.sem == 0 && s.order != [] && Names(s.order, |calls|) && |s.phases| == |calls|
    requires s.phases[s.order[|s.order| - 1]] == Leaving(Returned(0))
    requires InOrder(m, calls, s.order, |buffer|) == pre + [w] + between + [r]
    requires LastStore(|m.user|, |buffer|, pre, w, between, r, bar, a)
    ensures HoldsStored(s.shared.mem.user, r, Run(m, pre, |buffer|).user, w, |buffer|, bar, a)
  {
    hide Reached, Alike, Inv, InOrder, LastStore, HoldsStored, Run;
    var t := ReachedIsAlike(m, buffer, calls, ticks, s);
    AlikeReadsLastStore(m, calls, |buffer|, s, t, pre, w, between, r, bar, a);
  }
}
