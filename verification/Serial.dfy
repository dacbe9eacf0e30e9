/**
 Any number of concurrent read() and write() calls, interleaved at the grain of one
 user copy or one device chunk, around one semaphore and one bounce buffer.
 */
module Serial {
  import opened Bytes
  import opened Common
  import opened Transfer
  import opened Dispatch

  /** Where a call is: waiting for the semaphore, between its acquisition and its release, or back. */
  datatype Phase =
    | Waiting
    | Acquired
    | Moving(q: Request, addr: nat, ua: nat, left: nat, k: nat, filled: bool)
    | Leaving(outcome: Outcome)
    | Finished(outcome: Outcome)

  predicate Inside(p: Phase) {
    p.Acquired? || p.Moving? || p.Leaving?
  }

  /** What the calls share. */
  datatype Shared = Shared(mem: Mem, buffer: seq<byte>)

  /** One step of a call that holds the semaphore, up to but not including the release. */
  datatype Local = Local(shared: Shared, phase: Phase)

  predicate ChunkFails(s: Shared, p: Phase)
    requires p.Moving?
  {
    FaultsAt(|s.mem.user|, p.ua, Chunk(p.left, |s.buffer|), CopyAt(p.q.faults, p.k))
  }

  predicate StaysInRegion(space: nat, page: nat, p: Phase)
    requires p.Moving? && page > 0
  {
    StaysIn(RegionSize(Route(p.q.cmd)), p.addr, space, p.ua, p.left, page, p.q.faults, p.k, p.q.reading)
  }

  /** What is left of a transfer stays in its region; a buffer filled for a write was filled in full. */
  predicate Fits(s: Shared, p: Phase) {
    && s.mem.WellSized() && |s.buffer| > 0
    && (p.Moving? ==>
          && StaysInRegion(|s.mem.user|, |s.buffer|, p)
          && (p.filled ==> p.left > 0 && (p.q.reading || !ChunkFails(s, p))))
  }

  function Dispatched(s: Shared, c: Call): (l: Local)
    requires s.mem.WellSized() && |s.buffer| > 0
  {
    var q := Fetch(s.mem.user, c);
    if Accepted(q) && !LeavesRegion(|s.mem.user|, q, |s.buffer|) && !IsSmall(q.cmd.size) then
      Local(s, Moving(q, q.cmd.deviceAddr, q.cmd.userAddr, q.cmd.size, 0, false))
    else
      var r := Serve(s.mem, q, |s.buffer|);
      Local(Shared(r.mem, s.buffer), Leaving(r.outcome))
  }

  lemma NextChunk(s: Shared, p: Phase)
    requires Fits(s, p) && p.Moving? && p.left > 0
    ensures
      var c := Chunk(p.left, |s.buffer|);
      && (p.q.reading || !ChunkFails(s, p) ==> p.addr + c <= RegionSize(Route(p.q.cmd)))
      && (!ChunkFails(s, p) ==> StaysInRegion(|s.mem.user|, |s.buffer|, Advanced(p, c)))
  {
    TouchedStep(RegionSize(Route(p.q.cmd)), p.addr, |s.mem.user|, p.ua, p.left, |s.buffer|, p.q.faults,
                p.k, p.q.reading, Chunk(p.left, |s.buffer|));
    hide StaysIn, Touched, FaultsAt;
  }

  /** First half of a chunk: into the bounce buffer. */
  function Filled(s: Shared, p: Phase): (l: Local)
    requires Fits(s, p) && p.Moving? && !p.filled && p.left > 0
  {
    NextChunk(s, p);
    var c := Chunk(p.left, |s.buffer|);
    if p.q.reading then
      var window := s.mem.Window(Route(p.q.cmd));
      Local(s.(buffer := Patch(s.buffer, 0, Sub(window, p.addr, c))), p.(filled := true))
    else
      var buffer := Patch(s.buffer, 0, Fetched(s.mem.user, p.ua, c, CopyAt(p.q.faults, p.k)));
      Local(s.(buffer := buffer), if ChunkFails(s, p) then Leaving(Returned(-EFAULT)) else p.(filled := true))
  }

  function Advanced(p: Phase, c: nat): Phase
    requires p.Moving? && c <= p.left
  {
    Moving(p.q, p.addr + c, p.ua + c, p.left - c, p.k + 1, false)
  }

  /** Second half of a chunk: out of the bounce buffer. */
  function Drained(s: Shared, p: Phase): (l: Local)
    requires Fits(s, p) && p.Moving? && p.filled
  {
    NextChunk(s, p);
    var c := Chunk(p.left, |s.buffer|);
    if p.q.reading then
      var user := Delivered(s.mem.user, p.ua, s.buffer[..c], CopyAt(p.q.faults, p.k));
      Local(s.(mem := s.mem.(user := user)),
            if ChunkFails(s, p) then Leaving(Returned(-EFAULT)) else Advanced(p, c))
    else
      var bar := Route(p.q.cmd);
      var window := Patch(s.mem.Window(bar), p.addr, s.buffer[..c]);
      Local(s.(mem := s.mem.With(bar, Effect(window, s.mem.user, 0))), Advanced(p, c))
  }

  function Move(s: Shared, c: Call, p: Phase): (l: Local)
    requires Fits(s, p) && (p.Acquired? || p.Moving?)
    ensures Fits(l.shared, l.phase) && |l.shared.buffer| == |s.buffer| && |l.shared.mem.user| == |s.mem.user|
    ensures Inside(l.phase) && Rank(l.phase) < Rank(p)
  {
    if p.Acquired? then Dispatched(s, c)
    else if p.left == 0 then Local(s, Leaving(Returned(0)))
    else
      NextChunk(s, p);
      if p.filled then Drained(s, p) else Filled(s, p)
  }

  /** A bound on the steps a call has before it. */
  function Rank(p: Phase): nat {
    match p
    case Waiting => 0x4_0000_0000
    case Acquired => 0x3_0000_0000
    case Moving(_, _, _, left, _, filled) => 2 + 2 * left + if filled then 0 else 1
    case Leaving(_) => 1
    case Finished(_) => 0
  }

  /** The holder of the semaphore, left to run alone until it is about to release it. */
  function Finish(s: Shared, c: Call, p: Phase): (l: Local)
    requires Fits(s, p) && Inside(p)
    ensures l.phase.Leaving?
    decreases Rank(p)
  {
    if p.Leaving? then Local(s, p)
    else
      var l := Move(s, c, p);
      Finish(l.shared, c, l.phase)
  }

  /** The memory and outcome a run alone ends with, as one value. */
  function Ending(l: Local): Served
    requires l.phase.Leaving?
  {
    Served(l.shared.mem, l.phase.outcome)
  }

  /** The flat copy of what is left of a transfer. */
  function LeftEffect(window: seq<byte>, user: seq<byte>, p: Phase, page: nat): Effect
    requires page > 0 && p.Moving? && |window| == RegionSize(Route(p.q.cmd)) && StaysInRegion(|user|, page, p)
  {
    LargeEffect(window, p.addr, user, p.ua, p.left, page, p.q.faults, p.k, p.q.reading)
  }

  function LargeServed(m: Mem, p: Phase, page: nat): Served
    requires m.WellSized() && page > 0 && p.Moving? && StaysInRegion(|m.user|, page, p)
  {
    var e := LeftEffect(m.Window(Route(p.q.cmd)), m.user, p, page);
    Served(m.With(Route(p.q.cmd), e), Returned(e.result))
  }

  /** A transfer whose next chunk fails ends with what that chunk delivers. */
  lemma LargeServedStops(m: Mem, p: Phase, page: nat, c: nat)
    requires m.WellSized() && page > 0 && p.Moving? && p.left > 0 && StaysInRegion(|m.user|, page, p)
    requires c == Chunk(p.left, page) && FaultsAt(|m.user|, p.ua, c, CopyAt(p.q.faults, p.k))
    ensures
      var window, copy := m.Window(Route(p.q.cmd)), CopyAt(p.q.faults, p.k);
      && (p.q.reading ==> p.addr + c <= |window|)
      && LargeServed(m, p, page) ==
           Served(if p.q.reading then m.(user := Delivered(m.user, p.ua, Sub(window, p.addr, c), copy)) else m,
                  Returned(-EFAULT))
  {
    var window := m.Window(Route(p.q.cmd));
    LargeStops(window, p.addr, m.user, p.ua, p.left, page, p.q.faults, p.k, p.q.reading, c);
    hide LargeEffect, FaultsAt, StaysIn, Delivered, Sub, CopyAt, Chunk, RegionSize;
  }

  /** Memory after one whole chunk. */
  function ChunkMoved(m: Mem, p: Phase, c: nat): Mem
    requires p.Moving? && p.addr + c <= |m.Window(Route(p.q.cmd))| && p.ua + c <= |m.user|
  {
    var bar := Route(p.q.cmd);
    if p.q.reading then m.(user := Patch(m.user, p.ua, Sub(m.Window(bar), p.addr, c)))
    else m.With(bar, Effect(Patch(m.Window(bar), p.addr, Sub(m.user, p.ua, c)), m.user, 0))
  }

  lemma LeftGoesOn(window: seq<byte>, user: seq<byte>, p: Phase, page: nat, c: nat)
    requires page > 0 && p.Moving? && |window| == RegionSize(Route(p.q.cmd)) && StaysInRegion(|user|, page, p)
    requires p.left > 0 && c == Chunk(p.left, page) && !FaultsAt(|user|, p.ua, c, CopyAt(p.q.faults, p.k))
    ensures c <= p.left && p.addr + c <= |window| && p.ua + c <= |user| && StaysInRegion(|user|, page, Advanced(p, c))
    ensures LeftEffect(window, user, p, page) ==
      if p.q.reading then LeftEffect(window, Patch(user, p.ua, Sub(window, p.addr, c)), Advanced(p, c), page)
      else LeftEffect(Patch(window, p.addr, Sub(user, p.ua, c)), user, Advanced(p, c), page)
  {
    LargeGoesOn(window, p.addr, user, p.ua, p.left, page, p.q.faults, p.k, p.q.reading, c);
    hide LargeEffect, FaultsAt, Touched, Patch, Sub, CopyAt, Route, RegionSize;
    var p1 := Advanced(p, c);
    assert p1.addr == p.addr + c && p1.ua == p.ua + c && p1.left == p.left - c && p1.k == p.k + 1 && p1.q == p.q;
    hide StaysIn, Chunk, Advanced;
  }

  /** Any other is that chunk followed by what is then left. */
  lemma LargeServedGoesOn(m: Mem, p: Phase, page: nat, c: nat)
    requires m.WellSized() && page > 0 && p.Moving? && p.left > 0 && StaysInRegion(|m.user|, page, p)
    requires c == Chunk(p.left, page) && !FaultsAt(|m.user|, p.ua, c, CopyAt(p.q.faults, p.k))
    ensures c <= p.left && p.addr + c <= |m.Window(Route(p.q.cmd))| && p.ua + c <= |m.user|
    ensures StaysInRegion(|m.user|, page, Advanced(p, c))
    ensures LargeServed(m, p, page) == LargeServed(ChunkMoved(m, p, c), Advanced(p, c), page)
  {
    LeftGoesOn(m.Window(Route(p.q.cmd)), m.user, p, page, c);
    hide LeftEffect, StaysInRegion, FaultsAt, Patch, Sub, CopyAt, Chunk, Route, RegionSize;
  }

  /** What a chunk does to memory does not depend on what the bounce buffer held. */
  lemma FilledThenDrained(s: Shared, p: Phase)
    requires Fits(s, p) && p.Moving? && !p.filled && p.left > 0
    ensures
      var q, bar, c := p.q, Route(p.q.cmd), Chunk(p.left, |s.buffer|);
      var l, window, copy := Filled(s, p), s.mem.Window(bar), CopyAt(q.faults, p.k);
      if !q.reading && ChunkFails(s, p) then l.shared.mem == s.mem && l.phase == Leaving(Returned(-EFAULT))
      else
        && l.phase == p.(filled := true) && l.shared.mem == s.mem && |l.shared.buffer| == |s.buffer|
        && c <= |s.buffer|
        && (q.reading ==> p.addr + c <= |window| && l.shared.buffer[..c] == Sub(window, p.addr, c))
        && (!q.reading ==> p.ua + c <= |s.mem.user| && l.shared.buffer[..c] == Sub(s.mem.user, p.ua, c))
  {
    NextChunk(s, p);
    hide StaysIn, RegionSize, Route;
  }

  lemma ReadChunkRefines(s: Shared, c: Call, p: Phase)
    requires Fits(s, p) && p.Moving? && !p.filled && p.left > 0 && p.q.reading
    ensures
      var l := Move(s, c, p);
      && l.phase.Moving?
      && var d := Move(l.shared, c, l.phase);
      if d.phase.Leaving? then Ending(d) == LargeServed(s.mem, p, |s.buffer|)
      else
        && d.phase == Advanced(p, Chunk(p.left, |s.buffer|))
        && LargeServed(d.shared.mem, d.phase, |s.buffer|) == LargeServed(s.mem, p, |s.buffer|)
  {
    if ChunkFails(s, p) { LargeServedStops(s.mem, p, |s.buffer|, Chunk(p.left, |s.buffer|)); }
    else { LargeServedGoesOn(s.mem, p, |s.buffer|, Chunk(p.left, |s.buffer|)); }
    FilledThenDrained(s, p);
    hide LargeServed, Filled, StaysInRegion, Delivered, Patch, Sub, CopyAt, Chunk, RegionSize, Route, FaultsAt, Rank;
  }

  lemma WriteChunkRefines(s: Shared, c: Call, p: Phase)
    requires Fits(s, p) && p.Moving? && !p.filled && p.left > 0 && !p.q.reading
    ensures
      var l := Move(s, c, p);
      if l.phase.Leaving? then Ending(l) == LargeServed(s.mem, p, |s.buffer|)
      else
        && var d := Move(l.shared, c, l.phase);
        && d.phase == Advanced(p, Chunk(p.left, |s.buffer|))
        && LargeServed(d.shared.mem, d.phase, |s.buffer|) == LargeServed(s.mem, p, |s.buffer|)
  {
    if ChunkFails(s, p) { LargeServedStops(s.mem, p, |s.buffer|, Chunk(p.left, |s.buffer|)); }
    else { LargeServedGoesOn(s.mem, p, |s.buffer|, Chunk(p.left, |s.buffer|)); }
    FilledThenDrained(s, p);
    hide LargeServed, Filled, StaysInRegion, Delivered, Patch, Sub, CopyAt, Chunk, RegionSize, Route, FaultsAt, Rank;
  }

  /** Filling and draining one chunk advances the flat copy by that chunk. */
  lemma ChunkRefines(s: Shared, c: Call, p: Phase)
    requires Fits(s, p) && p.Moving? && !p.filled && p.left > 0
    ensures
      var l := Move(s, c, p);
      if l.phase.Leaving? then Ending(l) == LargeServed(s.mem, p, |s.buffer|)
      else
        var d := Move(l.shared, c, l.phase);
        if d.phase.Leaving? then Ending(d) == LargeServed(s.mem, p, |s.buffer|)
        else
          && d.phase == Advanced(p, Chunk(p.left, |s.buffer|))
          && LargeServed(d.shared.mem, d.phase, |s.buffer|) == LargeServed(s.mem, p, |s.buffer|)
  {
    hide Move, LargeServed;
    if p.q.reading { ReadChunkRefines(s, c, p); } else { WriteChunkRefines(s, c, p); }
  }

  /** The chunk loop is the flat copy, whatever the bounce buffer held before. */
  lemma {:induction false} LoopRefines(s: Shared, c: Call, p: Phase)
    requires Fits(s, p) && p.Moving? && !p.filled
    ensures Ending(Finish(s, c, p)) == LargeServed(s.mem, p, |s.buffer|)
    decreases p.left
  {
    var l := Move(s, c, p);
    assert Finish(s, c, p) == Finish(l.shared, c, l.phase);
    if p.left > 0 {
      ChunkRefines(s, c, p);
      if l.phase.Moving? {
        var d := Move(l.shared, c, l.phase);
        assert Finish(l.shared, c, l.phase) == Finish(d.shared, c, d.phase);
        if d.phase.Moving? { LoopRefines(d.shared, c, d.phase); }
      }
    }
  }

  /** A call that runs alone from acquisition to release does what one flat request does. */
  lemma AloneServes(s: Shared, c: Call)
    requires s.mem.WellSized() && |s.buffer| > 0
    ensures Ending(Finish(s, c, Acquired)) == ServeCall(s.mem, c, |s.buffer|)
  {
    var l := Move(s, c, Acquired);
    assert Finish(s, c, Acquired) == Finish(l.shared, c, l.phase);
    if l.phase.Moving? { LoopRefines(s, c, l.phase); }
  }

  // ---------------------------------------------------------------- interleaving

  /** The whole system. `order` records the calls in the order they acquired the semaphore. */
  datatype State = State(shared: Shared, sem: nat, phases: seq<Phase>, order: seq<nat>)

  /** The scheduler lets call t take one step, or a signal reaches it. */
  datatype Event = Sched(t: nat) | Signal(t: nat)

  predicate Ok(s: State, calls: seq<Call>) {
    && |s.phases| == |calls|
    && (forall t :: 0 <= t < |calls| ==> Fits(s.shared, s.phases[t]))
    && s.shared.mem.WellSized() && |s.shared.buffer| > 0
  }

  function Init(m: Mem, buffer: seq<byte>, calls: seq<Call>): State {
    State(Shared(m, buffer), 1, seq(|calls|, _ => Waiting), [])
  }

  /** One step of call t: down_interruptible (blocking while the semaphore is taken), a piece of the
      transfer, or up. */
  function Scheduled(s: State, calls: seq<Call>, t: nat): (r: State)
    requires Ok(s, calls) && t < |calls|
    ensures Ok(r, calls) && |r.shared.buffer| == |s.shared.buffer|
  {
    match s.phases[t]
    case Waiting =>
      if s.sem > 0 then s.(sem := s.sem - 1, phases := s.phases[t := Acquired], order := s.order + [t]) else s
    case Leaving(o) => s.(sem := s.sem + 1, phases := s.phases[t := Finished(o)])
    case Finished(_) => s
    case p =>
      var l := Move(s.shared, calls[t], p);
      s.(shared := l.shared, phases := s.phases[t := l.phase])
  }

  function Step(s: State, calls: seq<Call>, e: Event): (r: State)
    requires Ok(s, calls)
    ensures Ok(r, calls) && |r.shared.buffer| == |s.shared.buffer|
  {
    if e.t >= |calls| then s
    else if e.Sched? then Scheduled(s, calls, e.t)
    else if s.phases[e.t].Waiting? && s.sem == 0 then s.(phases := s.phases[e.t := Finished(Returned(-ERESTARTSYS))])
    else s
  }

  function Execute(s: State, calls: seq<Call>, schedule: seq<Event>): (r: State)
    requires Ok(s, calls)
    ensures Ok(r, calls) && |r.shared.buffer| == |s.shared.buffer|
    decreases schedule
  {
    if schedule == [] then s else Execute(Step(s, calls, schedule[0]), calls, schedule[1..])
  }

  predicate Names(order: seq<nat>, n: nat) {
    forall i :: 0 <= i < |order| ==> order[i] < n
  }

  /** The calls served one at a time in a given order. */
  function InTurn(m: Mem, calls: seq<Call>, order: seq<nat>, page: nat): (r: Mem)
    requires m.WellSized() && page > 0 && Names(order, |calls|)
    ensures r.WellSized()
  {
    if order == [] then m
    else
      var before := order[..|order| - 1];
      ServeCall(InTurn(m, calls, before, page), calls[order[|order| - 1]], page).mem
  }

  /** What call order[i] returns when its turn comes. */
  function OutcomeInTurn(m: Mem, calls: seq<Call>, order: seq<nat>, page: nat, i: nat): Outcome
    requires m.WellSized() && page > 0 && Names(order, |calls|) && i < |order|
  {
    ServeCall(InTurn(m, calls, order[..i], page), calls[order[i]], page).outcome
  }

  /** The semaphore admits one call at a time, and every call inside holds it. */
  predicate Exclusive(s: State) {
    if s.sem == 0 then
      && |s.order| > 0
      && var h := s.order[|s.order| - 1];
      && h < |s.phases| && Inside(s.phases[h])
      && forall t :: 0 <= t < |s.phases| && Inside(s.phases[t]) ==> t == h
    else s.sem == 1 && forall t :: 0 <= t < |s.phases| ==> !Inside(s.phases[t])
  }

  /** The log of acquisitions names each call that got in, once. */
  predicate Logged(s: State) {
    && Names(s.order, |s.phases|)
    && (forall i :: 0 <= i < |s.order| ==> !s.phases[s.order[i]].Waiting?)
    && (forall i, j :: 0 <= i < j < |s.order| ==> s.order[i] != s.order[j])
    && (forall t :: 0 <= t < |s.phases| && t !in s.order ==>
          s.phases[t].Waiting? || s.phases[t] == Finished(Returned(-ERESTARTSYS)))
  }

  predicate ReturnsInTurn(s: State, calls: seq<Call>, m: Mem)
    requires Ok(s, calls) && Logged(s) && m.WellSized()
  {
    forall i :: 0 <= i < |s.order| && s.phases[s.order[i]].Finished? ==>
      s.phases[s.order[i]].outcome == OutcomeInTurn(m, calls, s.order, |s.shared.buffer|, i)
  }

  /** Between calls memory is what the serial execution left; while one is inside, letting it finish
      would leave what the serial execution leaves, with the outcome it has there. */
  predicate MatchesSerial(s: State, calls: seq<Call>, m: Mem)
    requires Ok(s, calls) && Logged(s) && Exclusive(s) && m.WellSized()
  {
    var page := |s.shared.buffer|;
    if s.sem == 1 then s.shared.mem == InTurn(m, calls, s.order, page)
    else
      var n := |s.order| - 1;
      Ending(Finish(s.shared, calls[s.order[n]], s.phases[s.order[n]])) ==
        ServeCall(InTurn(m, calls, s.order[..n], page), calls[s.order[n]], page)
  }

  predicate Inv(s: State, calls: seq<Call>, m: Mem) {
    && m.WellSized() && Ok(s, calls) && Logged(s) && Exclusive(s)
    && MatchesSerial(s, calls, m) && ReturnsInTurn(s, calls, m)
  }

  lemma Acquires(s: State, calls: seq<Call>, m: Mem, t: nat)
    requires Inv(s, calls, m) && t < |calls| && s.phases[t].Waiting? && s.sem > 0
    ensures Inv(Scheduled(s, calls, t), calls, m)
  {
    hide Finish, ServeCall, Move, InTurn;
    var r := Scheduled(s, calls, t);
    var n := |s.order|;
    assert r.order[..n] == s.order;
    AloneServes(s.shared, calls[t]);
    forall i | 0 <= i < n && r.phases[r.order[i]].Finished?
      ensures r.phases[r.order[i]].outcome == OutcomeInTurn(m, calls, r.order, |r.shared.buffer|, i)
    {
      assert r.order[..i] == s.order[..i];
    }
  }

  lemma FinishStep(s: Shared, c: Call, p: Phase)
    requires Fits(s, p) && (p.Acquired? || p.Moving?)
    ensures var l := Move(s, c, p); Finish(s, c, p) == Finish(l.shared, c, l.phase)
  {
  }

  lemma Moves(s: State, calls: seq<Call>, m: Mem, t: nat)
    requires Inv(s, calls, m) && t < |calls| && (s.phases[t].Acquired? || s.phases[t].Moving?)
    ensures Inv(Scheduled(s, calls, t), calls, m)
  {
    hide Finish, ServeCall, Move, InTurn;
    var r := Scheduled(s, calls, t);
    FinishStep(s.shared, calls[t], s.phases[t]);
    forall i | 0 <= i < |s.order| && r.phases[r.order[i]].Finished?
      ensures r.phases[r.order[i]].outcome == OutcomeInTurn(m, calls, r.order, |r.shared.buffer|, i)
    {
      assert s.order[i] != t;
    }
  }

  /** A call about to release has served its turn. */
  lemma LastTurn(s: State, calls: seq<Call>, m: Mem)
    requires Inv(s, calls, m) && s.sem == 0 && s.phases[s.order[|s.order| - 1]].Leaving?
    ensures s.shared.mem == InTurn(m, calls, s.order, |s.shared.buffer|)
    ensures s.phases[s.order[|s.order| - 1]].outcome ==
      OutcomeInTurn(m, calls, s.order, |s.shared.buffer|, |s.order| - 1)
  {
  }

  lemma Releases(s: State, calls: seq<Call>, m: Mem, t: nat)
    requires Inv(s, calls, m) && t < |calls| && s.phases[t].Leaving?
    ensures Inv(Scheduled(s, calls, t), calls, m)
  {
    hide Finish, ServeCall, Move, InTurn;
    var r := Scheduled(s, calls, t);
    var n := |s.order| - 1;
    assert s.order[n] == t;
    LastTurn(s, calls, m);
    forall i | 0 <= i < |s.order| && r.phases[r.order[i]].Finished?
      ensures r.phases[r.order[i]].outcome == OutcomeInTurn(m, calls, r.order, |r.shared.buffer|, i)
    {
      if i < n { assert s.order[i] != t; }
    }
  }

  lemma GivesUp(s: State, calls: seq<Call>, m: Mem, t: nat)
    requires Inv(s, calls, m) && t < |calls| && s.phases[t].Waiting? && s.sem == 0
    ensures Inv(Step(s, calls, Signal(t)), calls, m)
  {
    hide Finish, ServeCall, Move, InTurn;
    var r := Step(s, calls, Signal(t));
    forall i | 0 <= i < |s.order| && r.phases[r.order[i]].Finished?
      ensures r.phases[r.order[i]].outcome == OutcomeInTurn(m, calls, r.order, |r.shared.buffer|, i)
    {
      assert s.order[i] != t;
    }
  }

  lemma StepKeepsInv(s: State, calls: seq<Call>, m: Mem, e: Event)
    requires Inv(s, calls, m)
    ensures Inv(Step(s, calls, e), calls, m)
  {
    if e.t < |calls| {
      var p := s.phases[e.t];
      if e.Signal? {
        if p.Waiting? && s.sem == 0 { GivesUp(s, calls, m, e.t); }
      } else {
        match p
        case Waiting => if s.sem > 0 { Acquires(s, calls, m, e.t); }
        case Leaving(_) => Releases(s, calls, m, e.t);
        case Finished(_) =>
        case _ => Moves(s, calls, m, e.t);
      }
    }
  }

  lemma InitKeepsInv(m: Mem, buffer: seq<byte>, calls: seq<Call>)
    requires m.WellSized() && |buffer| > 0
    ensures Inv(Init(m, buffer, calls), calls, m)
  {
    hide Finish, ServeCall;
  }

  /** What a step of the scheduler is, phase by phase: a waiting call takes a free semaphore and is logged, or stays
      where it is; one about to return gives it back, with its outcome; a signal ends a wait with -ERESTARTSYS, -512,
      and disturbs no call that is inside. Of these only a step of a call inside touches memory or the bounce buffer. */
  lemma SchedulerMeaning(s: State, calls: seq<Call>, t: nat)
    requires Ok(s, calls) && t < |calls|
    ensures
      var p, run, hit := s.phases[t], Step(s, calls, Sched(t)), Step(s, calls, Signal(t));
      && (forall u :: 0 <= u < |calls| && u != t ==> run.phases[u] == s.phases[u] && hit.phases[u] == s.phases[u])
      && hit.shared == s.shared && hit.sem == s.sem && hit.order == s.order
      && hit.phases[t] == (if p.Waiting? && s.sem == 0 then Finished(Returned(-512)) else p)
      && (p.Waiting? && s.sem > 0 ==> run.phases[t] == Acquired && run.sem == s.sem - 1 && run.order == s.order + [t])
      && (p.Waiting? && s.sem == 0 ==> run == s)
      && (p.Leaving? ==> run.phases[t] == Finished(p.outcome) && run.sem == s.sem + 1 && run.order == s.order)
      && (p.Finished? ==> run == s)
      && (p.Acquired? || p.Moving? ==> run.sem == s.sem && run.order == s.order && Inside(run.phases[t]))
      && (!(p.Acquired? || p.Moving?) ==> run.shared == s.shared)
  {
    hide Move, Rank;
  }

  /** The grain of the interleaving. A large transfer that has been admitted has moved nothing yet, and each later
      step of it moves at most one chunk: into the bounce buffer, leaving both memories alone, or out of it, into
      one memory and within the chunk. */
  lemma OneChunkAtATime(s: Shared, c: Call, p: Phase)
    requires Fits(s, p) && (p.Acquired? || p.Moving?)
    ensures
      var l, q, n := Move(s, c, p), Fetch(s.mem.user, c), if p.Moving? then Chunk(p.left, |s.buffer|) else 0;
      && (p.Acquired? && l.phase.Moving? ==>
            l.shared == s && l.phase.left == q.cmd.size && l.phase.q == q && !l.phase.filled)
      && (p.Acquired? && !l.phase.Moving? ==>
            !Accepted(q) || IsSmall(q.cmd.size) || LeavesRegion(|s.mem.user|, q, |s.buffer|))
      && (p.Moving? ==> n <= |s.buffer|)
      && (p.Moving? && !p.filled ==>
            && l.shared.mem == s.mem && (l.phase.Moving? ==> l.phase == p.(filled := true))
            && (p.left == 0 ==> l.phase == Leaving(Returned(0))))
      && (p.Moving? && p.filled ==>
            && l.shared.buffer == s.buffer
            && (l.phase.Moving? ==> l.phase.left == p.left - n && !l.phase.filled)
            && ChangedWithin(s.mem.user, l.shared.mem.user, p.ua, if p.q.reading then n else 0)
            && ChangedWithin(s.mem.Window(Route(p.q.cmd)), l.shared.mem.Window(Route(p.q.cmd)), p.addr,
                          if p.q.reading then 0 else n))
  {
    if p.Moving? && p.left > 0 { NextChunk(s, p); }
    hide StaysInRegion, Serve, ChunkFails, Fetch, Fetched, RegionSize;
  }

  /** The two differ at most in the n bytes at `at`. */
  predicate ChangedWithin(before: seq<byte>, after: seq<byte>, at: nat, n: nat) {
    |before| == |after| && forall i :: 0 <= i < |before| && !(at <= i < at + n) ==> after[i] == before[i]
  }

  lemma {:induction false} ExecuteKeepsInv(s: State, calls: seq<Call>, m: Mem, schedule: seq<Event>)
    requires Inv(s, calls, m)
    ensures Inv(Execute(s, calls, schedule), calls, m)
    decreases schedule
  {
    if schedule != [] {
      StepKeepsInv(s, calls, m, schedule[0]);
      ExecuteKeepsInv(Step(s, calls, schedule[0]), calls, m, schedule[1..]);
    }
  }

  /** In every state of every schedule at most one call is between acquiring and releasing the semaphore,
      and the semaphore's value says whether one is. */
  lemma MutualExclusion(m: Mem, buffer: seq<byte>, calls: seq<Call>, schedule: seq<Event>, t: nat, u: nat)
    requires m.WellSized() && |buffer| > 0 && t < |calls| && u < |calls|
    ensures
      var s := Execute(Init(m, buffer, calls), calls, schedule);
      && (Inside(s.phases[t]) && Inside(s.phases[u]) ==> t == u)
      && (Inside(s.phases[t]) ==> s.sem == 0) && s.sem <= 1
  {
    hide Execute, Finish, ServeCall, Move, Step;
    InitKeepsInv(m, buffer, calls);
    ExecuteKeepsInv(Init(m, buffer, calls), calls, m, schedule);
  }

  /** No call leaves its region when the calls are served one at a time. */
  predicate NoneStrays(m: Mem, calls: seq<Call>, order: seq<nat>, page: nat)
    requires m.WellSized() && page > 0 && Names(order, |calls|)
  {
    forall i :: 0 <= i < |order| ==> !OutcomeInTurn(m, calls, order, page, i).Stray?
  }

  predicate AllFinished(s: State) {
    forall t :: 0 <= t < |s.phases| ==> s.phases[t].Finished?
  }

  /** Serialisation. However any number of calls are interleaved, once all have returned, memory is what
      serving them one at a time in the order of acquisition leaves, unless one of them strays there; each call
      that acquired the semaphore returned what it returns in that order; every other call was interrupted;
      and the semaphore is free again. The calls' buffers and request blocks may overlap, and the bounce
      buffer's contents at the start do not matter. */
  lemma Serialisation(m: Mem, buffer: seq<byte>, calls: seq<Call>, schedule: seq<Event>)
    requires m.WellSized() && |buffer| > 0
    ensures
      var s := Execute(Init(m, buffer, calls), calls, schedule);
      AllFinished(s) ==>
        && s.sem == 1 && Names(s.order, |calls|)
        && (forall t :: 0 <= t < |calls| && t !in s.order ==> s.phases[t] == Finished(Returned(-ERESTARTSYS)))
        && (NoneStrays(m, calls, s.order, |buffer|) ==>
              && s.shared.mem == InTurn(m, calls, s.order, |buffer|)
              && forall i :: 0 <= i < |s.order| ==>
                   s.phases[s.order[i]] == Finished(OutcomeInTurn(m, calls, s.order, |buffer|, i)))
  {
    hide Execute, Finish, ServeCall, Move, Step;
    InitKeepsInv(m, buffer, calls);
    ExecuteKeepsInv(Init(m, buffer, calls), calls, m, schedule);
  }

  // ---------------------------------------------------------------- progress

  /** While some call has not returned, some call can take a step. */
  lemma SomeCallCanMove(s: State, calls: seq<Call>, m: Mem, t: nat)
    requires Inv(s, calls, m) && t < |calls| && !s.phases[t].Finished?
    ensures exists u: nat :: u < |calls| && Scheduled(s, calls, u) != s
  {
    var u: nat := if s.sem == 0 then s.order[|s.order| - 1] else t;
    var r := Scheduled(s, calls, u);
    assert r.phases[u] != s.phases[u];
  }

  function Total(phases: seq<Phase>): nat {
    if phases == [] then 0 else Rank(phases[0]) + Total(phases[1..])
  }

  lemma {:induction false} TotalUpdate(phases: seq<Phase>, t: nat, p: Phase)
    requires t < |phases|
    ensures Total(phases[t := p]) == Total(phases) - Rank(phases[t]) + Rank(p)
    decreases phases
  {
    if t > 0 {
      assert phases[t := p][1..] == phases[1..][t - 1 := p];
      TotalUpdate(phases[1..], t - 1, p);
    } else {
      assert phases[t := p][1..] == phases[1..];
    }
  }

  /** Every event that does anything brings the end nearer. */
  lemma StepDecreases(s: State, calls: seq<Call>, e: Event)
    requires Ok(s, calls)
    ensures Step(s, calls, e) == s || Total(Step(s, calls, e).phases) < Total(s.phases)
  {
    var r := Step(s, calls, e);
    hide Move, Total;
    if e.t < |calls| {
      TotalUpdate(s.phases, e.t, r.phases[e.t]);
      assert r != s ==> r.phases == s.phases[e.t := r.phases[e.t]];
    }
  }

  lemma {:induction false} IdleOrDecreases(s: State, calls: seq<Call>, events: seq<Event>)
    requires Ok(s, calls)
    ensures
      var r := Execute(s, calls, events);
      Total(r.phases) < Total(s.phases) || forall e <- events :: Step(s, calls, e) == s
    ensures Total(Execute(s, calls, events).phases) <= Total(s.phases)
    decreases events
  {
    hide Step, Total;
    if events != [] {
      StepDecreases(s, calls, events[0]);
      IdleOrDecreases(Step(s, calls, events[0]), calls, events[1..]);
      assert Execute(s, calls, events) == Execute(Step(s, calls, events[0]), calls, events[1..]);
    }
  }

  /** Every call gets a turn. */
  predicate Covers(round: seq<Event>, n: nat) {
    forall t: nat :: t < n ==> Sched(t) in round
  }

  lemma RoundDecreases(s: State, calls: seq<Call>, m: Mem, round: seq<Event>)
    requires Inv(s, calls, m) && Covers(round, |calls|) && !AllFinished(s)
    ensures Total(Execute(s, calls, round).phases) < Total(s.phases)
  {
    hide Execute, Inv, Total;
    InvIsOk(s, calls, m);
    IdleOrDecreases(s, calls, round);
    var t: nat :| t < |s.phases| && !s.phases[t].Finished?;
    SomeCallCanMove(s, calls, m, t);
    var u: nat :| u < |calls| && Scheduled(s, calls, u) != s;
    assert Step(s, calls, Sched(u)) != s;
  }

  lemma InvIsOk(s: State, calls: seq<Call>, m: Mem)
    requires Inv(s, calls, m)
    ensures Ok(s, calls)
  {
  }

  function Concat(rounds: seq<seq<Event>>): seq<Event> {
    if rounds == [] then [] else rounds[0] + Concat(rounds[1..])
  }

  lemma {:induction false} ExecuteConcat(s: State, calls: seq<Call>, a: seq<Event>, b: seq<Event>)
    requires Ok(s, calls)
    ensures Execute(s, calls, a + b) == Execute(Execute(s, calls, a), calls, b)
    decreases a
  {
    if a == [] {
      assert a + b == b;
    } else {
      assert (a + b)[1..] == a[1..] + b;
      ExecuteConcat(Step(s, calls, a[0]), calls, a[1..], b);
    }
  }

  lemma FinishedStays(s: State, calls: seq<Call>, e: Event)
    requires Ok(s, calls) && AllFinished(s)
    ensures Step(s, calls, e) == s
  {
  }

  lemma {:induction false} FinishedForGood(s: State, calls: seq<Call>, events: seq<Event>)
    requires Ok(s, calls) && AllFinished(s)
    ensures Execute(s, calls, events) == s
    decreases events
  {
    if events != [] {
      FinishedStays(s, calls, events[0]);
      FinishedForGood(s, calls, events[1..]);
    }
  }

  lemma {:induction false} RoundsFinish(s: State, calls: seq<Call>, m: Mem, rounds: seq<seq<Event>>)
    requires Inv(s, calls, m) && forall round <- rounds :: Covers(round, |calls|)
    requires |rounds| >= Total(s.phases)
    ensures AllFinished(Execute(s, calls, Concat(rounds)))
    decreases rounds
  {
    hide Inv, Execute, Step, Total, Finish;
    InvIsOk(s, calls, m);
    if AllFinished(s) {
      FinishedForGood(s, calls, Concat(rounds));
    } else {
      if rounds == [] { UnfinishedRanks(s.phases); }
      RoundDecreases(s, calls, m, rounds[0]);
      ExecuteKeepsInv(s, calls, m, rounds[0]);
      RoundsFinish(Execute(s, calls, rounds[0]), calls, m, rounds[1..]);
      ExecuteConcat(s, calls, rounds[0], Concat(rounds[1..]));
    }
  }

  lemma {:induction false} UnfinishedRanks(phases: seq<Phase>)
    requires Total(phases) == 0
    ensures forall t :: 0 <= t < |phases| ==> phases[t].Finished?
    decreases phases
  {
    if phases != [] {
      UnfinishedRanks(phases[1..]);
      assert forall t :: 1 <= t < |phases| ==> phases[t] == phases[1..][t - 1];
    }
  }

  /** Every fair schedule ends: if it gives each call a turn often enough, all of them return. */
  lemma FairSchedulesFinish(m: Mem, buffer: seq<byte>, calls: seq<Call>, rounds: seq<seq<Event>>)
    requires m.WellSized() && |buffer| > 0 && forall round <- rounds :: Covers(round, |calls|)
    requires |rounds| >= Total(Init(m, buffer, calls).phases)
    ensures AllFinished(Execute(Init(m, buffer, calls), calls, Concat(rounds)))
  {
    InitKeepsInv(m, buffer, calls);
    RoundsFinish(Init(m, buffer, calls), calls, m, rounds);
  }

  // ---------------------------------------------------------------- serial executions are runs

  /** The calls in the order they acquired the semaphore. */
  function Ordered(calls: seq<Call>, order: seq<nat>): (cs: seq<Call>)
    requires Names(order, |calls|)
    ensures |cs| == |order|
  {
    seq(|order|, i requires 0 <= i < |order| => calls[order[i]])
  }

  lemma {:induction false} CallsSnoc(m: Mem, cs: seq<Call>, c: Call, page: nat)
    requires m.WellSized() && page > 0
    ensures Requests(m, cs + [c], page) ==
      Requests(m, cs, page) + [Fetch(Run(m, Requests(m, cs, page), page).user, c)]
    ensures Run(m, Requests(m, cs + [c], page), page) == ServeCall(Run(m, Requests(m, cs, page), page), c, page).mem
    decreases cs
  {
    hide ServeCall, Run, Requests;
    RequestsCons(m, cs + [c], page);
    RunOfNone(m, page);
    if cs == [] {
      assert cs + [c] == [c] && [c][1..] == [];
      RunOfNone(ServeCall(m, c, page).mem, page);
    } else {
      assert (cs + [c])[1..] == cs[1..] + [c];
      RequestsCons(m, cs, page);
      CallsSnoc(ServeCall(m, cs[0], page).mem, cs[1..], c, page);
    }
  }

  lemma RunOfNone(m: Mem, page: nat)
    requires m.WellSized() && page > 0
    ensures Requests(m, [], page) == [] && Run(m, Requests(m, [], page), page) == m
  {
  }

  /** Serving calls in turn is running the requests they turn out to be, in that order. */
  lemma {:induction false} InTurnIsRun(m: Mem, calls: seq<Call>, order: seq<nat>, page: nat)
    requires m.WellSized() && page > 0 && Names(order, |calls|)
    ensures InTurn(m, calls, order, page) == Run(m, Requests(m, Ordered(calls, order), page), page)
  {
    hide ServeCall, Run, Requests;
    if order == [] {
      RunOfNone(m, page);
      assert Ordered(calls, order) == [];
    } else {
      var n := |order| - 1;
      InTurnIsRun(m, calls, order[..n], page);
      assert Ordered(calls, order) == Ordered(calls, order[..n]) + [calls[order[n]]];
      CallsSnoc(m, Ordered(calls, order[..n]), calls[order[n]], page);
    }
  }

  /** The requests that calls served in a given order turn out to be. */
  function InOrder(m: Mem, calls: seq<Call>, order: seq<nat>, page: nat): (qs: seq<Request>)
    requires m.WellSized() && page > 0 && Names(order, |calls|)
    ensures |qs| == |order|
  {
    Requests(m, Ordered(calls, order), page)
  }

  lemma LastInOrder(m: Mem, calls: seq<Call>, order: seq<nat>, page: nat)
    requires m.WellSized() && page > 0 && Names(order, |calls|) && order != []
    ensures
      var n := |order| - 1;
      InOrder(m, calls, order, page) ==
        InOrder(m, calls, order[..n], page) + [Fetch(InTurn(m, calls, order[..n], page).user, calls[order[n]])]
  {
    var n := |order| - 1;
    assert Ordered(calls, order) == Ordered(calls, order[..n]) + [calls[order[n]]];
    CallsSnoc(m, Ordered(calls, order[..n]), calls[order[n]], page);
    InTurnIsRun(m, calls, order[..n], page);
    hide Run, Requests, InTurn;
  }

  /** A call about to release leaves what the requests so far, its own the last, do to memory. */
  lemma HolderServed(s: State, calls: seq<Call>, m: Mem, qs: seq<Request>, r: Request, page: nat)
    requires Inv(s, calls, m) && s.sem == 0 && s.phases[s.order[|s.order| - 1]].Leaving?
    requires page == |s.shared.buffer| && InOrder(m, calls, s.order, page) == qs + [r]
    ensures s.shared.mem == Run(m, qs + [r], page)
    ensures s.phases[s.order[|s.order| - 1]].outcome == Serve(Run(m, qs, page), r, page).outcome
  {
    var n := |s.order| - 1;
    LastTurn(s, calls, m);
    InTurnIsRun(m, calls, s.order, page);
    InTurnIsRun(m, calls, s.order[..n], page);
    LastInOrder(m, calls, s.order, page);
    hide Finish, InTurn, Run, Requests, Serve, Logged, ReturnsInTurn;
    assert qs == (qs + [r])[..n] && r == (qs + [r])[n];
  }

  /** Reads return the last writes in every interleaving. When a call is about to return from a successful read,
      the caller's memory holds at each byte what the last of the calls before it, in the order of acquisition,
      to have stored that byte has stored. */
  lemma HolderReadsLastStore(s: State, calls: seq<Call>, m: Mem, pre: seq<Request>, w: Request,
                             between: seq<Request>, r: Request, bar: u32, a: nat)
    requires Inv(s, calls, m) && s.sem == 0 && s.phases[s.order[|s.order| - 1]] == Leaving(Returned(0))
    requires InOrder(m, calls, s.order, |s.shared.buffer|) == pre + [w] + between + [r]
    requires LastStore(|m.user|, |s.shared.buffer|, pre, w, between, r, bar, a)
    ensures HoldsStored(s.shared.mem.user, r, Run(m, pre, |s.shared.buffer|).user, w, |s.shared.buffer|, bar, a)
  {
    var page := |s.shared.buffer|;
    HolderServed(s, calls, m, pre + [w] + between, r, page);
    hide Inv, InOrder, Run, Serve, LastStore, HoldsStored;
    RunReadsLastStore(m, pre, w, between, r, page, bar, a);
  }
}
