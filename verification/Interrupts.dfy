/**
 The interrupt protocol of aclsoc.c, with the commands of aclsoc_cmd.c and the open() of
 aclsoc_fileio.c that take part in it.
 Process context runs one statement at a time; the handler runs to completion between
 any two of them, whenever the hardware lets it.
 */
module Interrupts {
  import opened Common

  datatype Bridge = Fpga2Hps | Hps2Fpga | LwHps2Fpga

  const ALL_BRIDGES := {Fpga2Hps, Hps2Fpga, LwHps2Fpga}

  /** One statement of process context that matters here. The last three are the rest of init_irq, reached
      only when request_irq was granted. */
  datatype Micro =
    | SetTask(task: nat)
    | LoadSignalInfo
    | SetPayload(payload: u32)
    | Mask
    | Unmask
    | FreeIrq
    | Switch(bridge: Bridge, on: bool)
    | Configure(enableAfter: bool)
    | RequestIrq(available: bool)
    | ResetHandled
    | ResetUndelivered
    | InitUnmask

  /** What happened that signals depend on. */
  datatype Entry = Opening(task: nat) | Opened | PayloadSet(payload: u32) | Sent(task: nat, payload: u32)

  /** History since the last reset of each counter: handler runs, undelivered signals, how often the enable
      register became 1 and what it was at the reset. Since the beginning: register writes made with the
      lightweight bridge off, and the log. */
  datatype History = History(taken: nat, lost: nat, ones: nat, base: nat, strayWrites: nat, log: seq<Entry>)

  /** `granted` is init_irq's local result; `todo` is what process context has still to do. */
  datatype State = State(
    registered: bool, granted: bool, enable: bool, line: bool,
    handled: u32, undelivered: u32, task: Option<nat>, payload: u32,
    bridges: set<Bridge>, todo: seq<Micro>, h: History)

  function Bit(b: bool): nat {
    if b then 1 else 0
  }

  /** A count held in a 32-bit size_t. */
  function Wrap(n: nat): u32 {
    n % 0x1_0000_0000
  }

  /** writel to the interrupt enable register, which lies behind the lightweight bridge. */
  function WriteEnable(s: State, bit: bool): State {
    s.(enable := bit,
       h := s.h.(ones := s.h.ones + Bit(bit), strayWrites := s.h.strayWrites + Bit(LwHps2Fpga !in s.bridges)))
  }

  function Logged(s: State, e: Entry): State {
    s.(h := s.h.(log := s.h.log + [e]))
  }

  /** The effect of one statement. A handler is registered only if there is none already. */
  function Perform(s: State, m: Micro): State {
    match m
    case SetTask(t) => Logged(s.(task := Some(t)), Opening(t))
    case LoadSignalInfo => Logged(s.(payload := 0), Opened)
    case SetPayload(p) => Logged(s.(payload := p), PayloadSet(p))
    case Mask => WriteEnable(s, false)
    case Unmask => WriteEnable(s, true)
    case FreeIrq => s.(registered := false)
    case Switch(b, on) => s.(bridges := if on then s.bridges + {b} else s.bridges - {b})
    case Configure(bit) => s.(enable := bit, h := s.h.(ones := s.h.ones + Bit(bit)))
    case RequestIrq(available) =>
      var granted := available && !s.registered;
      s.(granted := granted, registered := s.registered || granted)
    case ResetHandled =>
      if s.granted then s.(handled := 0, h := s.h.(taken := 0, ones := 0, base := Bit(s.enable))) else s
    case ResetUndelivered => if s.granted then s.(undelivered := 0, h := s.h.(lost := 0)) else s
    case InitUnmask => if s.granted then WriteEnable(s, true) else s
  }

  /** aclsoc_irq: count, mask, notify. */
  function Handler(s: State, delivered: bool): State {
    var s1 := WriteEnable(s.(handled := Wrap(s.handled + 1), h := s.h.(taken := s.h.taken + 1)), false);
    if s1.task.None? then s1
    else
      var s2 := Logged(s1, Sent(s1.task.value, s1.payload));
      if delivered then s2 else s2.(undelivered := Wrap(s2.undelivered + 1), h := s2.h.(lost := s2.h.lost + 1))
  }

  /** The hardware interrupts only an enabled, registered and pending line. */
  predicate CanFire(s: State) {
    s.registered && s.enable && s.line
  }

  /** `Store` is a write() that covers the enable register: the bits it stores there, in order. */
  datatype Command =
    | OpenDevice(task: nat)
    | Enable
    | Payload(p: u32)
    | Save
    | Load(available: bool)
    | Store(bits: seq<bool>)

  function Expand(c: Command): seq<Micro> {
    match c
    case OpenDevice(t) => [SetTask(t), LoadSignalInfo]
    case Enable => [Unmask]
    case Payload(p) => [SetPayload(p)]
    case Save => [Mask, FreeIrq, Mask]
    case Load(available) => [RequestIrq(available), ResetHandled, ResetUndelivered, InitUnmask]
    case Store(bits) => seq(|bits|, i requires 0 <= i < |bits| => if bits[i] then Unmask else Mask)
  }

  datatype Event = Main | Call(c: Command) | Fire(delivered: bool) | Line(level: bool)

  function Step(s: State, e: Event): State {
    match e
    case Main => if s.todo == [] then s else Perform(s.(todo := s.todo[1..]), s.todo[0])
    case Call(c) => if s.todo == [] then s.(todo := Expand(c)) else s
    case Fire(delivered) => if CanFire(s) then Handler(s, delivered) else s
    case Line(level) => s.(line := level)
  }

  function Run(s: State, es: seq<Event>): State
    decreases es
  {
    if es == [] then s else Run(Step(s, es[0]), es[1..])
  }

  /** After loading the driver's data: nothing registered, nobody to notify. */
  function Init(enable: bool, line: bool): State {
    State(false, false, enable, line, 0, 0, None, 0, ALL_BRIDGES, [],
          History(0, 0, 0, Bit(enable), 0, []))
  }

  // ---------------------------------------------------------------- counters and floods

  /** The reset of the second counter comes right behind that of the first. */
  predicate ResetsPaired(todo: seq<Micro>) {
    forall i :: 0 <= i < |todo| && todo[i] == ResetHandled ==> i + 1 < |todo| && todo[i + 1] == ResetUndelivered
  }

  predicate BetweenResets(s: State) {
    s.todo != [] && s.todo[0] == ResetUndelivered && s.granted
  }

  predicate CountersOk(s: State) {
    && ResetsPaired(s.todo)
    && s.handled == Wrap(s.h.taken) && s.undelivered == Wrap(s.h.lost)
    && s.h.taken + Bit(s.enable) <= s.h.ones + s.h.base
    && (s.h.lost <= s.h.taken || BetweenResets(s))
  }

  lemma CountWraps(n: nat)
    ensures Wrap(Wrap(n) + 1) == Wrap(n + 1) && Wrap(0) == 0
  {
  }

  lemma PairedTail(todo: seq<Micro>)
    requires ResetsPaired(todo) && todo != []
    ensures ResetsPaired(todo[1..])
    ensures todo[0] == ResetHandled ==> todo[1..] != [] && todo[1..][0] == ResetUndelivered
  {
    assert forall i :: 0 <= i < |todo| - 1 ==> todo[1..][i] == todo[i + 1];
  }

  lemma HandlerKeepsCounters(s: State, delivered: bool)
    requires CountersOk(s) && CanFire(s)
    ensures CountersOk(Handler(s, delivered))
  {
    CountWraps(s.h.taken);
    CountWraps(s.h.lost);
    hide Wrap, ResetsPaired;
  }

  lemma PerformKeepsCounters(s: State)
    requires CountersOk(s) && s.todo != []
    ensures CountersOk(Perform(s.(todo := s.todo[1..]), s.todo[0]))
  {
    PairedTail(s.todo);
    CountWraps(0);
    hide Wrap, ResetsPaired;
  }

  lemma StepKeepsCounters(s: State, e: Event)
    requires CountersOk(s)
    ensures CountersOk(Step(s, e))
  {
    match e
    case Main => if s.todo != [] { PerformKeepsCounters(s); }
    case Call(c) => PairedExpand(c);
    case Fire(delivered) => if CanFire(s) { HandlerKeepsCounters(s, delivered); }
    case Line(_) =>
  }

  lemma PairedExpand(c: Command)
    ensures ResetsPaired(Expand(c))
  {
  }

  lemma {:induction false} RunKeepsCounters(s: State, es: seq<Event>)
    requires CountersOk(s)
    ensures CountersOk(Run(s, es))
    decreases es
  {
    if es != [] {
      StepKeepsCounters(s, es[0]);
      RunKeepsCounters(Step(s, es[0]), es[1..]);
    }
  }

  /** No interrupt flood, in every run and at every point of it: since the counters were last reset the
      handler has run at most as often as the register was armed, counting how it stood at the reset. The
      counters are those numbers in 32 bits, and signals fail at most as often as the handler runs, except
      between the two resets of init_irq, when the second counter is still the old one. */
  lemma NoFlood(enable: bool, line: bool, es: seq<Event>)
    ensures
      var s := Run(Init(enable, line), es);
      && s.h.taken + Bit(s.enable) <= s.h.ones + s.h.base
      && s.handled == Wrap(s.h.taken) && s.undelivered == Wrap(s.h.lost)
      && (!BetweenResets(s) ==> s.h.lost <= s.h.taken)
      && (!BetweenResets(s) && s.h.taken < 0x1_0000_0000 ==> s.undelivered <= s.handled)
  {
    RunKeepsCounters(Init(enable, line), es);
    hide Run, ResetsPaired;
  }

  /** How many handler runs of a schedule do not end in a failed signal. */
  function Unfailing(s: State, es: seq<Event>): nat
    decreases es
  {
    if es == [] then 0
    else Bit(es[0].Fire? && CanFire(s) && (es[0].delivered || s.task.None?)) + Unfailing(Step(s, es[0]), es[1..])
  }

  lemma {:induction false} WindowCounts(s: State, es: seq<Event>)
    requires BetweenResets(s) && forall e <- es :: !e.Main?
    ensures
      var r := Run(s, es);
      && BetweenResets(r) && Unfailing(s, es) <= Bit(s.enable)
      && r.h.taken - r.h.lost == s.h.taken - s.h.lost + Unfailing(s, es)
    decreases es
  {
    hide Wrap;
    if es != [] { WindowCounts(Step(s, es[0]), es[1..]); }
  }

  /** The exception is real, and this is its extent: from the first reset until process context goes on to the
      second, undelivered exceeds handled exactly if more signals had failed before than handlers, of which
      there is at most one, have since run without failing. */
  lemma ResetWindow(s: State, es: seq<Event>)
    requires CountersOk(s) && s.todo != [] && s.todo[0] == ResetHandled && s.granted
    requires forall e <- es :: !e.Main?
    ensures
      var r, n := Run(Step(s, Main), es), Unfailing(Step(s, Main), es);
      BetweenResets(r) && n <= 1 && (r.h.lost > r.h.taken <==> s.h.lost > n)
  {
    PairedTail(s.todo);
    WindowCounts(Step(s, Main), es);
    hide Run, Wrap, Unfailing, ResetsPaired;
  }

  // ---------------------------------------------------------------- a rejected init_irq

  /** Process context is inside an init_irq that has been or will be rejected. */
  predicate Rejected(s: State) {
    && s.registered
    && (forall i :: 0 < i < |s.todo| ==>
          s.todo[i].ResetHandled? || s.todo[i].ResetUndelivered? || s.todo[i].InitUnmask?)
    && (s.todo != [] ==>
          || s.todo[0].RequestIrq?
          || (!s.granted && (s.todo[0].ResetHandled? || s.todo[0].ResetUndelivered? || s.todo[0].InitUnmask?)))
  }

  /** All of the state but the progress of process context. */
  function Visible(s: State): State {
    s.(todo := [], granted := false)
  }

  /** The interrupt and line events of a schedule. */
  function Hardware(es: seq<Event>): seq<Event> {
    if es == [] then []
    else if es[0].Main? then Hardware(es[1..])
    else [es[0]] + Hardware(es[1..])
  }

  lemma RejectedStep(s: State, e: Event)
    requires Rejected(s) && !e.Call?
    ensures Rejected(Step(s, e))
    ensures Visible(Step(s, e)) == if e.Main? then Visible(s) else Step(Visible(s), e)
  {
    if e.Main? && s.todo != [] {
      var r := Step(s, e);
      assert forall i :: 0 <= i < |r.todo| ==> r.todo[i] == s.todo[i + 1];
    }
  }

  lemma {:induction false} RejectedIsInvisible(s: State, es: seq<Event>)
    requires Rejected(s) && forall e <- es :: !e.Call?
    ensures Visible(Run(s, es)) == Visible(Run(Visible(s), Hardware(es)))
    decreases es
  {
    if es != [] {
      var r := Step(s, es[0]);
      RejectedStep(s, es[0]);
      RejectedIsInvisible(r, es[1..]);
      if !es[0].Main? {
        assert Hardware(es)[1..] == Hardware(es[1..]);
        assert Run(Visible(s), Hardware(es)) == Run(Step(Visible(s), es[0]), Hardware(es[1..]));
      }
    }
  }

  /** A second init_irq changes nothing, counters and register included, however interrupts interleave with
      it: only what the hardware does is seen. */
  lemma SecondInitChangesNothing(s: State, available: bool, es: seq<Event>)
    requires s.registered && s.todo == [] && forall e <- es :: !e.Call?
    ensures Visible(Run(Step(s, Call(Load(available))), es)) == Visible(Run(Visible(s), Hardware(es)))
  {
    RejectedIsInvisible(Step(s, Call(Load(available))), es);
  }

  // ---------------------------------------------------------------- where signals go

  function LatestOpen(log: seq<Entry>): Option<nat> {
    if log == [] then None
    else
      var last := log[|log| - 1];
      if last.Opening? then Some(last.task) else LatestOpen(log[..|log| - 1])
  }

  /** An open() has announced its task but not yet cleared the payload. */
  predicate InOpening(log: seq<Entry>) {
    log != [] &&
    var last := log[|log| - 1];
    last.Opening? || (!last.Opened? && InOpening(log[..|log| - 1]))
  }

  /** The last payload set since the latest open() began, or 0. */
  function PayloadSince(log: seq<Entry>): u32 {
    if log == [] then 0
    else
      var last := log[|log| - 1];
      match last
      case PayloadSet(p) => p
      case Sent(_, _) => PayloadSince(log[..|log| - 1])
      case _ => 0
  }

  /** The last payload set since an open() was completed, or 0. */
  function PayloadNow(log: seq<Entry>): u32 {
    if log == [] then 0
    else
      var last := log[|log| - 1];
      match last
      case PayloadSet(p) => p
      case Opened => 0
      case _ => PayloadNow(log[..|log| - 1])
  }

  lemma {:induction false} OutsideOpening(log: seq<Entry>)
    requires !InOpening(log)
    ensures PayloadSince(log) == PayloadNow(log)
    decreases |log|
  {
    if log != [] && log[|log| - 1].Sent? { OutsideOpening(log[..|log| - 1]); }
  }

  predicate SignalOk(log: seq<Entry>, i: nat)
    requires i < |log|
  {
    log[i].Sent? ==>
      && LatestOpen(log[..i]) == Some(log[i].task)
      && log[i].payload == PayloadNow(log[..i])
  }

  predicate SignalsOk(s: State) {
    && s.task == LatestOpen(s.h.log) && s.payload == PayloadNow(s.h.log)
    && forall i :: 0 <= i < |s.h.log| ==> SignalOk(s.h.log, i)
  }

  lemma LogGrows(log: seq<Entry>, e: Entry)
    requires forall i :: 0 <= i < |log| ==> SignalOk(log, i)
    requires e.Sent? ==> LatestOpen(log) == Some(e.task) && e.payload == PayloadNow(log)
    ensures (log + [e])[..|log|] == log
    ensures forall i :: 0 <= i <= |log| ==> SignalOk(log + [e], i)
  {
    forall i | 0 <= i <= |log| ensures SignalOk(log + [e], i) {
      assert (log + [e])[..i] == log[..i];
      if i < |log| { assert SignalOk(log, i); } else { assert log[..i] == log; }
    }
  }

  lemma LoggedKeepsSignals(s: State, e: Entry)
    requires SignalsOk(s)
    requires e.Sent? ==> s.task == Some(e.task) && e.payload == s.payload
    ensures
      var log := Logged(s, e).h.log;
      && (forall i :: 0 <= i < |log| ==> SignalOk(log, i))
      && LatestOpen(log) == (if e.Opening? then Some(e.task) else s.task)
      && PayloadNow(log) == (match e case PayloadSet(p) => p case Opened => 0 case _ => s.payload)
  {
    LogGrows(s.h.log, e);
  }

  /** What a statement adds to the log. */
  function EntryOf(m: Micro): Option<Entry> {
    match m
    case SetTask(t) => Some(Opening(t))
    case LoadSignalInfo => Some(Opened)
    case SetPayload(p) => Some(PayloadSet(p))
    case _ => None
  }

  /** What an event adds to it. */
  function NewEntry(s: State, e: Event): Option<Entry> {
    match e
    case Main => if s.todo == [] then None else EntryOf(s.todo[0])
    case Fire(_) => if CanFire(s) && s.task.Some? then Some(Sent(s.task.value, s.payload)) else None
    case _ => None
  }

  function Appended(log: seq<Entry>, x: Option<Entry>): seq<Entry> {
    if x.Some? then log + [x.value] else log
  }

  function TaskAfter(task: Option<nat>, x: Option<Entry>): Option<nat> {
    match x case Some(Opening(t)) => Some(t) case _ => task
  }

  function PayloadAfter(payload: u32, x: Option<Entry>): u32 {
    match x case Some(PayloadSet(p)) => p case Some(Opened) => 0 case _ => payload
  }

  lemma QuietLogs(s: State, m: Micro)
    requires EntryOf(m) == None
    ensures Perform(s, m).h.log == s.h.log && Perform(s, m).task == s.task && Perform(s, m).payload == s.payload
  {
    hide Wrap, Bit;
  }

  lemma PerformLogs(s: State, m: Micro)
    ensures Perform(s, m).h.log == Appended(s.h.log, EntryOf(m))
    ensures Perform(s, m).task == TaskAfter(s.task, EntryOf(m))
    ensures Perform(s, m).payload == PayloadAfter(s.payload, EntryOf(m))
  {
    hide Wrap, Bit, WriteEnable;
    if EntryOf(m) == None { QuietLogs(s, m); }
  }

  lemma HandlerLogs(s: State, delivered: bool)
    ensures
      var r := Handler(s, delivered);
      && r.h.log == (if s.task.Some? then s.h.log + [Sent(s.task.value, s.payload)] else s.h.log)
      && r.task == s.task && r.payload == s.payload
  {
    hide Wrap, Bit;
  }

  lemma StepLogs(s: State, e: Event)
    ensures
      var r, x := Step(s, e), NewEntry(s, e);
      && r.h.log == Appended(s.h.log, x)
      && r.task == TaskAfter(s.task, x) && r.payload == PayloadAfter(s.payload, x)
  {
    hide Perform, Handler, EntryOf;
    match e
    case Main => if s.todo != [] { PerformLogs(s.(todo := s.todo[1..]), s.todo[0]); }
    case Fire(delivered) => HandlerLogs(s, delivered);
    case _ =>
  }

  lemma StepTodo(s: State, e: Event)
    ensures Step(s, e).todo ==
      if e.Main? && s.todo != [] then s.todo[1..] else if e.Call? && s.todo == [] then Expand(e.c) else s.todo
  {
    hide Wrap, Bit, Expand;
  }

  lemma StepKeepsSignals(s: State, e: Event)
    requires SignalsOk(s)
    ensures SignalsOk(Step(s, e))
  {
    StepLogs(s, e);
    var x := NewEntry(s, e);
    if x.Some? { LoggedKeepsSignals(s, x.value); }
    hide Step, LatestOpen, PayloadNow, SignalOk;
  }

  lemma {:induction false} RunKeepsSignals(s: State, es: seq<Event>)
    requires SignalsOk(s)
    ensures SignalsOk(Run(s, es))
    decreases es
  {
    if es != [] {
      StepKeepsSignals(s, es[0]);
      RunKeepsSignals(Step(s, es[0]), es[1..]);
    }
  }

  /** An open() that announces its task goes straight on to clear the payload. */
  predicate OpensPaired(todo: seq<Micro>) {
    forall i :: 0 <= i < |todo| && todo[i].SetTask? ==> todo[i + 1..] == [LoadSignalInfo]
  }

  lemma OpensPairedTail(todo: seq<Micro>)
    requires OpensPaired(todo) && todo != []
    ensures OpensPaired(todo[1..]) && (todo[0].SetTask? ==> todo[1..] == [LoadSignalInfo])
  {
    forall i | 0 <= i < |todo| - 1 && todo[1..][i].SetTask? ensures todo[1..][i + 1..] == [LoadSignalInfo] {
      assert todo[1..][i + 1..] == todo[i + 2..];
    }
  }

  /** No payload is set inside an open(). */
  predicate OpeningsOk(s: State) {
    && OpensPaired(s.todo)
    && (InOpening(s.h.log) ==> s.todo == [LoadSignalInfo])
    && forall i :: 0 <= i <= |s.h.log| && InOpening(s.h.log[..i]) ==> PayloadSince(s.h.log[..i]) == 0
  }

  lemma LogKeepsOpenings(log: seq<Entry>, e: Entry)
    requires forall i :: 0 <= i <= |log| && InOpening(log[..i]) ==> PayloadSince(log[..i]) == 0
    requires e.PayloadSet? ==> !InOpening(log)
    ensures forall i :: 0 <= i <= |log| + 1 && InOpening((log + [e])[..i]) ==> PayloadSince((log + [e])[..i]) == 0
    ensures InOpening(log + [e]) ==> e.Opening? || (!e.Opened? && InOpening(log))
  {
    assert log[..|log|] == log && (log + [e])[..|log|] == log && (log + [e])[..|log| + 1] == log + [e];
    forall i | 0 <= i <= |log| + 1 && InOpening((log + [e])[..i]) ensures PayloadSince((log + [e])[..i]) == 0 {
      if i <= |log| { assert (log + [e])[..i] == log[..i]; }
    }
  }

  lemma OpensPairedExpand(c: Command)
    ensures OpensPaired(Expand(c))
  {
  }

  lemma StepKeepsOpenings(s: State, e: Event)
    requires OpeningsOk(s)
    ensures OpeningsOk(Step(s, e))
  {
    StepLogs(s, e);
    StepTodo(s, e);
    if s.todo != [] { OpensPairedTail(s.todo); }
    if e.Call? { OpensPairedExpand(e.c); }
    hide Step, InOpening, PayloadSince, OpensPaired, CanFire, Expand;
    var x := NewEntry(s, e);
    if x.Some? { LogKeepsOpenings(s.h.log, x.value); }
  }

  lemma {:induction false} RunKeepsOpenings(s: State, es: seq<Event>)
    requires OpeningsOk(s)
    ensures OpeningsOk(Run(s, es))
    decreases es
  {
    if es != [] {
      StepKeepsOpenings(s, es[0]);
      RunKeepsOpenings(Step(s, es[0]), es[1..]);
    }
  }

  /** Signal routing, in every run: a signal goes to the task of the latest open(), and carries the last payload
      set since it, or 0 if none was, exactly unless the handler ran inside that open() while a payload from
      before it was set. */
  lemma SignalRouting(enable: bool, line: bool, es: seq<Event>, i: nat)
    requires i < |Run(Init(enable, line), es).h.log| && Run(Init(enable, line), es).h.log[i].Sent?
    ensures
      var log := Run(Init(enable, line), es).h.log;
      && LatestOpen(log[..i]) == Some(log[i].task)
      && (log[i].payload == PayloadSince(log[..i]) <==> !InOpening(log[..i]) || PayloadNow(log[..i]) == 0)
  {
    RunKeepsSignals(Init(enable, line), es);
    RunKeepsOpenings(Init(enable, line), es);
    var log := Run(Init(enable, line), es).h.log;
    assert SignalOk(log, i);
    if !InOpening(log[..i]) { OutsideOpening(log[..i]); }
  }

  // ---------------------------------------------------------------- uninterrupted commands

  /** Process context carried through without an interruption. */
  function Complete(s: State, todo: seq<Micro>): State
    decreases todo
  {
    if todo == [] then s else Complete(Perform(s, todo[0]), todo[1..])
  }

  /** Process context does not look at what it has still to do. */
  predicate IgnoresTodo(s: State, m: Micro) {
    Perform(s, m).(todo := []) == Perform(s.(todo := []), m) && Perform(s, m).todo == s.todo
  }

  lemma RegisterIgnoresTodo(s: State, m: Micro)
    requires m.Mask? || m.Unmask? || m.InitUnmask?
    ensures IgnoresTodo(s, m)
  {
    hide Bit;
  }

  lemma SignalsIgnoreTodo(s: State, m: Micro)
    requires m.SetTask? || m.LoadSignalInfo? || m.SetPayload?
    ensures IgnoresTodo(s, m)
  {
  }

  lemma ResetsIgnoreTodo(s: State, m: Micro)
    requires m.RequestIrq? || m.ResetHandled? || m.ResetUndelivered?
    ensures IgnoresTodo(s, m)
  {
    hide Bit;
  }

  lemma HardwareIgnoresTodo(s: State, m: Micro)
    requires m.FreeIrq? || m.Switch? || m.Configure?
    ensures IgnoresTodo(s, m)
  {
    hide Bit;
  }

  lemma PerformIgnoresTodo(s: State, m: Micro)
    ensures Perform(s, m).(todo := []) == Perform(s.(todo := []), m)
    ensures Perform(s, m).todo == s.todo
  {
    hide Perform;
    if m.Mask? || m.Unmask? || m.InitUnmask? { RegisterIgnoresTodo(s, m); }
    else if m.SetTask? || m.LoadSignalInfo? || m.SetPayload? { SignalsIgnoreTodo(s, m); }
    else if m.RequestIrq? || m.ResetHandled? || m.ResetUndelivered? { ResetsIgnoreTodo(s, m); }
    else { HardwareIgnoresTodo(s, m); }
  }

  /** Uninterrupted, a command's statements take effect in order. */
  lemma {:induction false} UninterruptedCompletes(s: State)
    ensures Run(s, seq(|s.todo|, _ => Main)) == Complete(s.(todo := []), s.todo)
    decreases |s.todo|
  {
    if s.todo != [] {
      var r := Step(s, Main);
      PerformIgnoresTodo(s.(todo := s.todo[1..]), s.todo[0]);
      hide Perform;
      assert seq(|s.todo|, _ => Main)[1..] == seq(|r.todo|, _ => Main);
      UninterruptedCompletes(r);
    }
  }

  // ---------------------------------------------------------------- command by command

  /** A handler run counts itself modulo 2^32, clears the enable bit and signals the task, if there is one, with the
      payload; a signal that fails is counted likewise. Nothing else changes. */
  lemma HandlerMeaning(s: State, delivered: bool)
    ensures
      var r := Handler(s, delivered);
      var failed := s.task.Some? && !delivered;
      && !r.enable && r.registered == s.registered && r.line == s.line
      && r.handled == (s.handled + 1) % 0x1_0000_0000
      && r.undelivered == (if failed then (s.undelivered + 1) % 0x1_0000_0000 else s.undelivered)
      && r.task == s.task && r.payload == s.payload && r.bridges == s.bridges && r.todo == s.todo
      && r.h.taken == s.h.taken + 1 && r.h.lost == s.h.lost + (if failed then 1 else 0) && r.h.ones == s.h.ones
      && r.h.log == (if s.task.Some? then s.h.log + [Sent(s.task.value, s.payload)] else s.h.log)
  {
  }

  /** The hardware interrupts if the handler is registered, the register armed and the line pending, and only then. */
  lemma HardwareMeaning(s: State, delivered: bool, level: bool)
    ensures s.registered && s.enable && s.line ==> Step(s, Fire(delivered)) == Handler(s, delivered)
    ensures !(s.registered && s.enable && s.line) ==> Step(s, Fire(delivered)) == s
    ensures Step(s, Line(level)).line == level && Step(s, Line(level)).(line := s.line) == s
  {
    hide Handler;
  }

  /** What does not concern a command of the register or the handler. */
  predicate SameSignals(s: State, r: State) {
    s.task == r.task && s.payload == r.payload && s.h.log == r.h.log && s.line == r.line && s.bridges == r.bridges
  }

  predicate SameInterrupts(s: State, r: State) {
    && s.registered == r.registered && s.enable == r.enable && s.line == r.line && s.bridges == r.bridges
    && s.handled == r.handled && s.undelivered == r.undelivered
  }

  /** open() makes the caller the task that gets signals, with payload 0. */
  lemma OpenMeaning(s: State, t: nat)
    ensures
      var r := Complete(s, Expand(OpenDevice(t)));
      r.task == Some(t) && r.payload == 0 && r.h.log == s.h.log + [Opening(t), Opened] && SameInterrupts(s, r)
  {
    CompleteOpen(s, t);
    hide Complete, Expand;
  }

  /** The payload command sets exactly the payload it is given. */
  lemma PayloadMeaning(s: State, p: u32)
    ensures
      var r := Complete(s, Expand(Payload(p)));
      r.payload == p && r.task == s.task && r.h.log == s.h.log + [PayloadSet(p)] && SameInterrupts(s, r)
  {
    CompleteOne(s, SetPayload(p));
    hide Complete;
  }

  /** The enable command arms the register once; it counts as one write of 1. */
  lemma EnableMeaning(s: State)
    ensures
      var r := Complete(s, Expand(Enable));
      && r.enable && r.registered == s.registered && r.h.ones == s.h.ones + 1 && r.h.taken == s.h.taken
      && r.handled == s.handled && r.undelivered == s.undelivered && SameSignals(s, r)
  {
    CompleteOne(s, Unmask);
    hide Complete;
  }

  /** SAVE leaves the handler unregistered and the register clear, and arms nothing. */
  lemma SaveMeaning(s: State)
    ensures
      var r := Complete(s, Expand(Save));
      && !r.registered && !r.enable && r.h.ones == s.h.ones && r.h.taken == s.h.taken
      && r.handled == s.handled && r.undelivered == s.undelivered && SameSignals(s, r)
  {
    CompleteSave(s);
    hide Complete, Expand;
  }

  /** LOAD registers the handler, restarts both counters and arms the register, if no handler is registered and
      the interrupt is to be had; otherwise it changes nothing. */
  lemma LoadMeaning(s: State, available: bool)
    ensures
      var r := Complete(s, Expand(Load(available)));
      && SameSignals(s, r)
      && (if available && !s.registered then
            && r.registered && r.enable && r.handled == 0 && r.undelivered == 0
            && r.h.taken == 0 && r.h.lost == 0 && r.h.ones == 1 && r.h.base == Bit(s.enable)
          else SameInterrupts(s, r) && r.h == s.h)
  {
    CompleteLoad(s, available);
    hide Complete, Expand;
    LoadEffect(s, available);
    hide Perform;
  }

  lemma LoadEffect(s: State, available: bool)
    ensures
      var r := Perform(Perform(Perform(Perform(s, RequestIrq(available)), ResetHandled), ResetUndelivered), InitUnmask);
      if available && !s.registered then
        r == WriteEnable(s.(registered := true, granted := true, handled := 0, undelivered := 0,
                            h := s.h.(taken := 0, ones := 0, base := Bit(s.enable), lost := 0)), true)
      else r == s.(granted := false)
  {
    hide WriteEnable, Bit, Wrap;
    var s1 := Perform(s, RequestIrq(available));
    if available && !s.registered {
      assert s1 == s.(registered := true, granted := true);
      var s2 := Perform(s1, ResetHandled);
      assert s2 == s1.(handled := 0, h := s1.h.(taken := 0, ones := 0, base := Bit(s.enable)));
      assert Perform(s2, ResetUndelivered) == s2.(undelivered := 0, h := s2.h.(lost := 0));
    } else {
      assert s1 == s.(granted := false);
    }
  }

  /** A transfer over the register leaves the last bit it stores, and counts as many writes of 1 as it stores. */
  lemma {:induction false} StoreMeaning(s: State, bits: seq<bool>)
    requires bits != []
    ensures
      var r := Complete(s, Expand(Store(bits)));
      r.enable == bits[|bits| - 1] && r.h.ones == s.h.ones + Ones(bits)
    decreases bits
  {
    hide Perform, Expand;
    var m := if bits[0] then Unmask else Mask;
    StoresExpand(bits);
    CompleteCons(s, m, Expand(Store(bits[1..])));
    OneStore(s, bits[0]);
    if |bits| > 1 { StoreMeaning(Perform(s, m), bits[1..]); }
  }

  lemma StoresExpand(bits: seq<bool>)
    requires bits != []
    ensures Expand(Store(bits)) == [if bits[0] then Unmask else Mask] + Expand(Store(bits[1..]))
    ensures bits[1..] == [] ==> Expand(Store(bits[1..])) == []
  {
  }

  lemma OneStore(s: State, bit: bool)
    ensures
      var r := Perform(s, if bit then Unmask else Mask);
      r.enable == bit && r.h.ones == s.h.ones + Bit(bit)
  {
  }

  function Ones(bits: seq<bool>): nat {
    if bits == [] then 0 else Bit(bits[0]) + Ones(bits[1..])
  }

  /** From any state with a task and an interrupt about to be taken, the signal that follows a payload command
      carries that payload. */
  lemma SignalAfterPayload(s: State, t: nat, p: u32, delivered: bool)
    requires s.todo == [] && CanFire(s) && s.task == Some(t)
    ensures Run(s, Whole(Payload(p)) + [Fire(delivered)]).h.log == s.h.log + [PayloadSet(p), Sent(t, p)]
  {
    var r := Complete(s, Expand(Payload(p)));
    RunWhole(s, Payload(p), [Fire(delivered)]);
    PayloadMeaning(s, p);
    hide Run, Complete, Expand, Whole;
    FireLogs(r, delivered);
  }

  /** One that follows an open() goes to its caller with payload 0. */
  lemma SignalAfterOpen(s: State, t: nat, delivered: bool)
    requires s.todo == [] && CanFire(s)
    ensures Run(s, Whole(OpenDevice(t)) + [Fire(delivered)]).h.log == s.h.log + [Opening(t), Opened, Sent(t, 0)]
  {
    var r := Complete(s, Expand(OpenDevice(t)));
    RunWhole(s, OpenDevice(t), [Fire(delivered)]);
    OpenMeaning(s, t);
    hide Run, Complete, Expand, Whole;
    FireLogs(r, delivered);
  }

  lemma FireLogs(s: State, delivered: bool)
    requires CanFire(s) && s.task.Some?
    ensures Run(s, [Fire(delivered)]).h.log == s.h.log + [Sent(s.task.value, s.payload)]
  {
    assert Run(s, [Fire(delivered)]) == Handler(s, delivered);
    HandlerMeaning(s, delivered);
    hide Handler, Run;
  }

  // ---------------------------------------------------------------- two runs that show what can go wrong

  /** A command carried through without an interruption. */
  function Whole(c: Command): seq<Event> {
    [Call(c)] + seq(|Expand(c)|, _ => Main)
  }

  lemma {:induction false} RunConcat(s: State, a: seq<Event>, b: seq<Event>)
    ensures Run(s, a + b) == Run(Run(s, a), b)
    decreases a
  {
    hide Step;
    if a == [] {
      assert a + b == b;
    } else {
      assert (a + b)[1..] == a[1..] + b;
      RunConcat(Step(s, a[0]), a[1..], b);
    }
  }

  lemma RunOne(s: State, e: Event, rest: seq<Event>)
    ensures Run(s, [e] + rest) == Run(Step(s, e), rest)
  {
    hide Step;
    assert ([e] + rest)[1..] == rest;
  }

  lemma RunWhole(s: State, c: Command, rest: seq<Event>)
    requires s.todo == []
    ensures Run(s, Whole(c) + rest) == Run(Complete(s, Expand(c)), rest)
  {
    var s1 := s.(todo := Expand(c));
    assert Step(s, Call(c)) == s1 && s1.(todo := []) == s;
    hide Complete, Expand, Step;
    RunConcat(s, Whole(c), rest);
    assert Whole(c)[1..] == seq(|s1.todo|, _ => Main);
    UninterruptedCompletes(s1);
  }

  /** The driver connected to the interrupt by task 1, with the line pending. */
  const READY := State(true, true, true, true, 0, 0, Some(1), 0, ALL_BRIDGES, [],
                       History(0, 0, 1, 0, 0, [Opening(1), Opened]))

  function Connect(rest: seq<Event>): seq<Event> {
    Whole(OpenDevice(1)) + (Whole(Load(true)) + rest)
  }

  lemma ConnectIsReady(rest: seq<Event>)
    ensures Run(Init(false, true), Connect(rest)) == Run(READY, rest)
  {
    hide Run, Whole, Complete, Expand;
    var s0 := Init(false, true);
    RunWhole(s0, OpenDevice(1), Whole(Load(true)) + rest);
    CompleteOpen(s0, 1);
    var s1 := s0.(task := Some(1), h := s0.h.(log := [Opening(1), Opened]));
    assert Perform(s0, SetTask(1)) == s0.(task := Some(1), h := s0.h.(log := [Opening(1)]));
    assert Complete(s0, Expand(OpenDevice(1))) == s1;
    ConnectedState(s1);
    RunWhole(s1, Load(true), rest);
  }

  lemma ConnectedState(s: State)
    requires s == Init(false, true).(task := Some(1), h := Init(false, true).h.(log := [Opening(1), Opened]))
    ensures Complete(s, Expand(Load(true))) == READY
  {
    hide Complete, Expand;
    CompleteLoad(s, true);
    var s1 := Perform(s, RequestIrq(true));
    var s2 := Perform(Perform(s1, ResetHandled), ResetUndelivered);
    assert s1 == s.(registered := true, granted := true);
    assert s2 == s1;
  }

  /** A signal fails, and the driver is disconnected and connected again up to the first reset. */
  function LateReset(): seq<Event> {
    Connect([Fire(false)] + (Whole(Save) + ([Call(Load(true))] + [Main, Main])))
  }

  const FAILED := READY.(enable := false, handled := 1, undelivered := 1,
                         h := History(1, 1, 1, 0, 0, [Opening(1), Opened, Sent(1, 0)]))

  lemma FailureState()
    ensures Step(READY, Fire(false)) == FAILED
    ensures Complete(FAILED, Expand(Save)) == FAILED.(registered := false)
  {
    hide Complete, Expand;
    CompleteSave(FAILED);
  }

  /** The reset window is reached with a failed signal still counted. */
  lemma ResetWindowIsReached()
    ensures
      var r := Run(Init(false, true), LateReset());
      BetweenResets(r) && r.h.lost == 1 && r.h.taken == 0 && r.undelivered == 1 && r.handled == 0
  {
    hide Run, Whole, Complete;
    var tail := [Call(Load(true))] + [Main, Main];
    ConnectIsReady([Fire(false)] + (Whole(Save) + tail));
    RunOne(READY, Fire(false), Whole(Save) + tail);
    FailureState();
    RunWhole(FAILED, Save, tail);
    var s := FAILED.(registered := false);
    RunOne(s, Call(Load(true)), [Main, Main]);
    SecondReset(Step(s, Call(Load(true))));
    hide Step;
  }

  lemma SecondReset(s: State)
    requires s == FAILED.(registered := false, todo := Expand(Load(true)))
    ensures
      var r := Run(s, [Main, Main]);
      BetweenResets(r) && r.h.lost == 1 && r.h.taken == 0 && r.undelivered == 1 && r.handled == 0
  {
    RunOfTwo(s, Main, Main);
    hide Run;
  }

  lemma RunOfTwo(s: State, a: Event, b: Event)
    ensures Run(s, [a, b]) == Step(Step(s, a), b)
  {
    hide Step;
    RunOne(s, a, [b]);
    RunOne(Step(s, a), b, []);
    assert [a] + [b] == [a, b] && [b] + [] == [b];
  }

  /** Task 1 sets a payload, task 2 opens the driver, and the handler runs before the payload is cleared. */
  function StaleSignal(): seq<Event> {
    Connect(Whole(Payload(7)) + ([Call(OpenDevice(2))] + [Main, Fire(true)]))
  }

  /** Task 2 is sent what task 1 set. */
  lemma StalePayload()
    ensures Run(Init(false, true), StaleSignal()).h.log ==
      [Opening(1), Opened, PayloadSet(7), Opening(2), Sent(2, 7)]
  {
    hide Run, Whole, Complete;
    var tail := [Call(OpenDevice(2))] + [Main, Fire(true)];
    ConnectIsReady(Whole(Payload(7)) + tail);
    CompleteOne(READY, SetPayload(7));
    RunWhole(READY, Payload(7), tail);
    var s := Perform(READY, SetPayload(7));
    RunOne(s, Call(OpenDevice(2)), [Main, Fire(true)]);
    FiresEarly(s, Step(s, Call(OpenDevice(2))));
    hide Step;
  }

  lemma FiresEarly(s: State, s': State)
    requires s == READY.(payload := 7, h := READY.h.(log := [Opening(1), Opened, PayloadSet(7)]))
    requires s' == s.(todo := Expand(OpenDevice(2)))
    ensures Run(s', [Main, Fire(true)]).h.log == [Opening(1), Opened, PayloadSet(7), Opening(2), Sent(2, 7)]
  {
    RunOfTwo(s', Main, Fire(true));
    hide Run;
    StepLogs(s', Main);
    var s1 := Step(s', Main);
    assert s1.h.log == s.h.log + [Opening(2)] && CanFire(s1) && s1.task == Some(2);
    StepLogs(s1, Fire(true));
  }

  // ---------------------------------------------------------------- the driver object

  class Device {
    var registered: bool  // with the kernel
    var enable: bool      // the register
    var line: bool        // the wire
    var numHandledInterrupts: u32
    var numUndeliveredSignals: u32
    var userTask: Option<nat>
    var siInt: u32
    var bridges: set<Bridge>
    ghost var granted: bool
    ghost var h: History

    ghost function Model(): State
      reads this
    {
      State(registered, granted, enable, line, numHandledInterrupts, numUndeliveredSignals,
            userTask, siInt, bridges, [], h)
    }

    method WriteEnableRegister(bit: bool)
      modifies this`enable, this`h
      ensures Model() == WriteEnable(old(Model()), bit)
    {
      enable := bit;
      h := h.(ones := h.ones + Bit(bit), strayWrites := h.strayWrites + Bit(LwHps2Fpga !in bridges));
    }

    /** aclsoc_irq; `delivered` is the answer of send_sig_info. */
    method Irq(delivered: bool)
      modifies this`numHandledInterrupts, this`numUndeliveredSignals, this`enable, this`h
      ensures Model() == Handler(old(Model()), delivered)
    {
      hide Wrap;
      numHandledInterrupts := Wrap(numHandledInterrupts + 1);
      h := h.(taken := h.taken + 1);
      WriteEnableRegister(false);
      if userTask.Some? {
        h := h.(log := h.log + [Sent(userTask.value, siInt)]);
        if !delivered {
          numUndeliveredSignals := Wrap(numUndeliveredSignals + 1);
          h := h.(lost := h.lost + 1);
        }
      }
    }

    /** request_irq; `available` says whether it has any other reason to fail than a handler already there. */
    method RequestInterrupt(available: bool) returns (ok: bool)
      modifies this`granted, this`registered
      ensures Model() == Perform(old(Model()), RequestIrq(available))
      ensures ok == Model().granted == (available && !old(registered))
    {
      ok := available && !registered;
      if ok { registered := true; }
      granted := ok;
    }

    method ResetCounters()
      requires granted
      modifies this`numHandledInterrupts, this`numUndeliveredSignals, this`h
      ensures Model() == Perform(Perform(old(Model()), ResetHandled), ResetUndelivered)
    {
      numHandledInterrupts := 0;
      h := h.(taken := 0, ones := 0, base := Bit(enable));
      numUndeliveredSignals := 0;
      h := h.(lost := 0);
    }

    /** init_irq. */
    method InitIrq(available: bool) returns (rc: int)
      modifies this
      ensures Model() == Complete(old(Model()), Expand(Load(available)))
      ensures rc == if available && !old(registered) then 0 else -1
    {
      CompleteLoad(Model(), available);
      hide Complete, Expand, Wrap, WriteEnable;
      var ok := RequestInterrupt(available);
      if !ok { return -1; }
      ResetCounters();
      WriteEnableRegister(true);
      return 0;
    }

    /** release_irq. */
    method ReleaseIrq()
      modifies this
      ensures Model() == Complete(old(Model()), Expand(Save))
    {
      CompleteSave(Model());
      hide Complete, Expand, Wrap;
      WriteEnableRegister(false);
      registered := false;
      WriteEnableRegister(false);
    }

    /** The commands of aclsoc_exec_cmd that concern interrupts and signals. */
    method ExecCmd(c: Command)
      requires !c.OpenDevice? && !c.Store?
      modifies this
      ensures Model() == Complete(old(Model()), Expand(c))
    {
      match c
      case Enable =>
        CompleteOne(Model(), Unmask);
        WriteEnableRegister(true);
      case Payload(p) =>
        CompleteOne(Model(), SetPayload(p));
        siInt := p;
        h := h.(log := h.log + [PayloadSet(p)]);
      case Load(available) => var _ := InitIrq(available);
      case Save => ReleaseIrq();
    }

    /** The stores of a write() that covers the enable register. */
    method StoreEnable(bits: seq<bool>)
      modifies this`enable, this`h
      ensures Model() == Complete(old(Model()), Expand(Store(bits)))
    {
      ghost var done, todo := Complete(Model(), Expand(Store(bits))), Expand(Store(bits));
      for i := 0 to |bits|
        invariant |todo| == |bits| && Complete(Model(), todo[i..]) == done
      {
        assert todo[i] == (if bits[i] then Unmask else Mask) && todo[i..] == [todo[i]] + todo[i + 1..];
        CompleteCons(Model(), todo[i], todo[i + 1..]);
        WriteEnableRegister(bits[i]);
      }
    }

    /** The part of aclsoc_open that interrupts see. */
    method Open(task: nat)
      modifies this
      ensures Model() == Complete(old(Model()), Expand(OpenDevice(task)))
    {
      CompleteOpen(Model(), task);
      hide Complete, Expand, Wrap;
      userTask := Some(task);
      h := h.(log := h.log + [Opening(task)]);
      siInt := 0;
      h := h.(log := h.log + [Opened]);
    }
  }

  lemma CompleteCons(s: State, m: Micro, rest: seq<Micro>)
    ensures Complete(s, [m] + rest) == Complete(Perform(s, m), rest)
  {
    assert ([m] + rest)[1..] == rest;
  }

  lemma CompleteLoad(s: State, available: bool)
    ensures Complete(s, Expand(Load(available))) ==
      Perform(Perform(Perform(Perform(s, RequestIrq(available)), ResetHandled), ResetUndelivered), InitUnmask)
  {
    hide Perform;
    assert Expand(Load(available)) ==
      [RequestIrq(available)] + ([ResetHandled] + ([ResetUndelivered] + ([InitUnmask] + [])));
    var s1 := Perform(s, RequestIrq(available));
    var s2 := Perform(s1, ResetHandled);
    CompleteCons(s, RequestIrq(available), [ResetHandled] + ([ResetUndelivered] + ([InitUnmask] + [])));
    CompleteCons(s1, ResetHandled, [ResetUndelivered] + ([InitUnmask] + []));
    CompleteCons(s2, ResetUndelivered, [InitUnmask] + []);
    CompleteCons(Perform(s2, ResetUndelivered), InitUnmask, []);
  }

  lemma CompleteSave(s: State)
    ensures Complete(s, Expand(Save)) == Perform(Perform(Perform(s, Mask), FreeIrq), Mask)
  {
    hide Perform;
    assert Expand(Save) == [Mask] + ([FreeIrq] + ([Mask] + []));
    CompleteCons(s, Mask, [FreeIrq] + ([Mask] + []));
    CompleteCons(Perform(s, Mask), FreeIrq, [Mask] + []);
    CompleteCons(Perform(Perform(s, Mask), FreeIrq), Mask, []);
  }

  lemma CompleteOne(s: State, m: Micro)
    ensures Complete(s, [m]) == Perform(s, m)
  {
    CompleteCons(s, m, []);
  }

  lemma CompleteOpen(s: State, t: nat)
    ensures Complete(s, Expand(OpenDevice(t))) == Perform(Perform(s, SetTask(t)), LoadSignalInfo)
  {
    hide Perform;
    assert Expand(OpenDevice(t)) == [SetTask(t)] + ([LoadSignalInfo] + []);
    CompleteCons(s, SetTask(t), [LoadSignalInfo] + []);
    CompleteCons(Perform(s, SetTask(t)), LoadSignalInfo, []);
  }
}
