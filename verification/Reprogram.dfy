/**
 reprogram_with_rbf of reprogram.c: disconnect the driver from the interrupt, switch the
 bridges off, load the FPGA, switch them on and reconnect, with interrupts arriving at
 any point the hardware allows.
 */
module Reprogram {
  import opened Interrupts

  /** Everything the sequence does, in order; `enableAfter` is what the freshly loaded FPGA's enable
      register holds and `available` whether request_irq can succeed. */
  function Sequence(enableAfter: bool, available: bool): (p: seq<Micro>)
    ensures |p| == 14
  {
    [Mask, FreeIrq, Mask,
     Switch(Fpga2Hps, false), Switch(Hps2Fpga, false), Switch(LwHps2Fpga, false),
     Configure(enableAfter),
     Switch(Fpga2Hps, true), Switch(Hps2Fpga, true), Switch(LwHps2Fpga, true),
     RequestIrq(available), ResetHandled, ResetUndelivered, InitUnmask]
  }

  lemma SequenceIsSaveThenLoad(enableAfter: bool, available: bool)
    ensures Sequence(enableAfter, available)[..3] == Expand(Save)
    ensures Sequence(enableAfter, available)[10..] == Expand(Load(available))
  {
  }

  /** How many statements of the sequence are behind. */
  function Done(s: State): int {
    14 - |s.todo|
  }

  /** Which bridges are on after k statements. */
  predicate BridgesAt(s: State, k: int) {
    && (Fpga2Hps in s.bridges <==> k <= 3 || k >= 8)
    && (Hps2Fpga in s.bridges <==> k <= 4 || k >= 9)
    && (LwHps2Fpga in s.bridges <==> k <= 5 || k >= 10)
  }

  /** How handler, enable register and counters stand after k statements, whatever interrupts came between. */
  predicate InterruptAt(s: State, k: int, available: bool) {
    && (s.registered <==> k <= 1 || (k >= 11 && available))
    && (k >= 11 ==> s.granted == available)
    && (1 <= k <= 6 ==> !s.enable)
    && (k >= 12 && available ==> s.h.base <= 1 && s.h.ones == if k == 14 then 1 else 0)
    && (k == 14 && available ==> s.enable || s.h.taken > 0)
  }

  predicate OnTrack(s: State, enableAfter: bool, available: bool) {
    var p, k := Sequence(enableAfter, available), Done(s);
    && 0 <= k <= 14 && s.todo == p[k..]
    && CountersOk(s) && s.h.strayWrites == 0
    && BridgesAt(s, k) && InterruptAt(s, k, available)
  }

  lemma HardwareKeepsPlace(s: State, e: Event, k: int, available: bool)
    requires (e.Fire? || e.Line?) && s.h.strayWrites == 0 && BridgesAt(s, k) && InterruptAt(s, k, available)
    ensures
      var r := Step(s, e);
      BridgesAt(r, k) && InterruptAt(r, k, available) && r.h.strayWrites == 0 && r.todo == s.todo
  {
    hide Wrap;
  }

  lemma HardwareKeepsTrack(s: State, e: Event, enableAfter: bool, available: bool)
    requires OnTrack(s, enableAfter, available) && (e.Fire? || e.Line?)
    ensures OnTrack(Step(s, e), enableAfter, available)
  {
    StepKeepsCounters(s, e);
    HardwareKeepsPlace(s, e, Done(s), available);
    hide CountersOk, Sequence, Step, BridgesAt, InterruptAt;
  }

  /** Only switching changes the bridges, and only a write of the register with the lightweight bridge off
      strays. */
  lemma BridgesAfter(s: State, m: Micro)
    ensures Perform(s, m).bridges ==
      match m case Switch(b, on) => if on then s.bridges + {b} else s.bridges - {b} case _ => s.bridges
    ensures LwHps2Fpga in s.bridges || !(m.Mask? || m.Unmask? || m.InitUnmask?) ==>
      Perform(s, m).h.strayWrites == s.h.strayWrites
  {
    hide Wrap;
  }

  lemma MainKeepsBridges(s: State, k: nat, enableAfter: bool, available: bool)
    requires k < 14 && s.h.strayWrites == 0 && BridgesAt(s, k)
    ensures
      var r := Perform(s, Sequence(enableAfter, available)[k]);
      BridgesAt(r, k + 1) && r.h.strayWrites == 0
  {
    BridgesAfter(s, Sequence(enableAfter, available)[k]);
    hide Perform;
  }

  lemma MainKeepsInterrupt(s: State, k: nat, enableAfter: bool, available: bool)
    requires k < 14 && InterruptAt(s, k, available)
    ensures InterruptAt(Perform(s, Sequence(enableAfter, available)[k]), k + 1, available)
  {
  }

  lemma AtIgnoresTodo(s: State, todo: seq<Micro>, k: int, available: bool)
    requires BridgesAt(s, k) && InterruptAt(s, k, available)
    ensures BridgesAt(s.(todo := todo), k) && InterruptAt(s.(todo := todo), k, available)
  {
  }

  lemma MainKeepsTrack(s: State, enableAfter: bool, available: bool)
    requires OnTrack(s, enableAfter, available)
    ensures OnTrack(Step(s, Main), enableAfter, available)
  {
    StepKeepsCounters(s, Main);
    hide CountersOk, BridgesAt, InterruptAt, Perform;
    var p, k := Sequence(enableAfter, available), Done(s);
    if k < 14 {
      var before := s.(todo := s.todo[1..]);
      assert s.todo[0] == p[k] && s.todo[1..] == p[k + 1..];
      AtIgnoresTodo(s, before.todo, k, available);
      MainKeepsBridges(before, k, enableAfter, available);
      MainKeepsInterrupt(before, k, enableAfter, available);
      PerformIgnoresTodo(before, p[k]);
    }
  }

  lemma {:induction false} RunKeepsTrack(s: State, es: seq<Event>, enableAfter: bool, available: bool)
    requires OnTrack(s, enableAfter, available) && forall e <- es :: !e.Call?
    ensures OnTrack(Run(s, es), enableAfter, available)
    decreases es
  {
    if es != [] {
      if es[0].Main? { MainKeepsTrack(s, enableAfter, available); }
      else { HardwareKeepsTrack(s, es[0], enableAfter, available); }
      RunKeepsTrack(Step(s, es[0]), es[1..], enableAfter, available);
    }
  }

  /** Reprogramming safety. Start with a registered handler, the bridges on and nothing else to do, and let
      interrupts and line changes interleave at will. At every point every write of the enable register has
      been made with the lightweight bridge on, and from SAVE's first write on until LOAD's request_irq no
      interrupt can be taken. Right before and right after the FPGA is loaded all bridges are off. Once the
      sequence is through, all bridges are on; if request_irq could succeed the handler is registered again, the
      counters count from the restart, and the line has been armed exactly once since, so that it is still armed
      unless an interrupt has been handled; otherwise the handler stays unregistered. */
  lemma ReprogrammingSafety(s: State, enableAfter: bool, available: bool, es: seq<Event>)
    requires s.registered && s.bridges == ALL_BRIDGES && s.h.strayWrites == 0 && CountersOk(s)
    requires s.todo == Sequence(enableAfter, available) && forall e <- es :: !e.Call?
    ensures
      var r := Run(s, es);
      && r.h.strayWrites == 0
      && (1 <= Done(r) <= 10 ==> !CanFire(r))
      && (6 <= Done(r) <= 7 ==> r.bridges == {})
      && (r.todo == [] ==> r.bridges == ALL_BRIDGES && (r.registered <==> available))
      && (r.todo == [] && available ==>
            && r.handled == Wrap(r.h.taken) && r.undelivered == Wrap(r.h.lost) && r.h.lost <= r.h.taken
            && r.h.ones == 1 && r.h.taken + Bit(r.enable) <= 1 + r.h.base <= 2
            && (r.enable || r.h.taken > 0))
  {
    RunKeepsTrack(s, es, enableAfter, available);
    hide Run, Sequence;
    var r := Run(s, es);
    if 6 <= Done(r) <= 7 {
      forall b: Bridge ensures b !in r.bridges { match b case Fpga2Hps => case Hps2Fpga => case LwHps2Fpga => }
      assert r.bridges == {};
    }
    if r.todo == [] {
      forall b: Bridge ensures b in r.bridges && b in ALL_BRIDGES {
        match b case Fpga2Hps => case Hps2Fpga => case LwHps2Fpga =>
      }
      assert r.bridges == ALL_BRIDGES;
    }
  }

  /** SAVE is what makes it so. Without it, from a state with a registered handler, an armed register and the line
      pending, an interrupt once the bridges are off writes the register through the one that is missing. */
  lemma WithoutSaveStrays(s: State, enableAfter: bool, available: bool, delivered: bool)
    requires s.todo == Sequence(enableAfter, available)[3..] && CanFire(s)
    requires s.bridges == ALL_BRIDGES && s.h.strayWrites == 0
    ensures Run(s, [Main, Main, Main, Fire(delivered)]).h.strayWrites == 1
  {
    var s1 := Step(s, Main);
    var s2 := Step(s1, Main);
    var s3 := Step(s2, Main);
    assert s3 == s.(bridges := {}, todo := Sequence(enableAfter, available)[6..]);
    var last := [Fire(delivered)];
    assert [Main, Main, Main, Fire(delivered)] == [Main] + ([Main] + ([Main] + (last + [])));
    RunOne(s, Main, [Main] + ([Main] + (last + [])));
    RunOne(s1, Main, [Main] + (last + []));
    RunOne(s2, Main, last + []);
    RunOne(s3, Fire(delivered), []);
    hide Run, Sequence, Wrap;
  }
}
