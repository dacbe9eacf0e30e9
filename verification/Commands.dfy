/**
 aclsoc_exec_cmd of aclsoc_cmd.c, as far as device and user memory see it: the commands
 that write the interrupt enable register and those that answer into user space.
 */
module Commands {
  import opened Bytes
  import opened Common
  import opened Transfer
  import AddrMap
  import Interrupts

  const SAVE_PCI_CONTROL_REGS: u32 := 1
  const LOAD_PCI_CONTROL_REGS: u32 := 2
  const GET_DMA_IDLE_STATUS: u32 := 5
  const DMA_UPDATE: u32 := 6
  const GET_DEVICE_ID: u32 := 7
  const SET_SIGNAL_PAYLOAD: u32 := 12
  const GET_DRIVER_VERSION: u32 := 13
  const ENABLE_KERNEL_IRQ: u32 := 14
  const GET_PHYS_PTR_FROM_VIRT: u32 := 16

  /** The offset of the interrupt enable register in BAR 2. */
  const ENABLE_REGISTER: nat := 0x4050

  const DEVICE_ID: nat := 0xC500

  /** "14.1." and its terminating zero. */
  const DRIVER_VERSION: seq<byte> := [49, 52, 46, 49, 46, 0]

  /** struct acl_cmd, without the flag that the driver does not read. */
  datatype Cmd = Cmd(barId: u32, command: u32, deviceAddr: u32, userAddr: u32, size: u32)

  /** What a command meets in the rest of the driver: whether request_irq grants the interrupt, and the slot
      table as it then is. */
  datatype Answers = Answers(irqGranted: bool, slots: AddrMap.SlotTable)

  // ---------------------------------------------------------------- what a command does

  /** The values it writes to the enable register, in order. */
  function RegisterWrites(command: u32, a: Answers): seq<u32> {
    if command == ENABLE_KERNEL_IRQ then [1]
    else if command == LOAD_PCI_CONTROL_REGS && a.irqGranted then [1]
    else if command == SAVE_PCI_CONTROL_REGS then [0, 0]
    else []
  }

  function AfterWrites(window: seq<byte>, values: seq<u32>): (r: seq<byte>)
    requires |window| >= ENABLE_REGISTER + 4
    ensures |r| == |window|
    decreases values
  {
    if values == [] then window
    else AfterWrites(Patch(window, ENABLE_REGISTER, Encode(values[0], 4)), values[1..])
  }

  /** Bytes for user space: where they go, and which user copy of the call takes them. */
  datatype Message = Message(at: nat, bytes: seq<byte>, k: nat)

  /** What the address variable of GET_PHYS_PTR_FROM_VIRT holds after its user copy. */
  function AddressRead(user: seq<byte>, c: Cmd, f: Faults): nat {
    Decode(Fetched(user, c.userAddr, 4, CopyAt(f, 0)))
  }

  function Answer(user: seq<byte>, c: Cmd, a: Answers, f: Faults): (r: Option<Message>)
    ensures r.Some? ==> r.value.bytes != []
  {
    if c.command == GET_DMA_IDLE_STATUS then Some(Message(c.userAddr, Encode(1, 4), 0))
    else if c.command == GET_DRIVER_VERSION then Some(Message(c.userAddr, DRIVER_VERSION, 0))
    else if c.command == GET_DEVICE_ID then Some(Message(c.userAddr, Encode(DEVICE_ID, 4), 0))
    else if c.command == GET_PHYS_PTR_FROM_VIRT then
      match AddrMap.Lookup(a.slots, AddressRead(user, c, f))
      case Some(handle) => Some(Message(c.deviceAddr, Encode(handle, 4), 1))
      case None => None
    else None
  }

  predicate Understood(command: u32) {
    command in {SAVE_PCI_CONTROL_REGS, LOAD_PCI_CONTROL_REGS, GET_DMA_IDLE_STATUS, DMA_UPDATE, GET_DEVICE_ID,
                SET_SIGNAL_PAYLOAD, GET_DRIVER_VERSION, ENABLE_KERNEL_IRQ, GET_PHYS_PTR_FROM_VIRT}
  }

  /** The number of bytes the last user copy missed; 0 when there is none. */
  function CommandResult(user: seq<byte>, c: Cmd, a: Answers, f: Faults): int {
    match Answer(user, c, a, f)
    case Some(m) => |m.bytes| - Moved(|user|, m.at, |m.bytes|, CopyAt(f, m.k))
    case None =>
      if c.command == SET_SIGNAL_PAYLOAD || c.command == GET_PHYS_PTR_FROM_VIRT then
        4 - Moved(|user|, c.userAddr, 4, CopyAt(f, 0))
      else if Understood(c.command) then 0
      else -EFAULT
  }

  function CommandEffect(window: seq<byte>, user: seq<byte>, c: Cmd, a: Answers, f: Faults): (e: Effect)
    requires |window| >= ENABLE_REGISTER + 4
    ensures |e.window| == |window| && |e.user| == |user|
  {
    var user' := match Answer(user, c, a, f)
      case Some(m) => Delivered(user, m.at, m.bytes, CopyAt(f, m.k))
      case None => user;
    Effect(AfterWrites(window, RegisterWrites(c.command, a)), user', CommandResult(user, c, a, f))
  }

  function CommandTrace(command: u32, a: Answers): seq<Access> {
    seq(|RegisterWrites(command, a)|, _ => Access(ENABLE_REGISTER, 4, true))
  }

  // ---------------------------------------------------------------- the command handler

  method WriteEnableRegister(dev: Bus, v: u32)
    requires dev.mem.Length >= ENABLE_REGISTER + 4
    modifies dev`trace, dev.mem
    ensures dev.mem[..] == AfterWrites(old(dev.mem[..]), [v])
    ensures dev.trace == old(dev.trace) + [Access(ENABLE_REGISTER, 4, true)]
  {
    dev.Write(v, ENABLE_REGISTER, 4);
  }

  /** The case GET_PHYS_PTR_FROM_VIRT: the address comes from the caller, a handle that is found goes back, and
      then its copy alone decides the result. */
  method GetPhysPtrFromVirt(user: array<byte>, c: Cmd, a: Answers, f: Faults) returns (missed: nat)
    requires c.command == GET_PHYS_PTR_FROM_VIRT
    modifies user
    ensures missed == CommandResult(old(user[..]), c, a, f)
    ensures user[..] ==
      match Answer(old(user[..]), c, a, f)
      case Some(m) => Delivered(old(user[..]), m.at, m.bytes, CopyAt(f, m.k))
      case None => old(user[..])
  {
    hide Delivered, Moved, Fetched, AddrMap.Lookup;
    var vmAddr: nat;
    vmAddr, missed := FetchVariable(user, c.userAddr, 4, CopyAt(f, 0));
    var handle := AddrMap.FindHandle(a.slots, vmAddr);
    if handle.Some? {
      missed := CopyToUser(user, c.deviceAddr, Encode(handle.value, 4), CopyAt(f, 1));
    }
  }

  /** aclsoc_exec_cmd. */
  method ExecCmd(dev: Bus, user: array<byte>, c: Cmd, a: Answers, f: Faults) returns (result: int)
    requires dev.mem.Length >= ENABLE_REGISTER + 4 && dev.mem != user
    modifies dev`trace, dev.mem, user
    ensures Effect(dev.mem[..], user[..], result) == CommandEffect(old(dev.mem[..]), old(user[..]), c, a, f)
    ensures dev.trace == old(dev.trace) + CommandTrace(c.command, a)
  {
    hide Delivered, Moved;
    result := 0;
    if c.command == GET_DMA_IDLE_STATUS {
      result := CopyToUser(user, c.userAddr, Encode(1, 4), CopyAt(f, 0));
    } else if c.command == DMA_UPDATE {
    } else if c.command == ENABLE_KERNEL_IRQ {
      WriteEnableRegister(dev, 1);
    } else if c.command == SET_SIGNAL_PAYLOAD {
      var _, missed := FetchVariable(user, c.userAddr, 4, CopyAt(f, 0));
      result := missed;
    } else if c.command == GET_DRIVER_VERSION {
      result := CopyToUser(user, c.userAddr, DRIVER_VERSION, CopyAt(f, 0));
    } else if c.command == GET_DEVICE_ID {
      result := CopyToUser(user, c.userAddr, Encode(DEVICE_ID, 4), CopyAt(f, 0));
    } else if c.command == GET_PHYS_PTR_FROM_VIRT {
      result := GetPhysPtrFromVirt(user, c, a, f);
    } else if c.command == LOAD_PCI_CONTROL_REGS {
      if a.irqGranted { WriteEnableRegister(dev, 1); }
    } else if c.command == SAVE_PCI_CONTROL_REGS {
      WriteEnableRegister(dev, 0);
      WriteEnableRegister(dev, 0);
    } else {
      result := -EFAULT;
    }
  }

  // ---------------------------------------------------------------- what it means

  /** The register keeps the last value written to it; nothing else in the region changes. */
  lemma {:induction false} LastWriteStays(window: seq<byte>, values: seq<u32>)
    requires |window| >= ENABLE_REGISTER + 4 && values != []
    ensures AfterWrites(window, values) == Patch(window, ENABLE_REGISTER, Encode(values[|values| - 1], 4))
    decreases values
  {
    var first := Encode(values[0], 4);
    if |values| > 1 {
      LastWriteStays(Patch(window, ENABLE_REGISTER, first), values[1..]);
      PatchCovers(window, ENABLE_REGISTER, first, Encode(values[|values| - 1], 4));
    }
  }

  predicate InRegister(i: int) {
    ENABLE_REGISTER <= i < ENABLE_REGISTER + 4
  }

  predicate InAnswer(m: Option<Message>, i: int) {
    m.Some? && m.value.at <= i < m.value.at + |m.value.bytes|
  }

  /** A command leaves alone every device byte outside the register and every user byte outside its answer. */
  lemma CommandFrame(window: seq<byte>, user: seq<byte>, c: Cmd, a: Answers, f: Faults)
    requires |window| >= ENABLE_REGISTER + 4
    ensures
      var e := CommandEffect(window, user, c, a, f);
      && (forall i :: 0 <= i < |window| && !InRegister(i) ==> e.window[i] == window[i])
      && (RegisterWrites(c.command, a) == [] ==> e.window == window)
      && (forall i :: 0 <= i < |user| && !InAnswer(Answer(user, c, a, f), i) ==> e.user[i] == user[i])
  {
    var values := RegisterWrites(c.command, a);
    if values != [] { LastWriteStays(window, values); }
  }

  /** The interrupt machine's command, for the commands that concern it. */
  function MachineCommand(command: u32, available: bool): Option<Interrupts.Command> {
    if command == ENABLE_KERNEL_IRQ then Some(Interrupts.Enable)
    else if command == SAVE_PCI_CONTROL_REGS then Some(Interrupts.Save)
    else if command == LOAD_PCI_CONTROL_REGS then Some(Interrupts.Load(available))
    else None
  }

  lemma RegisterHoldsLast(window: seq<byte>, values: seq<u32>)
    requires |window| >= ENABLE_REGISTER + 4 && values != []
    ensures Decode(Sub(AfterWrites(window, values), ENABLE_REGISTER, 4)) == values[|values| - 1]
  {
    var last := Encode(values[|values| - 1], 4);
    LastWriteStays(window, values);
    assert Sub(Patch(window, ENABLE_REGISTER, last), ENABLE_REGISTER, 4) == last;
    DecodeEncode(values[|values| - 1], 4);
  }

  /** The interrupt machine after a command. */
  function MachineAfter(s: Interrupts.State, command: u32, available: bool): Interrupts.State {
    match MachineCommand(command, available)
    case Some(m) => Interrupts.Complete(s, Interrupts.Expand(m))
    case None => s
  }

  lemma MachineFollowsWrites(s: Interrupts.State, command: u32, available: bool, a: Answers)
    requires a.irqGranted <==> available && !s.registered
    ensures
      var values, enable := RegisterWrites(command, a), MachineAfter(s, command, available).enable;
      if values == [] then enable == s.enable else values[|values| - 1] == Interrupts.Bit(enable)
  {
    if command == ENABLE_KERNEL_IRQ { Interrupts.CompleteOne(s, Interrupts.Unmask); }
    else if command == SAVE_PCI_CONTROL_REGS { Interrupts.CompleteSave(s); }
    else if command == LOAD_PCI_CONTROL_REGS { Interrupts.CompleteLoad(s, available); }
    hide Interrupts.Complete, Interrupts.Wrap;
  }

  /** Register memory and interrupt machine agree: after any command the register holds the machine's enable
      bit if it did before. */
  lemma RegisterFollowsMachine(window: seq<byte>, user: seq<byte>, c: Cmd, a: Answers, f: Faults,
                               s: Interrupts.State, available: bool)
    requires |window| >= ENABLE_REGISTER + 4
    requires Decode(Sub(window, ENABLE_REGISTER, 4)) == Interrupts.Bit(s.enable)
    requires a.irqGranted <==> available && !s.registered
    ensures Decode(Sub(CommandEffect(window, user, c, a, f).window, ENABLE_REGISTER, 4)) ==
      Interrupts.Bit(MachineAfter(s, c.command, available).enable)
  {
    MachineFollowsWrites(s, c.command, available, a);
    var values := RegisterWrites(c.command, a);
    if values != [] { RegisterHoldsLast(window, values); }
    hide RegisterWrites, MachineAfter;
  }

  /** The address looked up is the caller's word, unless its copy faults. */
  lemma AddressIsCallers(user: seq<byte>, c: Cmd, f: Faults)
    requires !FaultsAt(|user|, c.userAddr, 4, CopyAt(f, 0))
    ensures AddressRead(user, c, f) == Decode(Sub(user, c.userAddr, 4))
  {
  }

  /** An address that is not found leaves user memory as it was, and the result tells whether the copy of the
      address faulted. */
  lemma LookupMisses(window: seq<byte>, user: seq<byte>, c: Cmd, a: Answers, f: Faults)
    requires |window| >= ENABLE_REGISTER + 4 && c.command == GET_PHYS_PTR_FROM_VIRT
    requires AddrMap.Lookup(a.slots, AddressRead(user, c, f)) == None
    ensures
      var e := CommandEffect(window, user, c, a, f);
      && e.user == user && e.result == 4 - Moved(|user|, c.userAddr, 4, CopyAt(f, 0))
      && (e.result == 0 <==> !FaultsAt(|user|, c.userAddr, 4, CopyAt(f, 0)))
  {
    hide AddrMap.Lookup, AddressRead, AfterWrites;
  }

  /** One that is found is mapped. The result then tells whether the copy of the handle faulted, whatever became
      of the copy of the address, and if it did not the caller can read what the address maps to. */
  lemma LookupFinds(window: seq<byte>, user: seq<byte>, c: Cmd, a: Answers, f: Faults)
    requires |window| >= ENABLE_REGISTER + 4 && c.command == GET_PHYS_PTR_FROM_VIRT
    requires AddrMap.DistinctStarts(a.slots) && AddrMap.Lookup(a.slots, AddressRead(user, c, f)).Some?
    ensures
      var e, va := CommandEffect(window, user, c, a, f), AddressRead(user, c, f);
      && va in AddrMap.Mapping(a.slots) && e.result == 4 - Moved(|user|, c.deviceAddr, 4, CopyAt(f, 1))
      && (e.result == 0 <==> !FaultsAt(|user|, c.deviceAddr, 4, CopyAt(f, 1)))
      && (e.result == 0 ==>
            && c.deviceAddr + 4 <= |user|
            && Decode(Sub(e.user, c.deviceAddr, 4)) == AddrMap.Mapping(a.slots)[va])
  {
    var va := AddressRead(user, c, f);
    AddrMap.FoundIsMapped(a.slots, va);
    FoundIsSent(window, user, c, a, f);
    hide AddrMap.Lookup, AddrMap.Mapping, AddrMap.DistinctStarts, AddressRead, CommandEffect, Decode, Delivered;
    var handle := AddrMap.Lookup(a.slots, va).value;
    if !FaultsAt(|user|, c.deviceAddr, 4, CopyAt(f, 1)) { HandleArrives(user, c.deviceAddr, handle, CopyAt(f, 1)); }
  }

  lemma FoundIsSent(window: seq<byte>, user: seq<byte>, c: Cmd, a: Answers, f: Faults)
    requires |window| >= ENABLE_REGISTER + 4 && c.command == GET_PHYS_PTR_FROM_VIRT
    requires AddrMap.Lookup(a.slots, AddressRead(user, c, f)).Some?
    ensures
      var e, handle := CommandEffect(window, user, c, a, f), AddrMap.Lookup(a.slots, AddressRead(user, c, f)).value;
      && e.user == Delivered(user, c.deviceAddr, Encode(handle, 4), CopyAt(f, 1))
      && e.result == 4 - Moved(|user|, c.deviceAddr, 4, CopyAt(f, 1))
  {
    hide AddrMap.Lookup, AddressRead, Decode, Delivered, Moved, AfterWrites;
  }

  lemma HandleArrives(user: seq<byte>, at: nat, handle: u32, c: Copy)
    requires !FaultsAt(|user|, at, 4, c)
    ensures Decode(Sub(Delivered(user, at, Encode(handle, 4), c), at, 4)) == handle
  {
    var bytes := Encode(handle, 4);
    DecodeEncode(handle, 4);
    assert Sub(Patch(user, at, bytes), at, 4) == bytes;
  }

  /** A mapped address is found exactly if its slot lies below the scan's limit and below the first hole. */
  lemma MappedIsFound(user: seq<byte>, c: Cmd, a: Answers, f: Faults, k: nat)
    requires AddrMap.DistinctStarts(a.slots)
    requires k < |a.slots| && AddrMap.Live(a.slots[k]) && a.slots[k].vmStart == AddressRead(user, c, f)
    ensures AddrMap.Lookup(a.slots, AddressRead(user, c, f)).Some? <==>
      k < 128 && k < AddrMap.FirstFree(a.slots)
  {
    AddrMap.LookupAgreesExactly(a.slots, k);
    hide *;
  }

  // ---------------------------------------------------------------- command by command, in numbers

  /** Bytes sent to user space arrive as they are if their copy goes through. */
  lemma MessageArrives(user: seq<byte>, at: nat, bs: seq<byte>, c: Copy)
    requires bs != [] && !FaultsAt(|user|, at, |bs|, c)
    ensures Sub(Delivered(user, at, bs, c), at, |bs|) == bs
  {
  }

  /** A command that answers sends its bytes to the caller's address and writes no register. Its result is the
      number of bytes that were not copied. */
  predicate Sends(window: seq<byte>, user: seq<byte>, c: Cmd, e: Effect, bs: seq<byte>, copy: Copy)
    requires bs != []
  {
    && e.window == window && |e.user| == |user|
    && e.result == |bs| - Moved(|user|, c.userAddr, |bs|, copy)
    && (e.result == 0 ==> c.userAddr + |bs| <= |user| && Sub(e.user, c.userAddr, |bs|) == bs)
  }

  lemma AnswerSends(window: seq<byte>, user: seq<byte>, c: Cmd, a: Answers, f: Faults, bs: seq<byte>)
    requires |window| >= ENABLE_REGISTER + 4 && bs != []
    requires Answer(user, c, a, f) == Some(Message(c.userAddr, bs, 0)) && RegisterWrites(c.command, a) == []
    ensures Sends(window, user, c, CommandEffect(window, user, c, a, f), bs, CopyAt(f, 0))
  {
    hide Answer, RegisterWrites;
    if !FaultsAt(|user|, c.userAddr, |bs|, CopyAt(f, 0)) { MessageArrives(user, c.userAddr, bs, CopyAt(f, 0)); }
    hide Delivered;
  }

  /** The same for a word, which the caller then reads. */
  predicate SendsWord(window: seq<byte>, user: seq<byte>, c: Cmd, e: Effect, v: u32, copy: Copy) {
    && e.window == window && |e.user| == |user|
    && e.result == 4 - Moved(|user|, c.userAddr, 4, copy)
    && (e.result == 0 ==> c.userAddr + 4 <= |user| && Decode(Sub(e.user, c.userAddr, 4)) == v)
  }

  lemma WordIsSent(window: seq<byte>, user: seq<byte>, c: Cmd, e: Effect, v: u32, copy: Copy)
    requires Sends(window, user, c, e, Encode(v, 4), copy)
    ensures SendsWord(window, user, c, e, v, copy)
  {
    assert Capacity(4) == 0x1_0000_0000;
    DecodeEncode(v, 4);
    hide Moved, Decode, Encode;
  }

  /** Command 5 answers with the word 1. */
  lemma IdleStatus(window: seq<byte>, user: seq<byte>, c: Cmd, a: Answers, f: Faults)
    requires |window| >= ENABLE_REGISTER + 4 && c.command == 5
    ensures SendsWord(window, user, c, CommandEffect(window, user, c, a, f), 1, CopyAt(f, 0))
  {
    AnswerSends(window, user, c, a, f, Encode(1, 4));
    hide Sends, CommandEffect;
    WordIsSent(window, user, c, CommandEffect(window, user, c, a, f), 1, CopyAt(f, 0));
  }

  /** Command 7 answers with the word 0xC500. */
  lemma DeviceId(window: seq<byte>, user: seq<byte>, c: Cmd, a: Answers, f: Faults)
    requires |window| >= ENABLE_REGISTER + 4 && c.command == 7
    ensures SendsWord(window, user, c, CommandEffect(window, user, c, a, f), 0xC500, CopyAt(f, 0))
  {
    AnswerSends(window, user, c, a, f, Encode(0xC500, 4));
    hide Sends, CommandEffect;
    WordIsSent(window, user, c, CommandEffect(window, user, c, a, f), 0xC500, CopyAt(f, 0));
  }

  /** Command 13 answers with "14.1." and its final zero. */
  lemma DriverVersion(window: seq<byte>, user: seq<byte>, c: Cmd, a: Answers, f: Faults)
    requires |window| >= ENABLE_REGISTER + 4 && c.command == 13
    ensures Sends(window, user, c, CommandEffect(window, user, c, a, f), [49, 52, 46, 49, 46, 0], CopyAt(f, 0))
  {
    AnswerSends(window, user, c, a, f, [49, 52, 46, 49, 46, 0]);
    hide Sends, CommandEffect;
  }

  /** Commands 1, 2, 6, 12 and 14 send nothing. Their result is 0, but for 12 the number of bytes of the payload
      that were not copied. Command 14 leaves 1 in the enable register, command 2 does if the interrupt is
      granted, command 1 leaves 0, after two writes; 6 and 12 do not write it. */
  lemma SilentCommands(window: seq<byte>, user: seq<byte>, c: Cmd, a: Answers, f: Faults)
    requires |window| >= ENABLE_REGISTER + 4 && c.command in {1, 2, 6, 12, 14}
    ensures
      var e := CommandEffect(window, user, c, a, f);
      var writes := |CommandTrace(c.command, a)|;
      && e.user == user
      && e.result == (if c.command == 12 then 4 - Moved(|user|, c.userAddr, 4, CopyAt(f, 0)) else 0)
      && writes == (if c.command == 1 then 2 else if c.command == 14 || (c.command == 2 && a.irqGranted) then 1 else 0)
      && (if writes == 0 then e.window == window
          else Decode(Sub(e.window, 0x4050, 4)) == if c.command == 1 then 0 else 1)
  {
    var values := RegisterWrites(c.command, a);
    if values != [] { RegisterHoldsLast(window, values); }
    hide AfterWrites, Decode, Sub, Moved;
  }

  /** Any other command but 16 is refused and changes nothing. */
  lemma OthersAreRefused(window: seq<byte>, user: seq<byte>, c: Cmd, a: Answers, f: Faults)
    requires |window| >= ENABLE_REGISTER + 4 && c.command !in {1, 2, 5, 6, 7, 12, 13, 14, 16}
    ensures CommandEffect(window, user, c, a, f) == Effect(window, user, -EFAULT) && CommandTrace(c.command, a) == []
  {
  }
}
