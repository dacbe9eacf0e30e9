/**
 The mmap slot table of aclsoc.c: first-fit allocation of slots, a reference count per
 slot for the VMAs that share it, the freeing of DMA blocks, and the virtual-to-physical
 lookup of aclsoc_cmd.c.
 */
module AddrMap {
  import opened Common

  const LOOKUP_LIMIT: nat := 128

  /** struct addr_map_elem. */
  datatype Slot = Slot(vmStart: nat, size: nat, cpuAddr: nat, handle: u32, ref: int)

  const ZERO := Slot(0, 0, 0, 0, 0)

  predicate Live(s: Slot) {
    s.vmStart != 0
  }

  /** A DMA block, as the allocator hands it out and takes it back. */
  datatype Block = Block(size: nat, cpuAddr: nat, handle: u32)

  /** What dma_alloc_coherent answers. */
  datatype Dma = Dma(cpuAddr: nat, handle: u32)

  function BlockOf(s: Slot): Block {
    Block(s.size, s.cpuAddr, s.handle)
  }

  /** One dma_free_coherent call, and the allocation it gives back. */
  datatype Free = Free(id: nat, block: Block)

  /** What became of an allocation. */
  datatype Fate = InSlot(slot: nat) | Freed(at: nat) | Dropped

  /** The table with its history: allocations are numbered in order; `ids` says which one a live slot
      holds; `vmas` maps every open VMA to the slot it points at. */
  datatype State = State(slots: seq<Slot>, ids: seq<nat>, vmas: map<nat, nat>,
                         allocs: seq<Block>, fate: seq<Fate>, freed: seq<Free>)

  /** The VMAs that point at slot i. */
  function Holders(vmas: map<nat, nat>, i: nat): set<nat> {
    set v | v in vmas && vmas[v] == i
  }

  // ---------------------------------------------------------------- the invariant

  predicate SlotsOk(s: State) {
    && |s.ids| == |s.slots|
    && (forall i :: 0 <= i < |s.slots| ==> Live(s.slots[i]) || s.slots[i] == ZERO)
    && (forall v <- s.vmas :: s.vmas[v] < |s.slots|)
  }

  /** A slot's count is the number of VMAs that point at it, and it is live exactly when there are any. */
  predicate RefsOk(s: State) {
    forall i :: 0 <= i < |s.slots| ==>
      s.slots[i].ref == |Holders(s.vmas, i)| && (Live(s.slots[i]) <==> s.slots[i].ref > 0)
  }

  /** Every allocation is where its fate says and nowhere else. */
  predicate FatesOk(s: State)
    requires SlotsOk(s)
  {
    && |s.fate| == |s.allocs|
    && (forall i :: 0 <= i < |s.slots| && Live(s.slots[i]) ==>
          s.ids[i] < |s.allocs| && s.fate[s.ids[i]] == InSlot(i) && s.allocs[s.ids[i]] == BlockOf(s.slots[i]))
    && (forall k :: 0 <= k < |s.freed| ==>
          s.freed[k].id < |s.allocs| && s.fate[s.freed[k].id] == Freed(k)
          && s.allocs[s.freed[k].id] == s.freed[k].block)
    && (forall a :: 0 <= a < |s.fate| && s.fate[a].InSlot? ==>
          s.fate[a].slot < |s.slots| && Live(s.slots[s.fate[a].slot]) && s.ids[s.fate[a].slot] == a)
    && (forall a :: 0 <= a < |s.fate| && s.fate[a].Freed? ==>
          s.fate[a].at < |s.freed| && s.freed[s.fate[a].at].id == a)
  }

  /** Two stretches of memory start apart and do not overlap. */
  predicate Disjoint(a: nat, n: nat, b: nat, k: nat) {
    a != b && (a + n <= b || b + k <= a)
  }

  /** Two blocks share memory neither as the processor nor as the bus addresses it. */
  predicate Separate(a: Block, b: Block) {
    Disjoint(a.cpuAddr, a.size, b.cpuAddr, b.size) && Disjoint(a.handle, a.size, b.handle, b.size)
  }

  lemma SeparateIsSymmetric()
    ensures forall a, b :: Separate(a, b) <==> Separate(b, a)
  {
  }

  /** Two allocations not given back yet are different memory. */
  predicate Apart(s: State)
    requires |s.fate| == |s.allocs|
  {
    forall a, b :: 0 <= a < b < |s.allocs| && !s.fate[a].Freed? && !s.fate[b].Freed? ==>
      Separate(s.allocs[a], s.allocs[b])
  }

  predicate Inv(s: State) {
    SlotsOk(s) && RefsOk(s) && FatesOk(s) && Apart(s)
  }

  function Init(n: nat): (s: State)
    ensures Inv(s)
  {
    assert forall i :: Holders(map[], i) == {};
    State(seq(n, _ => ZERO), seq(n, _ => 0), map[], [], [], [])
  }

  // ---------------------------------------------------------------- the operations

  /** The first free slot, or the table's size when there is none. */
  function FirstFree(slots: seq<Slot>): (i: nat)
    ensures i <= |slots|
    ensures forall j :: 0 <= j < i ==> Live(slots[j])
    ensures i < |slots| ==> !Live(slots[i])
  {
    if slots == [] || !Live(slots[0]) then 0 else 1 + FirstFree(slots[1..])
  }

  /** A new VMA asking for memory, with the answers of the DMA allocator and of remap_pfn_range; a VMA
      duplicated; a VMA gone. */
  datatype Op =
    | Mmap(vma: nat, vmStart: nat, size: nat, dma: Option<Dma>, remapOk: bool)
    | Open(vma: nat, source: nat)
    | Close(vma: nat)

  datatype Reply = Reply(state: State, result: int)

  /** The block behind the allocator's answer is as large as was asked for. */
  function Granted(dma: Dma, size: nat): Block {
    Block(size, dma.cpuAddr, dma.handle)
  }

  function MmapStep(s: State, vma: nat, vmStart: nat, size: nat, dma: Option<Dma>, remapOk: bool): Reply
    requires |s.ids| == |s.slots|
  {
    var i := FirstFree(s.slots);
    if i == |s.slots| || dma.None? then Reply(s, -ENOMEM)
    else
      var b := Granted(dma.value, size);
      var s' := s.(allocs := s.allocs + [b]);
      if !remapOk then Reply(s'.(fate := s.fate + [Dropped]), -EAGAIN)
      else
        Reply(s'.(slots := s.slots[i := Slot(vmStart, size, b.cpuAddr, b.handle, 1)],
                  ids := s.ids[i := |s.allocs|], vmas := s.vmas[vma := i], fate := s.fate + [InSlot(i)]), 0)
  }

  function OpenStep(s: State, vma: nat, source: nat): State
    requires source in s.vmas && s.vmas[source] < |s.slots|
  {
    var i := s.vmas[source];
    s.(slots := s.slots[i := s.slots[i].(ref := s.slots[i].ref + 1)], vmas := s.vmas[vma := i])
  }

  /** free_map_info. */
  function FreeSlot(s: State, i: nat): State
    requires |s.ids| == |s.slots| && i < |s.slots| && (Live(s.slots[i]) ==> s.ids[i] < |s.fate|)
  {
    if !Live(s.slots[i]) then s
    else s.(slots := s.slots[i := ZERO],
            fate := s.fate[s.ids[i] := Freed(|s.freed|)], freed := s.freed + [Free(s.ids[i], BlockOf(s.slots[i]))])
  }

  function CloseStep(s: State, vma: nat): State
    requires SlotsOk(s) && FatesOk(s) && vma in s.vmas
  {
    var i := s.vmas[vma];
    var s' := s.(slots := s.slots[i := s.slots[i].(ref := s.slots[i].ref - 1)], vmas := s.vmas - {vma});
    if s'.slots[i].ref == 0 then FreeSlot(s', i) else s'
  }

  /** free_contiguous_memory, from slot i on. */
  function Sweep(s: State, i: nat): State
    requires |s.ids| == |s.slots| && i <= |s.slots|
    requires forall j :: 0 <= j < |s.slots| && Live(s.slots[j]) ==> s.ids[j] < |s.fate|
    decreases |s.slots| - i
  {
    if i == |s.slots| then s else Sweep(FreeSlot(s, i), i + 1)
  }

  /** What the kernel guarantees of the calls it makes: fresh VMAs, VMAs that exist, and no allocation that
      overlaps one still outstanding. */
  predicate Enabled(s: State, op: Op)
    requires |s.fate| == |s.allocs|
  {
    match op
    case Mmap(vma, vmStart, size, dma, _) =>
      vma !in s.vmas && vmStart != 0 && (dma.Some? ==> Unused(s, Granted(dma.value, size)))
    case Open(vma, source) => vma !in s.vmas && source in s.vmas
    case Close(vma) => vma in s.vmas
  }

  predicate Unused(s: State, b: Block)
    requires |s.fate| == |s.allocs|
  {
    forall a :: 0 <= a < |s.allocs| && !s.fate[a].Freed? ==> Separate(s.allocs[a], b)
  }

  function Step(s: State, op: Op): (r: State)
    requires Inv(s) && Enabled(s, op)
  {
    match op
    case Mmap(vma, vmStart, size, dma, remapOk) => MmapStep(s, vma, vmStart, size, dma, remapOk).state
    case Open(vma, source) => OpenStep(s, vma, source)
    case Close(vma) => CloseStep(s, vma)
  }

  // ---------------------------------------------------------------- every operation keeps the invariant

  lemma HoldersAfterAdd(vmas: map<nat, nat>, v: nat, i: nat, j: nat)
    requires v !in vmas
    ensures Holders(vmas[v := i], j) == if i == j then Holders(vmas, j) + {v} else Holders(vmas, j)
    ensures |Holders(vmas[v := i], j)| == |Holders(vmas, j)| + if i == j then 1 else 0
  {
    assert Holders(vmas[v := i], j) == if i == j then Holders(vmas, j) + {v} else Holders(vmas, j);
  }

  lemma HoldersAfterRemove(vmas: map<nat, nat>, v: nat, j: nat)
    requires v in vmas
    ensures Holders(vmas - {v}, j) == Holders(vmas, j) - {v}
    ensures |Holders(vmas - {v}, j)| == |Holders(vmas, j)| - if vmas[v] == j then 1 else 0
  {
    assert Holders(vmas - {v}, j) == Holders(vmas, j) - {v};
    if vmas[v] == j { assert v in Holders(vmas, j); }
  }

  lemma MmapKeepsRefs(s: State, vma: nat, vmStart: nat, size: nat, dma: Option<Dma>, remapOk: bool)
    requires Inv(s) && Enabled(s, Mmap(vma, vmStart, size, dma, remapOk))
    ensures var r := MmapStep(s, vma, vmStart, size, dma, remapOk).state; SlotsOk(r) && RefsOk(r)
  {
    var i := FirstFree(s.slots);
    forall j | 0 <= j < |s.slots|
      ensures |Holders(s.vmas[vma := i], j)| == |Holders(s.vmas, j)| + if i == j then 1 else 0
    {
      HoldersAfterAdd(s.vmas, vma, i, j);
    }
  }

  lemma MmapKeepsFates(s: State, vma: nat, vmStart: nat, size: nat, dma: Option<Dma>, remapOk: bool)
    requires Inv(s) && vmStart != 0
    ensures var r := MmapStep(s, vma, vmStart, size, dma, remapOk).state; SlotsOk(r) ==> FatesOk(r)
  {
    hide RefsOk, Apart;
  }

  lemma MmapKeepsApart(s: State, vma: nat, vmStart: nat, size: nat, dma: Option<Dma>, remapOk: bool)
    requires |s.ids| == |s.slots| && |s.fate| == |s.allocs| && Apart(s)
    requires dma.Some? ==> Unused(s, Granted(dma.value, size))
    ensures var r := MmapStep(s, vma, vmStart, size, dma, remapOk).state; |r.fate| == |r.allocs| && Apart(r)
  {
    hide Separate;
  }

  lemma MmapKeepsInv(s: State, vma: nat, vmStart: nat, size: nat, dma: Option<Dma>, remapOk: bool)
    requires Inv(s) && Enabled(s, Mmap(vma, vmStart, size, dma, remapOk))
    ensures Inv(MmapStep(s, vma, vmStart, size, dma, remapOk).state)
  {
    MmapKeepsRefs(s, vma, vmStart, size, dma, remapOk);
    MmapKeepsFates(s, vma, vmStart, size, dma, remapOk);
    MmapKeepsApart(s, vma, vmStart, size, dma, remapOk);
    hide MmapStep, RefsOk, Apart, Unused;
  }

  lemma OpenKeepsInv(s: State, vma: nat, source: nat)
    requires Inv(s) && Enabled(s, Open(vma, source))
    ensures Inv(OpenStep(s, vma, source))
  {
    var i := s.vmas[source];
    assert source in Holders(s.vmas, i);
    forall j | 0 <= j < |s.slots|
      ensures |Holders(s.vmas[vma := i], j)| == |Holders(s.vmas, j)| + if i == j then 1 else 0
    {
      HoldersAfterAdd(s.vmas, vma, i, j);
    }
  }

  lemma CloseKeepsRefs(s: State, vma: nat)
    requires Inv(s) && Enabled(s, Close(vma))
    ensures SlotsOk(CloseStep(s, vma)) && RefsOk(CloseStep(s, vma))
  {
    var i := s.vmas[vma];
    assert vma in Holders(s.vmas, i);
    forall j | 0 <= j < |s.slots|
      ensures |Holders(s.vmas - {vma}, j)| == |Holders(s.vmas, j)| - if i == j then 1 else 0
    {
      HoldersAfterRemove(s.vmas, vma, j);
    }
  }

  lemma CloseKeepsFates(s: State, vma: nat)
    requires Inv(s) && Enabled(s, Close(vma)) && SlotsOk(CloseStep(s, vma))
    ensures FatesOk(CloseStep(s, vma)) && Apart(CloseStep(s, vma))
  {
    assert vma in Holders(s.vmas, s.vmas[vma]);
  }

  lemma StepKeepsInv(s: State, op: Op)
    requires Inv(s) && Enabled(s, op)
    ensures Inv(Step(s, op))
  {
    match op
    case Mmap(vma, vmStart, size, dma, remapOk) => MmapKeepsInv(s, vma, vmStart, size, dma, remapOk);
    case Open(vma, source) => OpenKeepsInv(s, vma, source);
    case Close(vma) => CloseKeepsRefs(s, vma); CloseKeepsFates(s, vma);
  }

  /** A mapping that succeeds keeps the table consistent exactly when its address is not the one that marks
      a free slot. */
  lemma MmapNeedsAddress(s: State, vma: nat, vmStart: nat, size: nat, dma: Option<Dma>)
    requires Inv(s) && vma !in s.vmas && dma.Some? && Unused(s, Granted(dma.value, size))
    requires FirstFree(s.slots) < |s.slots|
    ensures Inv(MmapStep(s, vma, vmStart, size, dma, true).state) <==> vmStart != 0
  {
    if vmStart != 0 {
      MmapKeepsInv(s, vma, vmStart, size, dma, true);
    } else {
      var r := MmapStep(s, vma, vmStart, size, dma, true).state;
      var i := FirstFree(s.slots);
      assert r.slots[i].ref == 1 && !Live(r.slots[i]);
    }
  }

  // ---------------------------------------------------------------- runs

  predicate ValidRun(s: State, ops: seq<Op>)
    requires Inv(s)
    decreases ops
  {
    if ops == [] then true
    else Enabled(s, ops[0]) && (StepKeepsInv(s, ops[0]); ValidRun(Step(s, ops[0]), ops[1..]))
  }

  function Exec(s: State, ops: seq<Op>): (r: State)
    requires Inv(s) && ValidRun(s, ops)
    ensures Inv(r) && |r.slots| == |s.slots|
    decreases ops
  {
    if ops == [] then s
    else
      StepKeepsInv(s, ops[0]);
      Exec(Step(s, ops[0]), ops[1..])
  }

  function Below(n: nat): (r: set<nat>)
    ensures forall a: nat :: a in r <==> a < n
  {
    if n == 0 then {} else Below(n - 1) + {n - 1}
  }

  function LiveIds(s: State): set<nat>
    requires |s.ids| == |s.slots|
  {
    set i | 0 <= i < |s.slots| && Live(s.slots[i]) :: s.ids[i]
  }

  function FreedIds(s: State): set<nat> {
    set k | 0 <= k < |s.freed| :: s.freed[k].id
  }

  function DroppedIds(s: State): set<nat> {
    set a | 0 <= a < |s.fate| && s.fate[a].Dropped?
  }

  /** Every allocation ever made is live in the table, or freed, or lost to a failed remap, and only one of
      these; no block is freed twice, and each is freed with the size, address and handle it was allocated
      with; live slots hold different allocations. */
  predicate Conserved(s: State)
    requires |s.ids| == |s.slots|
  {
    && LiveIds(s) + FreedIds(s) + DroppedIds(s) == Below(|s.allocs|)
    && LiveIds(s) !! FreedIds(s) && LiveIds(s) !! DroppedIds(s) && FreedIds(s) !! DroppedIds(s)
    && (forall k, l :: 0 <= k < l < |s.freed| ==> s.freed[k].id != s.freed[l].id)
    && (forall k :: 0 <= k < |s.freed| ==> s.freed[k].id < |s.allocs| && s.freed[k].block == s.allocs[s.freed[k].id])
    && (forall i, j :: 0 <= i < j < |s.slots| && Live(s.slots[i]) && Live(s.slots[j]) ==> s.ids[i] != s.ids[j])
  }

  lemma FatesConserve(s: State)
    requires SlotsOk(s) && FatesOk(s)
    ensures Conserved(s)
  {
    forall a | 0 <= a < |s.allocs| ensures a in LiveIds(s) + FreedIds(s) + DroppedIds(s) {
      match s.fate[a]
      case InSlot(i) => assert s.ids[i] in LiveIds(s);
      case Freed(k) => assert s.freed[k].id in FreedIds(s);
      case Dropped =>
    }
  }

  /** Conservation over every run, error paths included; distinct live slots hold different memory; and when
      the driver goes, whatever is still mapped, all but the blocks of failed remaps have been freed once. */
  lemma Conservation(n: nat, ops: seq<Op>)
    requires ValidRun(Init(n), ops)
    ensures
      var s := Exec(Init(n), ops);
      && Inv(s) && Conserved(s)
      && forall i, j :: 0 <= i < j < n && Live(s.slots[i]) && Live(s.slots[j]) ==>
           Separate(BlockOf(s.slots[i]), BlockOf(s.slots[j]))
    ensures
      var r := Sweep(Exec(Init(n), ops), 0);
      |r.ids| == |r.slots| && Conserved(r) && FreedIds(r) == Below(|r.allocs|) - DroppedIds(r)
  {
    var s := Exec(Init(n), ops);
    SweepSettles(s);
    FatesConserve(s);
    LiveSlotsSeparate(s);
    hide Exec, ValidRun, Sweep, Conserved, Inv, Separate;
  }

  lemma LiveSlotsSeparate(s: State)
    requires Inv(s)
    ensures forall i, j :: 0 <= i < j < |s.slots| && Live(s.slots[i]) && Live(s.slots[j]) ==>
      Separate(BlockOf(s.slots[i]), BlockOf(s.slots[j]))
  {
    SeparateIsSymmetric();
    hide Separate;
    forall i, j | 0 <= i < j < |s.slots| && Live(s.slots[i]) && Live(s.slots[j])
      ensures Separate(BlockOf(s.slots[i]), BlockOf(s.slots[j]))
    {
      assert s.ids[i] < s.ids[j] || s.ids[j] < s.ids[i];
    }
  }

  /** A close gives the block back exactly when it was the last VMA on it, as it was allocated. */
  lemma FreedAtLastClose(s: State, vma: nat)
    requires Inv(s) && vma in s.vmas
    ensures
      var i := s.vmas[vma];
      && s.ids[i] < |s.allocs|
      && CloseStep(s, vma).freed ==
           if Holders(s.vmas, i) == {vma} then s.freed + [Free(s.ids[i], s.allocs[s.ids[i]])] else s.freed
  {
    var i := s.vmas[vma];
    assert vma in Holders(s.vmas, i);
    if |Holders(s.vmas, i)| == 1 {
      assert |Holders(s.vmas, i) - {vma}| == 0;
      assert Holders(s.vmas, i) - {vma} == {};
    }
  }

  /** A successful mapping gives the new VMA a slot of its own that records the address and the block as asked for
      and granted; a failed one gives it none, and if its remapping failed the block is on record as dropped. */
  lemma MmapRecords(s: State, vma: nat, vmStart: nat, size: nat, dma: Option<Dma>, remapOk: bool)
    requires Inv(s) && Enabled(s, Mmap(vma, vmStart, size, dma, remapOk))
    ensures
      var r := MmapStep(s, vma, vmStart, size, dma, remapOk);
      var s' := r.state;
      if r.result == 0 then
        && dma.Some? && s'.vmas.Keys == s.vmas.Keys + {vma} && (forall v <- s.vmas :: s'.vmas[v] == s.vmas[v])
        && var i := s'.vmas[vma];
        && i < |s.slots| == |s'.slots| && i !in s.vmas.Values
        && s'.slots[i].vmStart == vmStart && BlockOf(s'.slots[i]) == Block(size, dma.value.cpuAddr, dma.value.handle)
        && (forall j :: 0 <= j < |s.slots| && j != i ==> s'.slots[j] == s.slots[j])
        && |s'.ids| == |s.ids| && s'.ids[i] == |s.allocs|
        && s'.fate == s.fate + [InSlot(i)] && s'.allocs == s.allocs + [BlockOf(s'.slots[i])] && s'.freed == s.freed
      else if r.result == -11 then
        && dma.Some? && !remapOk
        && s' == s.(allocs := s.allocs + [Block(size, dma.value.cpuAddr, dma.value.handle)], fate := s.fate + [Dropped])
      else r == Reply(s, -12)
  {
    forall v <- s.vmas ensures s.vmas[v] != FirstFree(s.slots) { HeldIsLive(s, v); }
  }

  /** aclsoc_vma_open adds its VMA beside its source, and nothing else changes hands. */
  lemma OpenAdds(s: State, vma: nat, source: nat)
    requires Inv(s) && Enabled(s, Open(vma, source))
    ensures
      var s' := OpenStep(s, vma, source);
      && s'.vmas.Keys == s.vmas.Keys + {vma} && s'.vmas[vma] == s.vmas[source]
      && (forall v <- s.vmas :: s'.vmas[v] == s.vmas[v])
      && s'.ids == s.ids && s'.allocs == s.allocs && s'.fate == s.fate && s'.freed == s.freed
      && |s'.slots| == |s.slots|
      && forall i :: 0 <= i < |s.slots| ==>
           s'.slots[i].vmStart == s.slots[i].vmStart && BlockOf(s'.slots[i]) == BlockOf(s.slots[i])
  {
  }

  /** aclsoc_vma_close takes its VMA away and no other. */
  lemma CloseRemoves(s: State, vma: nat)
    requires Inv(s) && vma in s.vmas
    ensures
      var s' := CloseStep(s, vma);
      && s'.vmas == s.vmas - {vma} && s'.ids == s.ids && s'.allocs == s.allocs && |s'.slots| == |s.slots|
      && forall i :: 0 <= i < |s.slots| && Holders(s.vmas, i) != {vma} ==>
           s'.slots[i].vmStart == s.slots[i].vmStart && BlockOf(s'.slots[i]) == BlockOf(s.slots[i])
  {
    var i := s.vmas[vma];
    assert vma in Holders(s.vmas, i);
    if |Holders(s.vmas, i)| == 1 {
      assert |Holders(s.vmas, i) - {vma}| == 0;
      assert Holders(s.vmas, i) == {vma};
    }
  }

  /** Which allocation each open VMA was opened on, told from the calls alone: a mapping opens one on the next
      allocation, a duplicate is opened on its source's, and a close ends one. */
  function OwnersAfter(s: State, op: Op, owners: map<nat, nat>): map<nat, nat>
    requires |s.ids| == |s.slots|
  {
    match op
    case Mmap(vma, vmStart, size, dma, remapOk) =>
      if MmapStep(s, vma, vmStart, size, dma, remapOk).result == 0 then owners[vma := |s.allocs|] else owners
    case Open(vma, source) => if source in owners then owners[vma := owners[source]] else owners
    case Close(vma) => owners - {vma}
  }

  function Owners(s: State, ops: seq<Op>, owners: map<nat, nat>): map<nat, nat>
    requires Inv(s) && ValidRun(s, ops)
    decreases ops
  {
    if ops == [] then owners
    else
      StepKeepsInv(s, ops[0]);
      Owners(Step(s, ops[0]), ops[1..], OwnersAfter(s, ops[0], owners))
  }

  /** The table's pointers agree with the calls. */
  predicate OwnersOk(s: State, owners: map<nat, nat>)
    requires SlotsOk(s)
  {
    owners.Keys == s.vmas.Keys && forall v <- owners :: s.ids[s.vmas[v]] == owners[v]
  }

  lemma MmapKeepsOwners(s: State, vma: nat, vmStart: nat, size: nat, dma: Option<Dma>, remapOk: bool,
                        owners: map<nat, nat>)
    requires Inv(s) && Enabled(s, Mmap(vma, vmStart, size, dma, remapOk)) && OwnersOk(s, owners)
    ensures
      var s' := MmapStep(s, vma, vmStart, size, dma, remapOk).state;
      SlotsOk(s') ==> OwnersOk(s', OwnersAfter(s, Mmap(vma, vmStart, size, dma, remapOk), owners))
  {
    MmapRecords(s, vma, vmStart, size, dma, remapOk);
    MmapKeepsIds(s, vma, vmStart, size, dma, remapOk);
    hide MmapStep, RefsOk, FatesOk, Apart, Unused, BlockOf;
  }

  lemma OpenKeepsOwners(s: State, vma: nat, source: nat, owners: map<nat, nat>)
    requires Inv(s) && Enabled(s, Open(vma, source)) && OwnersOk(s, owners)
    ensures
      var s' := OpenStep(s, vma, source);
      SlotsOk(s') ==> OwnersOk(s', OwnersAfter(s, Open(vma, source), owners))
  {
    OpenAdds(s, vma, source);
    hide OpenStep, RefsOk, FatesOk, Apart, BlockOf;
  }

  lemma CloseKeepsOwners(s: State, vma: nat, owners: map<nat, nat>)
    requires Inv(s) && vma in s.vmas && OwnersOk(s, owners)
    ensures
      var s' := CloseStep(s, vma);
      SlotsOk(s') ==> OwnersOk(s', OwnersAfter(s, Close(vma), owners))
  {
    CloseRemoves(s, vma);
    hide CloseStep, RefsOk, FatesOk, Apart, BlockOf, Holders;
  }

  lemma StepKeepsOwners(s: State, op: Op, owners: map<nat, nat>)
    requires Inv(s) && Enabled(s, op) && OwnersOk(s, owners)
    ensures Inv(Step(s, op)) && SlotsOk(Step(s, op)) && OwnersOk(Step(s, op), OwnersAfter(s, op, owners))
  {
    StepKeepsInv(s, op);
    assert SlotsOk(Step(s, op));
    hide Inv, SlotsOk, OwnersOk, OwnersAfter, MmapStep, OpenStep, CloseStep, Unused;
    match op
    case Mmap(vma, vmStart, size, dma, remapOk) => MmapKeepsOwners(s, vma, vmStart, size, dma, remapOk, owners);
    case Open(vma, source) => OpenKeepsOwners(s, vma, source, owners);
    case Close(vma) => CloseKeepsOwners(s, vma, owners);
  }

  /** Where MmapStep leaves what the other slots hold. */
  lemma MmapKeepsIds(s: State, vma: nat, vmStart: nat, size: nat, dma: Option<Dma>, remapOk: bool)
    requires Inv(s) && vma !in s.vmas
    ensures
      var s' := MmapStep(s, vma, vmStart, size, dma, remapOk).state;
      |s'.ids| == |s.ids| && forall v <- s.vmas :: s'.ids[s.vmas[v]] == s.ids[s.vmas[v]]
  {
    forall v <- s.vmas ensures Live(s.slots[s.vmas[v]]) { HeldIsLive(s, v); }
  }

  lemma HeldIsLive(s: State, v: nat)
    requires Inv(s) && v in s.vmas
    ensures
      var i := s.vmas[v];
      Live(s.slots[i]) && s.ids[i] < |s.fate| && s.fate[s.ids[i]] == InSlot(i)
  {
    assert v in Holders(s.vmas, s.vmas[v]);
  }

  lemma {:induction false} RunKeepsOwners(s: State, ops: seq<Op>, owners: map<nat, nat>)
    requires Inv(s) && ValidRun(s, ops) && OwnersOk(s, owners)
    ensures OwnersOk(Exec(s, ops), Owners(s, ops, owners))
    decreases ops
  {
    if ops != [] {
      StepKeepsOwners(s, ops[0], owners);
      RunKeepsOwners(Step(s, ops[0]), ops[1..], OwnersAfter(s, ops[0], owners));
    }
  }

  /** Over every run, an allocation that was not dropped is freed exactly if every VMA opened on it, by its mapping
      or by a chain of duplicates from there, has been closed. */
  lemma FreedExactlyWhenReleased(n: nat, ops: seq<Op>, a: nat)
    requires ValidRun(Init(n), ops) && a < |Exec(Init(n), ops).allocs|
    ensures
      var s, owners := Exec(Init(n), ops), Owners(Init(n), ops, map[]);
      && s.vmas.Keys == owners.Keys && a < |s.fate|
      && (s.fate[a].Freed? <==> !s.fate[a].Dropped? && a !in owners.Values)
  {
    RunKeepsOwners(Init(n), ops, map[]);
    ReleasedIsFreed(Exec(Init(n), ops), Owners(Init(n), ops, map[]), a);
    hide *;
  }

  lemma ReleasedIsFreed(s: State, owners: map<nat, nat>, a: nat)
    requires Inv(s) && OwnersOk(s, owners) && a < |s.allocs|
    ensures a < |s.fate| && (s.fate[a].Freed? <==> !s.fate[a].Dropped? && a !in owners.Values)
  {
    forall v <- owners ensures owners[v] < |s.fate| && s.fate[owners[v]].InSlot? { HeldIsLive(s, v); }
    if s.fate[a].InSlot? {
      var i := s.fate[a].slot;
      assert |Holders(s.vmas, i)| > 0;
      var v :| v in Holders(s.vmas, i);
      assert owners[v] == a;
    }
  }

  lemma {:induction false} SweepFrees(s: State, i: nat)
    requires SlotsOk(s) && FatesOk(s) && i <= |s.slots|
    ensures
      var r := Sweep(s, i);
      && |r.slots| == |s.slots| && |r.ids| == |s.ids| && r.allocs == s.allocs && r.vmas == s.vmas
      && (forall j :: 0 <= j < |r.slots| ==> r.slots[j] == if j < i then s.slots[j] else ZERO)
      && SlotsOk(r) && FatesOk(r) && DroppedIds(r) == DroppedIds(s)
    decreases |s.slots| - i
  {
    if i < |s.slots| {
      FreeKeepsFates(s, i);
      SweepFrees(FreeSlot(s, i), i + 1);
    }
  }

  /** The sweep at removal empties the table and frees each remaining block once; once every VMA is closed
      it finds nothing to free, and then exactly the blocks of failed remaps were never given back. */
  lemma SweepSettles(s: State)
    requires Inv(s)
    ensures
      var r := Sweep(s, 0);
      && |r.ids| == |r.slots| && r.allocs == s.allocs && LiveIds(r) == {} && Conserved(r)
      && FreedIds(r) == Below(|s.allocs|) - DroppedIds(s)
      && (s.vmas == map[] ==> r == s)
  {
    SweepFrees(s, 0);
    hide Sweep, Apart;
    var r := Sweep(s, 0);
    FatesConserve(r);
    if s.vmas == map[] {
      forall i | 0 <= i < |s.slots| ensures !Live(s.slots[i]) {
        assert Holders(s.vmas, i) == {};
      }
      SweepOfEmpty(s, 0);
    }
  }

  lemma {:induction false} SweepOfEmpty(s: State, i: nat)
    requires |s.ids| == |s.slots| && i <= |s.slots| && forall j :: 0 <= j < |s.slots| ==> !Live(s.slots[j])
    ensures Sweep(s, i) == s
    decreases |s.slots| - i
  {
    if i < |s.slots| { SweepOfEmpty(s, i + 1); }
  }

  /** A successful mapping moves the first free slot strictly up; the table reports itself full only when
      every slot is live. */
  lemma MmapFillsUpward(s: State, vma: nat, vmStart: nat, size: nat, dma: Option<Dma>, remapOk: bool)
    requires Inv(s) && Enabled(s, Mmap(vma, vmStart, size, dma, remapOk))
    ensures
      var r := MmapStep(s, vma, vmStart, size, dma, remapOk);
      && (r.result == 0 ==> FirstFree(r.state.slots) > FirstFree(s.slots))
      && (r.result == 0 <==> FirstFree(s.slots) < |s.slots| && dma.Some? && remapOk)
      && (r.result == -ENOMEM <==> dma.None? || forall i :: 0 <= i < |s.slots| ==> Live(s.slots[i]))
      && (r.result != 0 ==> r.state.slots == s.slots && r.state.vmas == s.vmas && r.state.freed == s.freed)
  {
  }

  // ---------------------------------------------------------------- the lookup

  /** A table as large as the scan takes it to be. */
  type SlotTable = s: seq<Slot> | |s| >= LOOKUP_LIMIT witness seq(LOOKUP_LIMIT, _ => ZERO)

  /** The slot GET_PHYS_PTR_FROM_VIRT stops at with a match, scanning from slot i. */
  function Scan(slots: seq<Slot>, va: nat, i: nat): Option<nat>
    requires |slots| >= LOOKUP_LIMIT
    decreases LOOKUP_LIMIT - i
  {
    if i >= LOOKUP_LIMIT || slots[i].vmStart == 0 then None
    else if slots[i].vmStart == va then Some(i)
    else Scan(slots, va, i + 1)
  }

  lemma {:induction false} ScanStaysAhead(slots: seq<Slot>, va: nat, i: nat)
    requires |slots| >= LOOKUP_LIMIT
    ensures Scan(slots, va, i).Some? ==> i <= Scan(slots, va, i).value < LOOKUP_LIMIT
    decreases LOOKUP_LIMIT - i
  {
    if i < LOOKUP_LIMIT { ScanStaysAhead(slots, va, i + 1); }
  }

  /** A match is exactly a live slot below the limit with that address, behind live slots only, none of
      which has that address. */
  lemma {:induction false} ScanFindsExactly(slots: seq<Slot>, va: nat, i: nat, k: nat)
    requires |slots| >= LOOKUP_LIMIT && i <= k
    ensures Scan(slots, va, i) == Some(k) <==>
      && k < LOOKUP_LIMIT && Live(slots[k]) && slots[k].vmStart == va
      && forall j :: i <= j < k ==> Live(slots[j]) && slots[j].vmStart != va
    decreases LOOKUP_LIMIT - i
  {
    if i < LOOKUP_LIMIT && Live(slots[i]) && slots[i].vmStart != va {
      if i < k { ScanFindsExactly(slots, va, i + 1, k); } else { ScanStaysAhead(slots, va, i + 1); }
    }
  }

  predicate DistinctStarts(slots: seq<Slot>) {
    forall i, j :: 0 <= i < j < |slots| && Live(slots[i]) && Live(slots[j]) ==> slots[i].vmStart != slots[j].vmStart
  }

  /** The mapping the table stands for: every live address to its block's bus address. */
  function Mapping(slots: seq<Slot>): (m: map<nat, u32>)
    ensures forall va :: va in m <==> exists i :: 0 <= i < |slots| && Live(slots[i]) && slots[i].vmStart == va
    ensures DistinctStarts(slots) ==>
      forall i :: 0 <= i < |slots| && Live(slots[i]) ==> slots[i].vmStart in m && m[slots[i].vmStart] == slots[i].handle
    decreases slots
  {
    if slots == [] then map[]
    else
      var n := |slots| - 1;
      var m := Mapping(slots[..n]);
      assert slots[..n] + [slots[n]] == slots;
      if Live(slots[n]) then m[slots[n].vmStart := slots[n].handle] else m
  }

  /** The lookup's answer. */
  function Lookup(slots: seq<Slot>, va: nat): Option<u32>
    requires |slots| >= LOOKUP_LIMIT
  {
    ScanStaysAhead(slots, va, 0);
    match Scan(slots, va, 0)
    case Some(i) => Some(slots[i].handle)
    case None => None
  }

  /** With distinct addresses the lookup agrees with the mapping at an unmapped address always, and at a
      mapped one exactly when its slot lies below the limit and below the first hole. */
  lemma LookupAgreesExactly(slots: seq<Slot>, k: nat)
    requires |slots| >= LOOKUP_LIMIT && DistinctStarts(slots) && k < |slots| && Live(slots[k])
    ensures Lookup(slots, slots[k].vmStart) ==
      if k < 128 && k < FirstFree(slots) then Some(Mapping(slots)[slots[k].vmStart]) else None
  {
    hide Scan, Mapping, FirstFree;
    var va := slots[k].vmStart;
    ScanFindsExactly(slots, va, 0, k);
    ScanStaysAhead(slots, va, 0);
    if i: nat :| Scan(slots, va, 0) == Some(i) {
      ScanFindsExactly(slots, va, 0, i);
      assert i == k;
    }
  }

  /** Two stretches are mapped and the first is unmapped again. */
  function HoleRun(): seq<Op> {
    [Mmap(1, 4096, 4096, Some(Dma(0x10000, 0x30000)), true), Mmap(2, 8192, 4096, Some(Dma(0x20000, 0x40000)), true),
     Close(1)]
  }

  lemma MmapIntoSlot(s: State, vma: nat, vmStart: nat, size: nat, dma: Dma, i: nat)
    requires |s.ids| == |s.slots| && i < |s.slots| && !Live(s.slots[i]) && forall j :: 0 <= j < i ==> Live(s.slots[j])
    ensures
      var b := Granted(dma, size);
      MmapStep(s, vma, vmStart, size, Some(dma), true).state ==
        s.(slots := s.slots[i := Slot(vmStart, size, b.cpuAddr, b.handle, 1)], ids := s.ids[i := |s.allocs|],
           vmas := s.vmas[vma := i], allocs := s.allocs + [b], fate := s.fate + [InSlot(i)])
  {
  }

  lemma ExecOne(s: State, op: Op, rest: seq<Op>)
    requires Inv(s) && Enabled(s, op)
    ensures
      && Inv(Step(s, op))
      && (ValidRun(Step(s, op), rest) ==> ValidRun(s, [op] + rest) && Exec(s, [op] + rest) == Exec(Step(s, op), rest))
  {
    StepKeepsInv(s, op);
    hide Step, Inv;
    assert ([op] + rest)[1..] == rest;
  }

  /** The table after that run. */
  lemma HoleRunEnds()
    ensures ValidRun(Init(LOOKUP_LIMIT), HoleRun())
    ensures
      Exec(Init(LOOKUP_LIMIT), HoleRun()).slots ==
        Init(LOOKUP_LIMIT).slots[1 := Slot(8192, 4096, 0x20000, 0x40000, 1)]
  {
    hide FirstFree, Inv, Exec, ValidRun;
    var ops := HoleRun();
    var s0 := Init(LOOKUP_LIMIT);
    MmapIntoSlot(s0, 1, 4096, 4096, ops[0].dma.value, 0);
    ExecOne(s0, ops[0], [ops[1]] + ([ops[2]] + []));
    var s1 := Step(s0, ops[0]);
    MmapIntoSlot(s1, 2, 8192, 4096, ops[1].dma.value, 1);
    ExecOne(s1, ops[1], [ops[2]] + []);
    var s2 := Step(s1, ops[1]);
    ExecOne(s2, ops[2], []);
    assert [ops[0]] + ([ops[1]] + ([ops[2]] + [])) == ops;
    ExecNone(Step(s2, ops[2]));
    assert s2.slots == s0.slots[0 := Slot(4096, 4096, 0x10000, 0x30000, 1)][1 := Slot(8192, 4096, 0x20000, 0x40000, 1)];
  }

  lemma ExecNone(s: State)
    requires Inv(s)
    ensures ValidRun(s, []) && Exec(s, []) == s
  {
  }

  /** A hole does hide a mapping: after that run the second stretch is mapped and not found. */
  lemma HoleHidesMapping()
    ensures ValidRun(Init(LOOKUP_LIMIT), HoleRun())
    ensures
      var slots := Exec(Init(LOOKUP_LIMIT), HoleRun()).slots;
      DistinctStarts(slots) && 8192 in Mapping(slots) && Lookup(slots, 8192) == None
  {
    HoleRunEnds();
    hide Exec, ValidRun, HoleRun, Mapping;
    var slots := Exec(Init(LOOKUP_LIMIT), HoleRun()).slots;
    assert Live(slots[1]) && slots[1].vmStart == 8192 && slots[0] == ZERO;
  }

  lemma LookupOfUnmapped(slots: seq<Slot>, va: nat)
    requires |slots| >= LOOKUP_LIMIT && va !in Mapping(slots)
    ensures Lookup(slots, va) == None
  {
    ScanStaysAhead(slots, va, 0);
    if i: nat :| Scan(slots, va, 0) == Some(i) { ScanFindsExactly(slots, va, 0, i); }
  }

  /** With distinct addresses, what the lookup finds is the mapping's. */
  lemma FoundIsMapped(slots: seq<Slot>, va: nat)
    requires |slots| >= LOOKUP_LIMIT && DistinctStarts(slots) && Lookup(slots, va).Some?
    ensures va in Mapping(slots) && Lookup(slots, va) == Some(Mapping(slots)[va])
  {
    hide Mapping;
    ScanStaysAhead(slots, va, 0);
    ScanFindsExactly(slots, va, 0, Scan(slots, va, 0).value);
    hide Scan;
  }

  // ---------------------------------------------------------------- last in, first out

  /** A close that frees a block frees the most recent allocation still in the table. */
  predicate Lifo(s: State, op: Op)
    requires Inv(s) && Enabled(s, op)
  {
    op.Close? && Holders(s.vmas, s.vmas[op.vma]) == {op.vma} ==>
      forall j :: 0 <= j < |s.slots| && Live(s.slots[j]) ==> s.ids[j] <= s.ids[s.vmas[op.vma]]
  }

  predicate LifoRun(s: State, ops: seq<Op>)
    requires Inv(s) && ValidRun(s, ops)
    decreases ops
  {
    if ops == [] then true
    else Lifo(s, ops[0]) && (StepKeepsInv(s, ops[0]); LifoRun(Step(s, ops[0]), ops[1..]))
  }

  /** The live slots are the first ones, filled in the order of allocation. */
  predicate Stacked(s: State)
    requires SlotsOk(s)
  {
    && (forall i, j :: 0 <= i < j < |s.slots| && Live(s.slots[j]) ==> Live(s.slots[i]))
    && (forall i, j :: 0 <= i < j < |s.slots| && Live(s.slots[i]) && Live(s.slots[j]) ==> s.ids[i] < s.ids[j])
  }

  lemma MmapKeepsStacked(s: State, vma: nat, vmStart: nat, size: nat, dma: Option<Dma>, remapOk: bool)
    requires Inv(s) && Stacked(s) && vmStart != 0
    ensures var r := MmapStep(s, vma, vmStart, size, dma, remapOk).state; SlotsOk(r) ==> Stacked(r)
  {
    hide Apart, RefsOk, Holders;
  }

  lemma CloseKeepsStacked(s: State, vma: nat)
    requires Inv(s) && vma in s.vmas && Lifo(s, Close(vma)) && Stacked(s)
    ensures SlotsOk(CloseStep(s, vma)) ==> Stacked(CloseStep(s, vma))
  {
    FreedAtLastClose(s, vma);
    var i := s.vmas[vma];
    assert vma in Holders(s.vmas, i);
    hide Apart, FatesOk, Holders;
  }

  lemma LifoKeepsStacked(s: State, op: Op)
    requires Inv(s) && Enabled(s, op) && Lifo(s, op) && Stacked(s)
    ensures Inv(Step(s, op)) && Stacked(Step(s, op))
  {
    StepKeepsInv(s, op);
    match op
    case Mmap(vma, vmStart, size, dma, remapOk) => MmapKeepsStacked(s, vma, vmStart, size, dma, remapOk);
    case Open(_, source) =>
      assert Live(s.slots[s.vmas[source]]) by { assert source in Holders(s.vmas, s.vmas[source]); }
    case Close(vma) => CloseKeepsStacked(s, vma);
  }

  lemma {:induction false} LifoRunStacks(s: State, ops: seq<Op>)
    requires Inv(s) && ValidRun(s, ops) && LifoRun(s, ops) && Stacked(s)
    ensures Stacked(Exec(s, ops))
    decreases ops
  {
    if ops != [] {
      LifoKeepsStacked(s, ops[0]);
      LifoRunStacks(Step(s, ops[0]), ops[1..]);
    }
  }

  lemma StackedIsPrefix(s: State)
    requires SlotsOk(s) && Stacked(s)
    ensures forall i :: 0 <= i < |s.slots| ==> (Live(s.slots[i]) <==> i < FirstFree(s.slots))
  {
    hide FirstFree;
  }

  /** If every release is of the most recent mapping, the live slots always form a prefix, and the lookup
      is the mapping for every address in the first 128 slots. */
  lemma LifoLookup(n: nat, ops: seq<Op>, k: nat)
    requires n >= LOOKUP_LIMIT && ValidRun(Init(n), ops) && LifoRun(Init(n), ops) && k < LOOKUP_LIMIT
    ensures
      var slots := Exec(Init(n), ops).slots;
      && (forall i :: 0 <= i < |slots| ==> (Live(slots[i]) <==> i < FirstFree(slots)))
      && (DistinctStarts(slots) && Live(slots[k]) ==>
            Lookup(slots, slots[k].vmStart) == Some(Mapping(slots)[slots[k].vmStart]))
  {
    LifoRunStacks(Init(n), ops);
    var slots := Exec(Init(n), ops).slots;
    StackedIsPrefix(Exec(Init(n), ops));
    hide Exec, LifoRun, ValidRun, Mapping, Scan, Inv, Stacked, FirstFree;
    if DistinctStarts(slots) && Live(slots[k]) { LookupAgreesExactly(slots, k); }
  }

  // ---------------------------------------------------------------- the table object

  /** aclsoc->addr_map with the VMAs whose vm_private_data points into it. */
  class Table {
    const slots: array<Slot>
    var vmas: map<nat, nat>
    ghost var ids: seq<nat>
    ghost var allocs: seq<Block>
    ghost var fate: seq<Fate>
    ghost var freed: seq<Free>

    ghost function Model(): State
      reads this, slots
    {
      State(slots[..], ids, vmas, allocs, fate, freed)
    }

    constructor (n: nat)
      ensures Model() == Init(n) && fresh(slots)
    {
      slots := new Slot[n](_ => ZERO);
      vmas, ids, allocs, fate, freed := map[], seq(n, _ => 0), [], [], [];
      new;
      assert slots[..] == seq(n, _ => ZERO);
    }

    /** aclsoc_mmap. */
    method Mmap(vma: nat, vmStart: nat, size: nat, dma: Option<Dma>, remapOk: bool) returns (result: int)
      requires |ids| == slots.Length
      modifies this, slots
      ensures Reply(Model(), result) == MmapStep(old(Model()), vma, vmStart, size, dma, remapOk)
    {
      var iMapInfo := 0;
      while iMapInfo < slots.Length && slots[iMapInfo].vmStart != 0
        invariant iMapInfo <= slots.Length
        invariant forall j :: 0 <= j < iMapInfo ==> Live(slots[j])
      {
        iMapInfo := iMapInfo + 1;
      }
      assert iMapInfo == FirstFree(slots[..]);
      if iMapInfo == slots.Length { return -ENOMEM; }
      if dma.None? { return -ENOMEM; }
      var block := Granted(dma.value, size);
      ghost var id := |allocs|;
      allocs := allocs + [block];
      if !remapOk {
        fate := fate + [Dropped];
        return -EAGAIN;
      }
      fate := fate + [InSlot(iMapInfo)];
      slots[iMapInfo] := Slot(vmStart, size, block.cpuAddr, block.handle, 1);
      ids := ids[iMapInfo := id];
      vmas := vmas[vma := iMapInfo];
      return 0;
    }

    /** aclsoc_vma_open: the new VMA shares its source's slot. */
    method VmaOpen(vma: nat, source: nat)
      requires source in vmas && vmas[source] < slots.Length
      modifies this`vmas, slots
      ensures Model() == OpenStep(old(Model()), vma, source)
    {
      var i := vmas[source];
      slots[i] := slots[i].(ref := slots[i].ref + 1);
      vmas := vmas[vma := i];
    }

    /** free_map_info. */
    method FreeMapInfo(i: nat)
      requires |ids| == slots.Length && i < slots.Length && (Live(slots[i]) ==> ids[i] < |fate|)
      modifies this`fate, this`freed, slots
      ensures Model() == FreeSlot(old(Model()), i)
    {
      if slots[i].vmStart != 0 {
        fate := fate[ids[i] := Freed(|freed|)];
        freed := freed + [Free(ids[i], BlockOf(slots[i]))];
        slots[i] := ZERO;
      }
    }

    /** aclsoc_vma_close: drops a reference and, with the last one, the block. */
    method VmaClose(vma: nat)
      requires SlotsOk(Model()) && FatesOk(Model()) && vma in vmas
      modifies this`vmas, this`fate, this`freed, slots
      ensures Model() == CloseStep(old(Model()), vma)
    {
      var i := vmas[vma];
      slots[i] := slots[i].(ref := slots[i].ref - 1);
      vmas := vmas - {vma};
      if slots[i].ref == 0 { FreeMapInfo(i); }
    }

    /** free_contiguous_memory. */
    method FreeContiguousMemory()
      requires SlotsOk(Model()) && FatesOk(Model())
      modifies this`fate, this`freed, slots
      ensures Model() == Sweep(old(Model()), 0)
    {
      ghost var done := Sweep(Model(), 0);
      for iMapInfo := 0 to slots.Length
        invariant SlotsOk(Model()) && FatesOk(Model())
        invariant Sweep(Model(), iMapInfo) == done
      {
        FreeKeepsFates(Model(), iMapInfo);
        FreeMapInfo(iMapInfo);
      }
    }

    /** GET_PHYS_PTR_FROM_VIRT: `va` is what the address variable holds after a user copy that missed
        `notRead` bytes; `notWritten` is what the copy of a handle back would miss. The result is the last
        copy's, so a match hides a failure to read the address. */
    method GetPhysPtrFromVirt(va: nat, notRead: nat, notWritten: nat) returns (result: nat, handle: Option<u32>)
      requires slots.Length >= LOOKUP_LIMIT
      ensures handle == Lookup(slots[..], va)
      ensures result == if handle.Some? then notWritten else notRead
    {
      handle := FindHandle(slots[..], va);
      result := if handle.Some? then notWritten else notRead;
    }
  }

  /** The scan: it stops at a match, at a free slot and at the limit. */
  method FindHandle(slots: SlotTable, va: nat) returns (handle: Option<u32>)
    ensures handle == Lookup(slots, va)
  {
    for i := 0 to LOOKUP_LIMIT
      invariant Scan(slots, va, i) == Scan(slots, va, 0)
    {
      if slots[i].vmStart == 0 { return None; }
      if slots[i].vmStart == va { return Some(slots[i].handle); }
    }
    return None;
  }

  lemma FreeKeepsFates(s: State, i: nat)
    requires SlotsOk(s) && FatesOk(s) && i < |s.slots|
    ensures SlotsOk(FreeSlot(s, i)) && FatesOk(FreeSlot(s, i))
  {
  }
}
