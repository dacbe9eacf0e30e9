/**
 cl::detail::Wrapper of cl.hpp: C++ handles that share reference-counted OpenCL objects.
 Counts follow the retain and release calls of section 5.4.1 of the OpenCL 1.1
 specification: creation gives a count of one, and a count of zero ends the object.
 */
module Wrapper {
  import opened Common

  /** The OpenCL runtime: the count of every object ever created, how many retains and releases hit an object
      that was not alive, and how many retains were of NULL. */
  datatype Counts = Counts(count: map<nat, nat>, misuse: nat, nulls: nat)

  predicate Alive(r: Counts, o: nat) {
    o in r.count && r.count[o] > 0
  }

  function Retained(r: Counts, o: nat): Counts {
    if Alive(r, o) then r.(count := r.count[o := r.count[o] + 1]) else r.(misuse := r.misuse + 1)
  }

  function Released(r: Counts, o: nat): Counts {
    if Alive(r, o) then r.(count := r.count[o := r.count[o] - 1]) else r.(misuse := r.misuse + 1)
  }

  function RetainedNull(r: Counts): Counts {
    r.(nulls := r.nulls + 1)
  }

  function RetainedIfAny(r: Counts, x: Option<nat>): Counts {
    if x.Some? then Retained(r, x.value) else r
  }

  function ReleasedIfAny(r: Counts, x: Option<nat>): Counts {
    if x.Some? then Released(r, x.value) else r
  }

  /** How a query for an object ends; the object may be NULL. */
  datatype Query = Failed | Answered(obj: Option<nat>)

  /** The helper retains whatever a successful query answers, NULL included. */
  function RetainedAnswer(r: Counts, found: Query): Counts {
    match found
    case Failed => r
    case Answered(Some(o)) => Retained(r, o)
    case Answered(None) => RetainedNull(r)
  }

  // ---------------------------------------------------------------- the classes

  class Runtime {
    var counts: Counts

    constructor ()
      ensures counts == Counts(map[], 0, 0)
    {
      counts := Counts(map[], 0, 0);
    }

    /** A creation call. */
    method Create(o: nat)
      modifies this
      ensures counts == old(counts).(count := old(counts).count[o := 1])
    {
      counts := counts.(count := counts.count[o := 1]);
    }

    method Retain(o: nat)
      modifies this
      ensures counts == Retained(old(counts), o)
    {
      if Alive(counts, o) {
        counts := counts.(count := counts.count[o := counts.count[o] + 1]);
      } else {
        counts := counts.(misuse := counts.misuse + 1);
      }
    }

    /** A retain of NULL is an error that changes nothing. */
    method RetainNull()
      modifies this
      ensures counts == RetainedNull(old(counts))
    {
      counts := counts.(nulls := counts.nulls + 1);
    }

    method Release(o: nat)
      modifies this
      ensures counts == Released(old(counts), o)
    {
      if Alive(counts, o) {
        counts := counts.(count := counts.count[o := counts.count[o] - 1]);
      } else {
        counts := counts.(misuse := counts.misuse + 1);
      }
    }
  }

  /** A handle; `obj` is None for NULL. */
  class Handle {
    var obj: Option<nat>
    const runtime: Runtime

    /** Wrapper(), or a derived constructor storing what a creation call returned. */
    constructor (runtime: Runtime, obj: Option<nat>)
      ensures this.runtime == runtime && this.obj == obj
    {
      this.runtime := runtime;
      this.obj := obj;
    }

    /** The copy constructor. */
    constructor Copy(rhs: Handle)
      modifies rhs.runtime
      ensures runtime == rhs.runtime && obj == rhs.obj == old(rhs.obj)
      ensures runtime.counts == RetainedIfAny(old(rhs.runtime.counts), obj)
    {
      runtime := rhs.runtime;
      obj := rhs.obj;
      new;
      if obj.Some? { runtime.Retain(obj.value); }
    }

    /** The destructor's work. */
    method Destroy()
      modifies runtime
      ensures runtime.counts == ReleasedIfAny(old(runtime.counts), obj)
    {
      if obj.Some? { runtime.Release(obj.value); }
    }

    /** Wrapper::operator=, which releases before it retains. */
    method AssignUnguarded(rhs: Handle)
      requires rhs.runtime == runtime
      modifies this`obj, runtime
      ensures obj == old(rhs.obj)
      ensures runtime.counts == RetainedIfAny(ReleasedIfAny(old(runtime.counts), old(obj)), old(rhs.obj))
    {
      if obj.Some? { runtime.Release(obj.value); }
      obj := rhs.obj;
      if obj.Some? { runtime.Retain(obj.value); }
    }

    /** The operator= of every derived class, which spares an assignment to itself. */
    method Assign(rhs: Handle)
      requires rhs.runtime == runtime
      modifies this`obj, runtime
      ensures obj == old(rhs.obj)
      ensures runtime.counts ==
        if this == rhs then old(runtime.counts)
        else RetainedIfAny(ReleasedIfAny(old(runtime.counts), old(obj)), old(rhs.obj))
    {
      if this != rhs { AssignUnguarded(rhs); }
    }

    /** The get-info helper: a successful query overwrites the handle, then what it answered is retained. */
    method GetInfo(found: Query)
      modifies this`obj, runtime
      ensures obj == if found.Answered? then found.obj else old(obj)
      ensures runtime.counts == RetainedAnswer(old(runtime.counts), found)
    {
      match found
      case Failed =>
      case Answered(answer) =>
        obj := answer;
        if answer.Some? { runtime.Retain(answer.value); } else { runtime.RetainNull(); }
    }
  }

  // ---------------------------------------------------------------- runs over a heap of handles

  /** The runtime and every handle in existence. */
  datatype State = State(r: Counts, handles: map<nat, Option<nat>>)

  /** Operations on handles, and the application's own calls into the runtime. `Create` stores a new object;
      `Empty` is a default construction or a failed creation. */
  datatype Op =
    | Create(w: nat, o: nat)
    | Empty(w: nat)
    | Copy(w: nat, rhs: nat)
    | Assign(w: nat, rhs: nat)
    | Destroy(w: nat)
    | GetInfo(w: nat, found: Query)
    | ApiRetain(o: nat)
    | ApiRelease(o: nat)

  function Holders(s: State, o: nat): set<nat> {
    set w | w in s.handles && s.handles[w] == Some(o)
  }

  /** References to an object beyond those its handles stand for. */
  function Surplus(s: State, o: nat): int
    requires o in s.r.count
  {
    s.r.count[o] - |Holders(s, o)|
  }

  /** What C++ and the application guarantee: handles are constructed before use, a created object is new,
      a query finds a live object, and the application gives back only references it owns. */
  predicate Enabled(s: State, op: Op) {
    match op
    case Create(w, o) => w !in s.handles && o !in s.r.count
    case Empty(w) => w !in s.handles
    case Copy(w, rhs) => w !in s.handles && rhs in s.handles
    case Assign(w, rhs) => w in s.handles && rhs in s.handles
    case Destroy(w) => w in s.handles
    case GetInfo(w, found) => w in s.handles && (found.Answered? && found.obj.Some? ==> Alive(s.r, found.obj.value))
    case ApiRetain(o) => Alive(s.r, o)
    case ApiRelease(o) => o in s.r.count && Surplus(s, o) > 0
  }

  function Step(s: State, op: Op): State
    requires Enabled(s, op)
  {
    match op
    case Create(w, o) => State(s.r.(count := s.r.count[o := 1]), s.handles[w := Some(o)])
    case Empty(w) => State(s.r, s.handles[w := None])
    case Copy(w, rhs) => State(RetainedIfAny(s.r, s.handles[rhs]), s.handles[w := s.handles[rhs]])
    case Assign(w, rhs) =>
      if w == rhs then s
      else State(RetainedIfAny(ReleasedIfAny(s.r, s.handles[w]), s.handles[rhs]), s.handles[w := s.handles[rhs]])
    case Destroy(w) => State(ReleasedIfAny(s.r, s.handles[w]), s.handles - {w})
    case GetInfo(w, found) =>
      State(RetainedAnswer(s.r, found), if found.Answered? then s.handles[w := found.obj] else s.handles)
    case ApiRetain(o) => State(Retained(s.r, o), s.handles)
    case ApiRelease(o) => State(Released(s.r, o), s.handles)
  }

  /** Every handle's object exists and has a reference for each of its handles, and nothing dead was touched. */
  predicate Inv(s: State) {
    && (forall w <- s.handles :: s.handles[w].Some? ==> s.handles[w].value in s.r.count)
    && (forall o <- s.r.count :: Surplus(s, o) >= 0)
    && s.r.misuse == 0
  }

  /** How an operation changes an object's surplus: only the application's own calls do, and a query into a
      handle that was not empty, which forgets a reference. */
  function Delta(s: State, op: Op, o: nat): int {
    match op
    case ApiRetain(x) => if x == o then 1 else 0
    case ApiRelease(x) => if x == o then -1 else 0
    case GetInfo(w, found) => if found.Answered? && w in s.handles && s.handles[w] == Some(o) then 1 else 0
    case _ => 0
  }

  /** A program's handles, by name, over one runtime. */
  class Program {
    const runtime: Runtime
    var handles: map<nat, Handle>

    ghost predicate Valid()
      reads this, handles.Values
    {
      && (forall w <- handles :: handles[w].runtime == runtime)
      && forall v, w :: v in handles && w in handles && v != w ==> handles[v] != handles[w]
    }

    ghost function Model(): State
      reads this, runtime, handles.Values
    {
      State(runtime.counts, map w | w in handles :: handles[w].obj)
    }

    constructor ()
      ensures Valid() && Model() == START
    {
      runtime := new Runtime();
      handles := map[];
    }

    method Adopt(w: nat, o: nat)
      requires Valid() && w !in handles && o !in runtime.counts.count
      modifies this`handles, runtime
      ensures Valid() && Model() == Step(old(Model()), Op.Create(w, o))
      ensures fresh(handles.Values - old(handles.Values))
    {
      var h := new Handle(runtime, Some(o));
      handles := handles[w := h];
      assert Model().handles == old(Model()).handles[w := Some(o)];
      runtime.Create(o);
    }

    method AdoptNothing(w: nat)
      requires Valid() && w !in handles
      modifies this`handles
      ensures Valid() && Model() == Step(old(Model()), Op.Empty(w))
      ensures fresh(handles.Values - old(handles.Values))
    {
      var h := new Handle(runtime, None);
      handles := handles[w := h];
    }

    method Duplicate(w: nat, rhs: nat)
      requires Valid() && w !in handles && rhs in handles
      modifies this`handles, runtime
      ensures Valid() && Model() == Step(old(Model()), Op.Copy(w, rhs))
      ensures fresh(handles.Values - old(handles.Values))
    {
      var h := new Handle.Copy(handles[rhs]);
      handles := handles[w := h];
    }

    method AssignTo(w: nat, rhs: nat)
      requires Valid() && w in handles && rhs in handles
      modifies handles[w], runtime
      ensures Valid() && Model() == Step(old(Model()), Op.Assign(w, rhs))
      ensures handles.Values <= old(handles.Values)
    {
      handles[w].Assign(handles[rhs]);
    }

    method Drop(w: nat)
      requires Valid() && w in handles
      modifies this`handles, runtime
      ensures Valid() && Model() == Step(old(Model()), Op.Destroy(w))
      ensures handles.Values <= old(handles.Values)
    {
      handles[w].Destroy();
      handles := handles - {w};
    }

    method Ask(w: nat, found: Query)
      requires Valid() && Enabled(Model(), Op.GetInfo(w, found))
      modifies handles[w], runtime
      ensures Valid() && Model() == Step(old(Model()), Op.GetInfo(w, found))
      ensures handles.Values <= old(handles.Values)
    {
      handles[w].GetInfo(found);
    }

    /** Every operation on real handles is the corresponding step of the state machine. */
    method Perform(op: Op)
      requires Valid() && Enabled(Model(), op)
      modifies this`handles, runtime, handles.Values
      ensures Valid() && Model() == Step(old(Model()), op)
      ensures fresh(handles.Values - old(handles.Values))
    {
      match op
      case Create(w, o) => Adopt(w, o);
      case Empty(w) => AdoptNothing(w);
      case Copy(w, rhs) => Duplicate(w, rhs);
      case Assign(w, rhs) => AssignTo(w, rhs);
      case Destroy(w) => Drop(w);
      case GetInfo(w, found) => Ask(w, found);
      case ApiRetain(o) => runtime.Retain(o);
      case ApiRelease(o) => runtime.Release(o);
    }
  }

  // The handles after one of them is pointed elsewhere, added or removed.

  lemma HoldersAfterSet(s: State, s': State, w: nat, x: Option<nat>, o: nat)
    requires s'.handles == s.handles[w := x]
    ensures Holders(s', o) == (if x == Some(o) then Holders(s, o) + {w} else Holders(s, o) - {w})
    ensures |Holders(s', o)| == |Holders(s, o)|
      - (if w in s.handles && s.handles[w] == Some(o) then 1 else 0) + (if x == Some(o) then 1 else 0)
  {
    assert Holders(s', o) == if x == Some(o) then Holders(s, o) + {w} else Holders(s, o) - {w};
    assert w in Holders(s, o) <==> w in s.handles && s.handles[w] == Some(o);
  }

  lemma HoldersAfterRemove(s: State, s': State, w: nat, o: nat)
    requires w in s.handles && s'.handles == s.handles - {w}
    ensures Holders(s', o) == Holders(s, o) - {w}
    ensures |Holders(s', o)| == |Holders(s, o)| - if s.handles[w] == Some(o) then 1 else 0
  {
    assert Holders(s', o) == Holders(s, o) - {w};
    assert w in Holders(s, o) <==> s.handles[w] == Some(o);
  }

  lemma HeldIsAlive(s: State, w: nat)
    requires Inv(s) && w in s.handles && s.handles[w].Some?
    ensures Alive(s.r, s.handles[w].value)
  {
    var o := s.handles[w].value;
    assert w in Holders(s, o);
    assert Surplus(s, o) >= 0;
  }

  /** The new handle map, as one assignment or removal. */
  lemma StepHolders(s: State, op: Op, o: nat)
    requires Enabled(s, op)
    ensures
      |Holders(Step(s, op), o)| == |Holders(s, o)| +
        match op
        case Create(_, x) => if x == o then 1 else 0
        case Copy(_, rhs) => if s.handles[rhs] == Some(o) then 1 else 0
        case Assign(w, rhs) => (if s.handles[rhs] == Some(o) then 1 else 0) - (if s.handles[w] == Some(o) then 1 else 0)
        case Destroy(w) => if s.handles[w] == Some(o) then -1 else 0
        case GetInfo(w, found) =>
          if found.Failed? then 0
          else (if found.obj == Some(o) then 1 else 0) - (if s.handles[w] == Some(o) then 1 else 0)
        case _ => 0
  {
    var s' := Step(s, op);
    match op
    case Create(w, x) => HoldersAfterSet(s, s', w, Some(x), o);
    case Empty(w) => HoldersAfterSet(s, s', w, None, o);
    case Copy(w, rhs) => HoldersAfterSet(s, s', w, s.handles[rhs], o);
    case Assign(w, rhs) => if w != rhs { HoldersAfterSet(s, s', w, s.handles[rhs], o); }
    case Destroy(w) => HoldersAfterRemove(s, s', w, o);
    case GetInfo(w, found) => if found.Answered? { HoldersAfterSet(s, s', w, found.obj, o); }
    case _ =>
  }

  /** What each operation does to the handles: the one it names holds what it is given, the right-hand object, the
      query's answer, or is gone; every other handle is as it was. A new object starts with one reference. */
  lemma HandlesMeaning(s: State, op: Op, v: nat)
    requires Enabled(s, op)
    ensures
      var after := Step(s, op).handles;
      if op.ApiRetain? || op.ApiRelease? then after == s.handles
      else if v != op.w then (v in after <==> v in s.handles) && (v in after ==> after[v] == s.handles[v])
      else
        match op
        case Create(_, o) =>
          v in after && after[v] == Some(o) && o in Step(s, op).r.count && Step(s, op).r.count[o] == 1
        case Empty(_) => v in after && after[v] == None
        case Copy(_, rhs) => v in after && after[v] == s.handles[rhs]
        case Assign(_, rhs) => v in after && after[v] == s.handles[rhs]
        case Destroy(_) => v !in after
        case GetInfo(_, Answered(x)) => v in after && after[v] == x
        case GetInfo(_, Failed) => v in after && after[v] == s.handles[v] && Step(s, op) == s
  {
  }

  /** Every retain and release of a live object moves its count by one, and no other count. */
  lemma CountsMeaning(r: Counts, o: nat)
    requires Alive(r, o)
    ensures Retained(r, o).count.Keys == r.count.Keys == Released(r, o).count.Keys
    ensures forall x <- r.count ::
      && Retained(r, o).count[x] == r.count[x] + (if x == o then 1 else 0)
      && Released(r, o).count[x] == r.count[x] - (if x == o then 1 else 0)
  {
  }

  /** An assignment releases before it retains and still never touches a dead object: if both handles hold
      the same object there are two of them. */
  lemma AssignKeepsAlive(s: State, w: nat, rhs: nat)
    requires Inv(s) && w in s.handles && rhs in s.handles && w != rhs && s.handles[rhs].Some?
    ensures Alive(ReleasedIfAny(s.r, s.handles[w]), s.handles[rhs].value)
  {
    var o := s.handles[rhs].value;
    HeldIsAlive(s, rhs);
    if s.handles[w] == Some(o) {
      assert {w, rhs} <= Holders(s, o);
      assert Surplus(s, o) >= 0;
      CardinalityOfPair(w, rhs, Holders(s, o));
    }
  }

  lemma CardinalityOfPair(a: nat, b: nat, s: set<nat>)
    requires a != b && a in s && b in s
    ensures |s| >= 2
  {
    assert |s - {a}| == |s| - 1;
    assert b in s - {a};
  }

  /** No operation retains or releases a dead object. */
  lemma StepTouchesNothingDead(s: State, op: Op)
    requires Inv(s) && Enabled(s, op)
    ensures Step(s, op).r.misuse == 0
    ensures s.r.count.Keys <= Step(s, op).r.count.Keys
    ensures op.Assign? && s.handles[op.w].Some? ==> Alive(s.r, s.handles[op.w].value)
  {
    match op
    case Copy(_, rhs) => if s.handles[rhs].Some? { HeldIsAlive(s, rhs); }
    case Assign(w, rhs) =>
      if s.handles[w].Some? { HeldIsAlive(s, w); }
      if w != rhs && s.handles[rhs].Some? { AssignKeepsAlive(s, w, rhs); }
    case Destroy(w) => if s.handles[w].Some? { HeldIsAlive(s, w); }
    case ApiRelease(o) => assert Surplus(s, o) > 0;
    case _ =>
  }

  /** Count conservation for one object and one step. */
  lemma StepSurplus(s: State, op: Op, o: nat)
    requires Inv(s) && Enabled(s, op) && o in s.r.count
    ensures o in Step(s, op).r.count && Surplus(Step(s, op), o) == Surplus(s, o) + Delta(s, op, o)
  {
    StepTouchesNothingDead(s, op);
    StepHolders(s, op, o);
    hide Holders;
    match op
    case Copy(_, rhs) => if s.handles[rhs].Some? { HeldIsAlive(s, rhs); }
    case Assign(w, rhs) =>
      if w != rhs && s.handles[rhs].Some? { AssignKeepsAlive(s, w, rhs); }
    case Destroy(w) => if s.handles[w].Some? { HeldIsAlive(s, w); }
    case ApiRelease(x) => assert Surplus(s, x) > 0;
    case _ =>
  }

  lemma StepKeepsInv(s: State, op: Op)
    requires Inv(s) && Enabled(s, op)
    ensures Inv(Step(s, op))
    ensures op.Create? ==> Surplus(Step(s, op), op.o) == 0
  {
    var s' := Step(s, op);
    StepTouchesNothingDead(s, op);
    if op.Create? {
      StepHolders(s, op, op.o);
      assert Holders(s, op.o) == {};
    }
    forall o | o in s'.r.count ensures Surplus(s', o) >= 0 {
      if o in s.r.count { StepSurplus(s, op, o); }
    }
  }

  predicate ValidRun(s: State, ops: seq<Op>)
    requires Inv(s)
    decreases ops
  {
    if ops == [] then true else Enabled(s, ops[0]) && (StepKeepsInv(s, ops[0]); ValidRun(Step(s, ops[0]), ops[1..]))
  }

  function Run(s: State, ops: seq<Op>): (r: State)
    requires Inv(s) && ValidRun(s, ops)
    ensures Inv(r)
    decreases ops
  {
    if ops == [] then s
    else
      StepKeepsInv(s, ops[0]);
      Run(Step(s, ops[0]), ops[1..])
  }

  function Deltas(s: State, ops: seq<Op>, o: nat): int
    requires Inv(s) && ValidRun(s, ops)
    decreases ops
  {
    if ops == [] then 0
    else
      StepKeepsInv(s, ops[0]);
      Delta(s, ops[0], o) + Deltas(Step(s, ops[0]), ops[1..], o)
  }

  /** Count conservation over every run: an object's count minus the number of handles holding it moves only
      with the application's own calls and with queries into occupied handles. */
  lemma {:induction false} CountConservation(s: State, ops: seq<Op>, o: nat)
    requires Inv(s) && ValidRun(s, ops) && o in s.r.count
    ensures o in Run(s, ops).r.count && Surplus(Run(s, ops), o) == Surplus(s, o) + Deltas(s, ops, o)
    decreases ops
  {
    if ops != [] {
      StepKeepsInv(s, ops[0]);
      StepSurplus(s, ops[0], o);
      CountConservation(Step(s, ops[0]), ops[1..], o);
    }
  }

  predicate AnswersNull(op: Op) {
    op.GetInfo? && op.found == Answered(None)
  }

  /** How many queries of a run succeed with NULL. */
  function NullAnswers(ops: seq<Op>): nat {
    if ops == [] then 0 else NullAnswers(ops[1..]) + if AnswersNull(ops[0]) then 1 else 0
  }

  lemma {:induction false} NullsCounted(s: State, ops: seq<Op>)
    requires Inv(s) && ValidRun(s, ops)
    ensures Run(s, ops).r.nulls == s.r.nulls + NullAnswers(ops)
    decreases ops
  {
    if ops != [] {
      StepKeepsInv(s, ops[0]);
      NullsCounted(Step(s, ops[0]), ops[1..]);
    }
  }

  const START := State(Counts(map[], 0, 0), map[])

  /** Over every run from nothing: no retain or release ever hits a dead object, NULL is retained once for each
      query that answers it and never otherwise, every held object is alive, and an object without surplus is
      alive exactly while some handle holds it. */
  lemma RunsAreSafe(ops: seq<Op>, o: nat)
    requires ValidRun(START, ops) && o in Run(START, ops).r.count
    ensures
      var s := Run(START, ops);
      && s.r.misuse == 0 && s.r.nulls == NullAnswers(ops)
      && (Holders(s, o) != {} ==> Alive(s.r, o))
      && (Surplus(s, o) == 0 ==> (Alive(s.r, o) <==> Holders(s, o) != {}))
  {
    NullsCounted(START, ops);
    var s := Run(START, ops);
    if w :| w in Holders(s, o) { HeldIsAlive(s, w); }
  }

  /** The run makes no calls into the runtime besides its handles' own, and queries only into empty handles. */
  predicate HandlesOnly(s: State, ops: seq<Op>)
    requires Inv(s) && ValidRun(s, ops)
    decreases ops
  {
    if ops == [] then true
    else
      StepKeepsInv(s, ops[0]);
      && (match ops[0]
          case ApiRetain(_) => false
          case ApiRelease(_) => false
          case GetInfo(w, found) => found.Failed? || s.handles[w].None?
          case _ => true)
      && HandlesOnly(Step(s, ops[0]), ops[1..])
  }

  predicate Balanced(s: State) {
    forall o <- s.r.count :: Surplus(s, o) == 0
  }

  lemma {:induction false} HandlesStayBalanced(s: State, ops: seq<Op>)
    requires Inv(s) && ValidRun(s, ops) && HandlesOnly(s, ops) && Balanced(s)
    ensures Balanced(Run(s, ops))
    decreases ops
  {
    if ops != [] {
      var s' := Step(s, ops[0]);
      StepKeepsInv(s, ops[0]);
      forall o | o in s'.r.count ensures Surplus(s', o) == 0 {
        if o in s.r.count { StepSurplus(s, ops[0], o); }
      }
      HandlesStayBalanced(s', ops[1..]);
    }
  }

  /** A program that leaves reference counts to its handles neither leaks nor loses an object: at every
      point exactly the held objects are alive, and once every handle is gone nothing is. */
  lemma HandlesNeverLeak(ops: seq<Op>, o: nat)
    requires ValidRun(START, ops) && HandlesOnly(START, ops) && o in Run(START, ops).r.count
    ensures
      var s := Run(START, ops);
      && (Alive(s.r, o) <==> Holders(s, o) != {})
      && (s.handles == map[] ==> !Alive(s.r, o))
  {
    HandlesStayBalanced(START, ops);
    RunsAreSafe(ops, o);
  }

  /** An object without surplus dies in exactly the step that drops its last handle. */
  lemma DiesWithLastHandle(s: State, op: Op, o: nat)
    requires Inv(s) && Enabled(s, op) && Alive(s.r, o) && Surplus(s, o) == 0 && Delta(s, op, o) == 0
    ensures !Alive(Step(s, op).r, o) <==> Holders(Step(s, op), o) == {}
  {
    StepKeepsInv(s, op);
    StepSurplus(s, op, o);
  }

  /** The guard of the derived operator= is what makes this so: unguarded, assigning a handle to itself
      touches a dead object exactly when its reference is the only one. */
  lemma SelfAssignmentNeedsGuard(s: State, w: nat)
    requires Inv(s) && w in s.handles
    ensures
      var x := s.handles[w];
      RetainedIfAny(ReleasedIfAny(s.r, x), x).misuse > 0 <==> x.Some? && s.r.count[x.value] == 1
  {
    if s.handles[w].Some? { HeldIsAlive(s, w); }
  }
}
