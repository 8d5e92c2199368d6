/**
 * The one-operation-at-a-time lease of a device, its shared operation state and
 * its reference count, as atomic steps of any number of interleaved threads.
 */
module DeviceLease {
  import opened Common

  type Thread = nat
  type Operation = nat
  type Reference = nat

  /** Where a thread stands inside an acquire or release call. */
  datatype Phase =
    | Idle
    | HasState              // copied the device's pointer to the operation state
    | Won(op: Operation)    // the compare-exchange succeeded; the lease does not exist yet
    | Unwinding             // its copy of the pointer is still to be destroyed
    | Deleting              // its fetch_sub returned one; the delete is still to come

  datatype LeaseStatus =
    | Live(owners: nat)     // shared pointers to the lease
    | Dying                 // the last pointer went; the destructor has not stored yet
    | Stored                // busy is cleared; the lease's own state pointer is still to go

  datatype Event = Acquired(op: Operation) | Released(op: Operation)

  datatype Owner = DeviceOwner | ThreadOwner(thread: Thread) | LeaseOwner(op: Operation)

  datatype State = State(
    busy: bool,
    threads: map<Thread, Phase>,          // an absent thread is idle
    leases: map<Operation, LeaseStatus>,
    nextOp: Operation,
    log: seq<Event>,
    stateOwners: set<Owner>,              // who holds a pointer to the operation state
    stateCount: nat,                      // the pointer's use count
    stateFreed: bool,
    references: set<Reference>,           // references to the device that callers still hold
    referenceCount: nat,
    deleted: bool,
    deletions: nat)

  function At(s: State, t: Thread): Phase {
    if t in s.threads then s.threads[t] else Idle
  }

  function Initial(): State {
    State(false, map[], map[], 0, [], {DeviceOwner}, 1, false, {0}, 1, false, 0)
  }

  datatype Step =
    | CopyState(thread: Thread, reference: Reference)
    | CompareExchange(thread: Thread)
    | MakeLease(thread: Thread)
    | AllocationFails(thread: Thread)
    | DropState(thread: Thread)
    | CopyLease(op: Operation)
    | DropLease(op: Operation)
    | StoreFalse(op: Operation)
    | DropLeaseState(op: Operation)
    | Retain(reference: Reference, fresh': Reference)
    | Release(thread: Thread, reference: Reference)
    | Delete(thread: Thread)
    | ReadDevice(reference: Reference)    // a call reads the device's context or identifier

  /** A caller may only name a device through a reference it still holds; threads run their own code in order. */
  predicate Enabled(s: State, step: Step) {
    match step
    case CopyState(t, r) => At(s, t) == Idle && r in s.references
    case CompareExchange(t) => At(s, t) == HasState
    case MakeLease(t) => At(s, t).Won?
    case AllocationFails(t) => At(s, t).Won?
    case DropState(t) => At(s, t) == Unwinding
    case CopyLease(op) => op in s.leases && s.leases[op].Live?
    case DropLease(op) => op in s.leases && s.leases[op].Live? && s.leases[op].owners > 0
    case StoreFalse(op) => op in s.leases && s.leases[op] == Dying
    case DropLeaseState(op) => op in s.leases && s.leases[op] == Stored
    case Retain(r, r') => r in s.references && r' !in s.references
    case Release(t, r) => At(s, t) == Idle && r in s.references
    case Delete(t) => At(s, t) == Deleting
    case ReadDevice(r) => r in s.references
  }

  function AddOwner(s: State, o: Owner): State {
    s.(stateOwners := s.stateOwners + {o}, stateCount := s.stateCount + 1)
  }

  /** Dropping the pointer whose use count is one frees the operation state. */
  function DropOwner(s: State, o: Owner): State {
    if s.stateCount <= 1 then s.(stateOwners := s.stateOwners - {o}, stateCount := 0, stateFreed := true)
    else s.(stateOwners := s.stateOwners - {o}, stateCount := s.stateCount - 1)
  }

  function Move(s: State, t: Thread, p: Phase): State {
    s.(threads := s.threads[t := p])
  }

  function SetLease(s: State, op: Operation, status: LeaseStatus): State {
    s.(leases := s.leases[op := status])
  }

  function Clear(s: State, op: Operation): State {
    s.(busy := false, log := s.log + [Released(op)])
  }

  function Apply(s: State, step: Step): State
    requires Enabled(s, step)
  {
    match step
    case CopyState(t, _) => AddOwner(Move(s, t, HasState), ThreadOwner(t))
    case CompareExchange(t) =>
      if s.busy then Move(s, t, Unwinding)
      else Move(s, t, Won(s.nextOp)).(busy := true, log := s.log + [Acquired(s.nextOp)], nextOp := s.nextOp + 1)
    case MakeLease(t) =>
      var op := At(s, t).op;
      AddOwner(SetLease(Move(s, t, Unwinding), op, Live(1)), LeaseOwner(op))
    case AllocationFails(t) => Clear(Move(s, t, Unwinding), At(s, t).op)
    case DropState(t) => DropOwner(Move(s, t, Idle), ThreadOwner(t))
    case CopyLease(op) => SetLease(s, op, Live(s.leases[op].owners + 1))
    case DropLease(op) =>
      SetLease(s, op, if s.leases[op].owners == 1 then Dying else Live(s.leases[op].owners - 1))
    case StoreFalse(op) => Clear(SetLease(s, op, Stored), op)
    case DropLeaseState(op) => DropOwner(s.(leases := s.leases - {op}), LeaseOwner(op))
    case Retain(_, r') => s.(references := s.references + {r'}, referenceCount := s.referenceCount + 1)
    case Release(t, r) =>
      var last := s.referenceCount == 1;
      var s' := s.(references := s.references - {r},
                   referenceCount := if s.referenceCount == 0 then 0 else s.referenceCount - 1);
      if last then Move(s', t, Deleting) else s'
    case Delete(t) => DropOwner(Move(s, t, Idle).(deleted := true, deletions := s.deletions + 1), DeviceOwner)
    case ReadDevice(_) => s
  }

  /** A run from the freshly opened device. */
  predicate IsRun(states: seq<State>, steps: seq<Step>) {
    && |states| == |steps| + 1
    && states[0] == Initial()
    && forall i :: 0 <= i < |steps| ==> Enabled(states[i], steps[i]) && states[i + 1] == Apply(states[i], steps[i])
  }

  // ----- The invariant

  datatype Holder = Acquirer(thread: Thread) | LeaseHolder(op: Operation)

  /** An acquirer between the exchange and the lease, or a lease whose destructor has not stored yet. */
  predicate Holds(s: State, h: Holder) {
    match h
    case Acquirer(t) => At(s, t).Won?
    case LeaseHolder(op) => op in s.leases && !s.leases[op].Stored?
  }

  function HeldOperation(s: State, h: Holder): Operation
    requires Holds(s, h)
  {
    match h
    case Acquirer(t) => At(s, t).op
    case LeaseHolder(op) => op
  }

  /** busy is set exactly while there is a holder, there is never a second one, and it runs the newest operation. */
  ghost predicate OneHolder(s: State) {
    && (s.busy <==> exists h :: Holds(s, h))
    && (forall h, h' :: Holds(s, h) && Holds(s, h') ==> h == h')
    && (forall h :: Holds(s, h) ==> HeldOperation(s, h) + 1 == s.nextOp)
  }

  predicate LeasesWellFormed(s: State) {
    && (forall op :: op in s.leases ==> op < s.nextOp)
    && (forall op :: op in s.leases ==> s.leases[op].Live? ==> s.leases[op].owners > 0)
    && (forall t :: t in s.threads && s.threads[t].Won? ==> s.threads[t].op !in s.leases)
  }

  /** Operations are numbered as they start, and each is released before the next one is acquired. */
  predicate Sequential(log: seq<Event>) {
    forall i :: 0 <= i < |log| ==> log[i] == (if i % 2 == 0 then Acquired(i / 2) else Released(i / 2))
  }

  predicate LogMatches(s: State) {
    && Sequential(s.log)
    && |s.log| == 2 * s.nextOp - (if s.busy then 1 else 0)
  }

  predicate Owns(s: State, o: Owner) {
    match o
    case DeviceOwner => !s.deleted
    case ThreadOwner(t) => At(s, t).HasState? || At(s, t).Won? || At(s, t).Unwinding?
    case LeaseOwner(op) => op in s.leases
  }

  /** The use count counts the owners, and the state is freed exactly when the last one is gone. */
  ghost predicate StateCounted(s: State) {
    && (forall o :: o in s.stateOwners <==> Owns(s, o))
    && s.stateCount == |s.stateOwners|
    && (s.stateFreed <==> s.stateOwners == {})
  }

  /** Once the last reference is gone exactly one thread has the delete to do or has done it. */
  ghost predicate DeviceCounted(s: State) {
    && s.referenceCount == |s.references|
    && s.deletions == (if s.deleted then 1 else 0)
    && (s.references == {} <==> s.deleted || exists t :: At(s, t) == Deleting)
    && (forall t, t' :: At(s, t) == Deleting && At(s, t') == Deleting ==> t == t')
    && (s.deleted ==> forall t :: At(s, t) != Deleting)
  }

  ghost predicate Inv(s: State) {
    OneHolder(s) && LeasesWellFormed(s) && LogMatches(s) && StateCounted(s) && DeviceCounted(s)
  }

  // ----- Every step keeps it

  lemma SameHolders(s: State, s': State)
    requires OneHolder(s) && s'.busy == s.busy && s'.nextOp == s.nextOp
    requires forall h :: Holds(s', h) <==> Holds(s, h)
    requires forall h :: Holds(s, h) ==> HeldOperation(s', h) == HeldOperation(s, h)
    ensures OneHolder(s')
  {
  }

  lemma NewHolder(s: State, h: Holder)
    requires s.busy && Holds(s, h) && HeldOperation(s, h) + 1 == s.nextOp
    requires forall h' :: Holds(s, h') ==> h' == h
    ensures OneHolder(s)
  {
  }

  lemma ExchangeHolder(s: State, t: Thread)
    requires OneHolder(s) && Enabled(s, CompareExchange(t))
    ensures OneHolder(Apply(s, CompareExchange(t)))
  {
    var s' := Apply(s, CompareExchange(t));
    if s.busy {
      SameHolders(s, s');
    } else {
      forall h | Holds(s', h) ensures h == Acquirer(t) {
        assert Holds(s, h) || h == Acquirer(t);
      }
      NewHolder(s', Acquirer(t));
    }
  }

  lemma LeaseTakesOver(s: State, t: Thread)
    requires OneHolder(s) && Enabled(s, MakeLease(t))
    ensures OneHolder(Apply(s, MakeLease(t)))
  {
    var s' := Apply(s, MakeLease(t));
    var op := At(s, t).op;
    assert Holds(s, Acquirer(t));
    forall h | Holds(s', h) ensures h == LeaseHolder(op) {
      assert !Holds(s', Acquirer(t));
      assert Holds(s, h) || h == LeaseHolder(op);
    }
    NewHolder(s', LeaseHolder(op));
  }

  lemma HolderLeaves(s: State, s': State, h: Holder)
    requires OneHolder(s) && Holds(s, h)
    requires !s'.busy && !Holds(s', h) && forall h' :: Holds(s', h') ==> Holds(s, h')
    ensures OneHolder(s')
  {
  }

  /** A thread that enters or leaves a call without touching busy is no holder before or after. */
  lemma ThreadMoves(s: State, s': State, t: Thread)
    requires OneHolder(s) && s'.busy == s.busy && s'.nextOp == s.nextOp && s'.leases == s.leases
    requires !At(s, t).Won? && !At(s', t).Won? && forall t' :: t' != t ==> At(s', t') == At(s, t')
    ensures OneHolder(s')
  {
    forall h ensures Holds(s', h) <==> Holds(s, h) {
      if h.Acquirer? && h.thread == t { assert !Holds(s, h); }
    }
    SameHolders(s, s');
  }

  lemma LeaseCounted(s: State, s': State)
    requires OneHolder(s) && s'.busy == s.busy && s'.nextOp == s.nextOp && s'.threads == s.threads
    requires forall op :: (op in s'.leases && !s'.leases[op].Stored?) <==> (op in s.leases && !s.leases[op].Stored?)
    ensures OneHolder(s')
  {
    SameHolders(s, s');
  }

  lemma PointerStepKeepsHolder(s: State, step: Step)
    requires OneHolder(s) && Enabled(s, step) && (step.CopyState? || step.DropState?)
    ensures OneHolder(Apply(s, step))
  {
    ThreadMoves(s, Apply(s, step), step.thread);
  }

  lemma DeviceStepKeepsHolder(s: State, step: Step)
    requires OneHolder(s) && Enabled(s, step) && (step.Release? || step.Delete? || step.Retain? || step.ReadDevice?)
    ensures OneHolder(Apply(s, step))
  {
    if step.Release? || step.Delete? {
      ThreadMoves(s, Apply(s, step), step.thread);
    } else {
      LeaseCounted(s, Apply(s, step));
    }
  }

  lemma CountStepKeepsHolder(s: State, step: Step)
    requires OneHolder(s) && Enabled(s, step) && (step.CopyLease? || step.DropLease? || step.DropLeaseState?)
    ensures OneHolder(Apply(s, step))
  {
    LeaseCounted(s, Apply(s, step));
  }

  lemma HolderStep(s: State, step: Step)
    requires OneHolder(s) && Enabled(s, step)
    ensures OneHolder(Apply(s, step))
  {
    if step.CompareExchange? {
      ExchangeHolder(s, step.thread);
    } else if step.MakeLease? {
      LeaseTakesOver(s, step.thread);
    } else if step.AllocationFails? {
      HolderLeaves(s, Apply(s, step), Acquirer(step.thread));
    } else if step.StoreFalse? {
      HolderLeaves(s, Apply(s, step), LeaseHolder(step.op));
    } else if step.CopyState? || step.DropState? {
      PointerStepKeepsHolder(s, step);
    } else if step.CopyLease? || step.DropLease? || step.DropLeaseState? {
      CountStepKeepsHolder(s, step);
    } else {
      DeviceStepKeepsHolder(s, step);
    }
  }

  lemma MakeLeaseStep(s: State, t: Thread)
    requires OneHolder(s) && LeasesWellFormed(s) && Enabled(s, MakeLease(t))
    ensures LeasesWellFormed(Apply(s, MakeLease(t)))
  {
    assert Holds(s, Acquirer(t));
    forall t' | t' in s.threads && s.threads[t'].Won? ensures t' == t {
      assert Holds(s, Acquirer(t'));
    }
  }

  lemma SameLeases(s: State, s': State)
    requires LeasesWellFormed(s) && s'.leases == s.leases && s'.nextOp >= s.nextOp
    requires forall t :: t in s'.threads && s'.threads[t].Won? ==>
                           s'.threads[t].op == s.nextOp || (t in s.threads && s.threads[t] == s'.threads[t])
    ensures LeasesWellFormed(s')
  {
  }

  lemma LeaseUpdated(s: State, op: Operation, status: Option<LeaseStatus>, s': State)
    requires LeasesWellFormed(s) && op in s.leases && s'.threads == s.threads && s'.nextOp == s.nextOp
    requires s'.leases == if status.None? then s.leases - {op} else s.leases[op := status.value]
    requires status.Some? && status.value.Live? ==> status.value.owners > 0
    ensures LeasesWellFormed(s')
  {
  }

  lemma CountStepKeepsLeases(s: State, step: Step)
    requires LeasesWellFormed(s) && Enabled(s, step)
    requires step.CopyLease? || step.DropLease? || step.StoreFalse? || step.DropLeaseState?
    ensures LeasesWellFormed(Apply(s, step))
  {
    var s' := Apply(s, step);
    LeaseUpdated(s, step.op, if step.DropLeaseState? then None else Some(s'.leases[step.op]), s');
  }

  lemma CallStepKeepsLeases(s: State, step: Step)
    requires LeasesWellFormed(s) && Enabled(s, step)
    requires step.CopyState? || step.CompareExchange? || step.AllocationFails? || step.DropState?
    ensures LeasesWellFormed(Apply(s, step))
  {
    SameLeases(s, Apply(s, step));
  }

  lemma DeviceStepKeepsLeases(s: State, step: Step)
    requires LeasesWellFormed(s) && Enabled(s, step)
    requires step.Retain? || step.Release? || step.Delete? || step.ReadDevice?
    ensures LeasesWellFormed(Apply(s, step))
  {
    SameLeases(s, Apply(s, step));
  }

  lemma LeaseStep(s: State, step: Step)
    requires OneHolder(s) && LeasesWellFormed(s) && Enabled(s, step)
    ensures LeasesWellFormed(Apply(s, step))
  {
    if step.MakeLease? {
      MakeLeaseStep(s, step.thread);
    } else if step.CopyLease? || step.DropLease? || step.StoreFalse? || step.DropLeaseState? {
      CountStepKeepsLeases(s, step);
    } else if step.Retain? || step.Release? || step.Delete? || step.ReadDevice? {
      DeviceStepKeepsLeases(s, step);
    } else {
      CallStepKeepsLeases(s, step);
    }
  }

  lemma LogStep(s: State, step: Step)
    requires OneHolder(s) && LogMatches(s) && Enabled(s, step)
    ensures LogMatches(Apply(s, step))
  {
    if step.AllocationFails? {
      assert Holds(s, Acquirer(step.thread));
    } else if step.StoreFalse? {
      assert Holds(s, LeaseHolder(step.op));
    }
  }

  lemma OwnerAdded(s: State, s': State, o: Owner)
    requires StateCounted(s) && !s.stateFreed && o !in s.stateOwners
    requires s'.stateOwners == s.stateOwners + {o} && s'.stateCount == s.stateCount + 1 && s'.stateFreed == s.stateFreed
    requires forall p :: Owns(s', p) <==> Owns(s, p) || p == o
    ensures StateCounted(s')
  {
  }

  lemma OwnerDropped(s: State, s': State, o: Owner)
    requires StateCounted(s) && o in s.stateOwners
    requires s'.stateOwners == s.stateOwners - {o}
    requires s'.stateCount == s.stateCount - 1
    requires s'.stateFreed == (s.stateFreed || s.stateCount <= 1)
    requires forall p :: Owns(s', p) <==> Owns(s, p) && p != o
    ensures StateCounted(s')
  {
    assert |s'.stateOwners| == |s.stateOwners| - 1;
  }

  lemma DeviceLives(s: State, r: Reference)
    requires DeviceCounted(s) && r in s.references
    ensures !s.deleted && forall t :: At(s, t) != Deleting
  {
  }

  lemma CopyStateOwner(s: State, t: Thread, r: Reference)
    requires StateCounted(s) && DeviceCounted(s) && Enabled(s, CopyState(t, r))
    ensures StateCounted(Apply(s, CopyState(t, r)))
  {
    DeviceLives(s, r);
    assert Owns(s, DeviceOwner) && !Owns(s, ThreadOwner(t));
    OwnerAdded(s, Apply(s, CopyState(t, r)), ThreadOwner(t));
  }

  lemma DropStateOwner(s: State, t: Thread)
    requires StateCounted(s) && Enabled(s, DropState(t))
    ensures StateCounted(Apply(s, DropState(t)))
  {
    assert Owns(s, ThreadOwner(t));
    OwnerDropped(s, Apply(s, DropState(t)), ThreadOwner(t));
  }

  lemma MakeLeaseOwner(s: State, t: Thread)
    requires StateCounted(s) && LeasesWellFormed(s) && Enabled(s, MakeLease(t))
    ensures StateCounted(Apply(s, MakeLease(t)))
  {
    var op := At(s, t).op;
    assert Owns(s, ThreadOwner(t)) && !Owns(s, LeaseOwner(op));
    OwnerAdded(s, Apply(s, MakeLease(t)), LeaseOwner(op));
  }

  lemma DropLeaseOwner(s: State, op: Operation)
    requires StateCounted(s) && Enabled(s, DropLeaseState(op))
    ensures StateCounted(Apply(s, DropLeaseState(op)))
  {
    assert Owns(s, LeaseOwner(op));
    OwnerDropped(s, Apply(s, DropLeaseState(op)), LeaseOwner(op));
  }

  lemma DeviceOwnerStep(s: State, t: Thread)
    requires StateCounted(s) && DeviceCounted(s) && Enabled(s, Delete(t))
    ensures StateCounted(Apply(s, Delete(t)))
  {
    assert Owns(s, DeviceOwner);
    OwnerDropped(s, Apply(s, Delete(t)), DeviceOwner);
  }

  lemma SameOwners(s: State, s': State)
    requires StateCounted(s)
    requires s'.stateOwners == s.stateOwners && s'.stateCount == s.stateCount && s'.stateFreed == s.stateFreed
    requires forall o :: Owns(s', o) <==> Owns(s, o)
    ensures StateCounted(s')
  {
  }

  lemma StateStep(s: State, step: Step)
    requires StateCounted(s) && DeviceCounted(s) && LeasesWellFormed(s) && Enabled(s, step)
    ensures StateCounted(Apply(s, step))
  {
    if step.CopyState? {
      CopyStateOwner(s, step.thread, step.reference);
    } else if step.DropState? {
      DropStateOwner(s, step.thread);
    } else if step.MakeLease? {
      MakeLeaseOwner(s, step.thread);
    } else if step.DropLeaseState? {
      DropLeaseOwner(s, step.op);
    } else if step.Delete? {
      DeviceOwnerStep(s, step.thread);
    } else {
      SameOwners(s, Apply(s, step));
    }
  }

  lemma ReleaseStep(s: State, t: Thread, r: Reference)
    requires DeviceCounted(s) && Enabled(s, Release(t, r))
    ensures DeviceCounted(Apply(s, Release(t, r)))
  {
    var s' := Apply(s, Release(t, r));
    DeviceLives(s, r);
    assert |s'.references| == |s.references| - 1;
    assert s'.references == {} <==> s.referenceCount == 1;
    if s'.references == {} {
      assert At(s', t) == Deleting;
    }
    assert forall t' :: t' != t ==> At(s', t') == At(s, t');
  }

  lemma DeleteStep(s: State, t: Thread)
    requires DeviceCounted(s) && Enabled(s, Delete(t))
    ensures DeviceCounted(Apply(s, Delete(t)))
  {
    var s' := Apply(s, Delete(t));
    assert forall t' :: At(s', t') == (if t' == t then Idle else At(s, t'));
  }

  lemma SameReferences(s: State, s': State)
    requires DeviceCounted(s) && s'.deleted == s.deleted && s'.deletions == s.deletions
    requires s'.referenceCount == |s'.references| && (s'.references == {} <==> s.references == {})
    requires forall t :: At(s', t) == Deleting <==> At(s, t) == Deleting
    ensures DeviceCounted(s')
  {
  }

  lemma DeviceStep(s: State, step: Step)
    requires DeviceCounted(s) && Enabled(s, step)
    ensures DeviceCounted(Apply(s, step))
  {
    if step.Release? {
      ReleaseStep(s, step.thread, step.reference);
    } else if step.Delete? {
      DeleteStep(s, step.thread);
    } else {
      SameReferences(s, Apply(s, step));
    }
  }

  lemma StepKeepsInvariant(s: State, step: Step)
    requires Inv(s) && Enabled(s, step)
    ensures Inv(Apply(s, step))
  {
    HolderStep(s, step);
    LeaseStep(s, step);
    LogStep(s, step);
    StateStep(s, step);
    DeviceStep(s, step);
  }

  lemma {:induction false} RunKeepsInvariant(states: seq<State>, steps: seq<Step>, i: nat)
    requires IsRun(states, steps) && i < |states|
    ensures Inv(states[i])
  {
    if i > 0 {
      RunKeepsInvariant(states, steps, i - 1);
      StepKeepsInvariant(states[i - 1], steps[i - 1]);
    }
  }

  // ----- What follows for every run

  /** Operations of a device never overlap, whatever the interleaving. */
  lemma OperationsNeverOverlap(states: seq<State>, steps: seq<Step>, i: nat)
    requires IsRun(states, steps) && i < |states|
    ensures states[i].busy <==> exists h :: Holds(states[i], h)
    ensures forall h, h' :: Holds(states[i], h) && Holds(states[i], h') ==> h == h'
    ensures Sequential(states[i].log)
  {
    RunKeepsInvariant(states, steps, i);
  }

  predicate UsesDevice(step: Step) {
    step.CopyState? || step.Retain? || step.Release? || step.Delete? || step.ReadDevice?
  }

  predicate UsesOperationState(step: Step) {
    || step.CopyState? || step.CompareExchange? || step.MakeLease? || step.AllocationFails? || step.DropState?
    || step.StoreFalse? || step.DropLeaseState?
  }

  /** No step of any run touches a deleted device or a freed operation state. */
  lemma NothingUsedAfterItIsGone(states: seq<State>, steps: seq<Step>, i: nat)
    requires IsRun(states, steps) && i < |steps|
    ensures UsesDevice(steps[i]) ==> !states[i].deleted
    ensures UsesOperationState(steps[i]) ==> !states[i].stateFreed
  {
    RunKeepsInvariant(states, steps, i);
    var s, step := states[i], steps[i];
    assert Enabled(s, step);
    if step.CopyState? {
      DeviceLives(s, step.reference);
      assert Owns(s, DeviceOwner);
    } else if step.StoreFalse? || step.DropLeaseState? {
      assert Owns(s, LeaseOwner(step.op));
    } else if UsesOperationState(step) {
      assert Owns(s, ThreadOwner(step.thread));
    }
  }

  /** The operation state outlives the device while an operation is starting or running. */
  lemma StateOutlivesDevice(states: seq<State>, steps: seq<Step>, i: nat, h: Holder)
    requires IsRun(states, steps) && i < |states| && Holds(states[i], h)
    ensures !states[i].stateFreed
  {
    RunKeepsInvariant(states, steps, i);
    match h
    case Acquirer(t) => assert Owns(states[i], ThreadOwner(t));
    case LeaseHolder(op) => assert Owns(states[i], LeaseOwner(op));
  }

  function Deletions(steps: seq<Step>): nat {
    if steps == [] then 0 else Deletions(steps[..|steps| - 1]) + if steps[|steps| - 1].Delete? then 1 else 0
  }

  lemma DeletionStep(s: State, step: Step)
    requires Enabled(s, step)
    ensures Apply(s, step).deletions == s.deletions + if step.Delete? then 1 else 0
  {
  }

  lemma {:induction false} DeletionsCounted(states: seq<State>, steps: seq<Step>, i: nat)
    requires IsRun(states, steps) && i <= |steps|
    ensures states[i].deletions == Deletions(steps[..i])
  {
    if i > 0 {
      DeletionsCounted(states, steps, i - 1);
      DeletionStep(states[i - 1], steps[i - 1]);
      assert steps[..i][..i - 1] == steps[..i - 1];
    }
  }

  /** At most one delete in a run, only after the last reference, and done once no thread is on its way to it. */
  lemma DeletedExactlyOnce(states: seq<State>, steps: seq<Step>)
    requires IsRun(states, steps)
    ensures Deletions(steps) <= 1
    ensures Deletions(steps) == 1 ==> states[|steps|].references == {}
    ensures states[|steps|].references == {} && (forall t :: At(states[|steps|], t) != Deleting) ==> Deletions(steps) == 1
  {
    RunKeepsInvariant(states, steps, |steps|);
    DeletionsCounted(states, steps, |steps|);
    assert steps[..|steps|] == steps;
  }

  /** When every call has returned and every lease and reference is gone, nothing is left behind. */
  lemma NothingLeaks(states: seq<State>, steps: seq<Step>)
    requires IsRun(states, steps)
    requires forall t :: At(states[|steps|], t) == Idle
    requires states[|steps|].leases == map[] && states[|steps|].references == {}
    ensures !states[|steps|].busy && states[|steps|].stateFreed && states[|steps|].deleted
  {
    var s := states[|steps|];
    RunKeepsInvariant(states, steps, |steps|);
    assert forall h :: !Holds(s, h);
    assert forall o :: !Owns(s, o);
  }

  // ----- busy never stays stuck

  function DropAll(op: Operation, owners: nat): seq<Step> {
    if owners == 0 then [StoreFalse(op)] else [DropLease(op)] + DropAll(op, owners - 1)
  }

  /** The steps with which the holder alone finishes: at worst make the lease, drop its owners, store. */
  function Finish(s: State, h: Holder): seq<Step>
    requires Holds(s, h)
  {
    match h
    case Acquirer(t) => [MakeLease(t)] + DropAll(At(s, t).op, 1)
    case LeaseHolder(op) => DropAll(op, if s.leases[op].Live? then s.leases[op].owners else 0)
  }

  predicate CanRun(s: State, steps: seq<Step>)
    decreases |steps|
  {
    steps == [] || (Enabled(s, steps[0]) && CanRun(Apply(s, steps[0]), steps[1..]))
  }

  function After(s: State, steps: seq<Step>): State
    requires CanRun(s, steps)
    decreases |steps|
  {
    if steps == [] then s else After(Apply(s, steps[0]), steps[1..])
  }

  lemma {:induction false} DropAllClears(s: State, op: Operation, owners: nat)
    requires op in s.leases
    requires s.leases[op] == if owners == 0 then Dying else Live(owners)
    ensures CanRun(s, DropAll(op, owners)) && !After(s, DropAll(op, owners)).busy
    decreases owners
  {
    var steps := DropAll(op, owners);
    var s' := Apply(s, steps[0]);
    if owners == 0 {
      assert steps[1..] == [];
      assert CanRun(s', []) && After(s', []) == s';
    } else {
      assert steps[1..] == DropAll(op, owners - 1);
      DropAllClears(s', op, owners - 1);
    }
  }

  /** From every reachable busy state the holder's own remaining steps are enabled and clear busy. */
  lemma BusyNeverStuck(states: seq<State>, steps: seq<Step>, i: nat, h: Holder)
    requires IsRun(states, steps) && i < |states| && Holds(states[i], h)
    ensures CanRun(states[i], Finish(states[i], h))
    ensures !After(states[i], Finish(states[i], h)).busy
  {
    var s := states[i];
    RunKeepsInvariant(states, steps, i);
    match h
    case Acquirer(t) =>
      var rest := DropAll(At(s, t).op, 1);
      DropAllClears(Apply(s, MakeLease(t)), At(s, t).op, 1);
      assert Finish(s, h)[1..] == rest;
    case LeaseHolder(op) => DropAllClears(s, op, if s.leases[op].Live? then s.leases[op].owners else 0);
  }
}
