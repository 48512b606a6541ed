/** The instance pool of `python/apple_purchase_receipt_verifier/_host.py` as a
    protocol: any number of calls, interleaved at every point where one of them
    can lose the processor, with a fault possible wherever one can be raised. */
module InstancePool {
  import opened Foundation

  /** An instance whose memory is above this after a call is dropped. */
  const RETIRE_ABOVE: nat := 64 * 1024 * 1024

  /** Where a call of `Pool.run` stands. A call that is not in flight has no phase. */
  datatype Phase =
    | Admitted                 // holds a permit, has not looked at the free list
    | Creating                 // found the free list empty
    | Holding(instance: nat)   // calls, parses and measures on this instance
    | Keeping(instance: nat)   // decided to pool the instance again
    | Leaving                  // has only its permit left to release

  /** What happened to an instance so far: the operations called on it, in order,
      whether its configuration was accepted, whether a call on it faulted, and its
      memory when last measured. */
  datatype Record = Record(operations: seq<string>, accepted: bool, faulted: bool, memory: nat)

  const INIT: string := "init"

  datatype State = State(
    permits: nat,
    free: seq<nat>,
    phases: map<nat, Phase>,
    instances: map<nat, Record>)

  /** The pool after its constructor: the first instance is pooled when its `init`
      was accepted. No memory limit is applied to it here. */
  function Start(size: nat, accepted: bool, memory: nat): State {
    State(size, if accepted then [0] else [], map[], map[0 := Record([INIT], accepted, false, memory)])
  }

  datatype Step =
    | Acquire(call: nat)
    | Abandon(call: nat)                        // an exception before the free list is popped
    | TakeFree(call: nat)
    | FindNone(call: nat)
    | Create(call: nat, id: nat, accepted: bool, memory: nat)
    | FailToCreate(call: nat)
    | Answer(call: nat, operation: string, memory: nat)   // the call and the parse of its answer succeeded
    | Fault(call: nat, operation: string, memory: nat)
    | PutBack(call: nat)
    | Release(call: nat)

  /** The state after a step, or `None` when the step cannot be taken. */
  function Apply(s: State, step: Step): Option<State> {
    var c := step.call;
    match step
    case Acquire(_) =>
      if s.permits > 0 && c !in s.phases
      then Some(s.(permits := s.permits - 1, phases := s.phases[c := Admitted])) else None
    case Abandon(_) =>
      if c in s.phases && s.phases[c] == Admitted then Some(s.(phases := s.phases[c := Leaving])) else None
    case TakeFree(_) =>
      if c in s.phases && s.phases[c] == Admitted && s.free != []
      then Some(s.(free := s.free[..|s.free| - 1], phases := s.phases[c := Holding(s.free[|s.free| - 1])])) else None
    case FindNone(_) =>
      if c in s.phases && s.phases[c] == Admitted && s.free == []
      then Some(s.(phases := s.phases[c := Creating])) else None
    case Create(_, id, accepted, memory) =>
      if c in s.phases && s.phases[c] == Creating && id !in s.instances
      then Some(s.(phases := s.phases[c := if accepted then Holding(id) else Leaving],
                   instances := s.instances[id := Record([INIT], accepted, false, memory)])) else None
    case FailToCreate(_) =>
      if c in s.phases && s.phases[c] == Creating then Some(s.(phases := s.phases[c := Leaving])) else None
    case Answer(_, operation, memory) =>
      if c in s.phases && s.phases[c].Holding? && s.phases[c].instance in s.instances
      then var i := s.phases[c].instance;
           var r := s.instances[i];
           Some(s.(phases := s.phases[c := if memory <= RETIRE_ABOVE then Keeping(i) else Leaving],
                   instances := s.instances[i := r.(operations := r.operations + [operation], memory := memory)])) else None
    case Fault(_, operation, memory) =>
      if c in s.phases && s.phases[c].Holding? && s.phases[c].instance in s.instances
      then var i := s.phases[c].instance;
           var r := s.instances[i];
           Some(s.(phases := s.phases[c := Leaving],
                   instances := s.instances[i := r.(operations := r.operations + [operation], faulted := true, memory := memory)])) else None
    case PutBack(_) =>
      if c in s.phases && s.phases[c].Keeping?
      then Some(s.(free := s.free + [s.phases[c].instance], phases := s.phases[c := Leaving])) else None
    case Release(_) =>
      if c in s.phases && s.phases[c] == Leaving
      then Some(s.(permits := s.permits + 1, phases := s.phases - {c})) else None
  }

  /** A run: the steps of all calls, in the order they happened. */
  function Execute(s: State, steps: seq<Step>): Option<State>
    decreases |steps|
  {
    if steps == [] then Some(s)
    else match Apply(s, steps[0])
      case None => None
      case Some(next) => Execute(next, steps[1..])
  }

  // ---------------------------------------------------------------------
  // The invariant.

  /** Phases in which a call holds an instance or is making one. */
  predicate IsBusy(p: Phase) {
    p.Creating? || p.Holding? || p.Keeping?
  }

  function Busy(phases: map<nat, Phase>): set<nat> {
    set c | c in phases && IsBusy(phases[c])
  }

  predicate Holds(p: Phase) {
    p.Holding? || p.Keeping?
  }

  /** An instance a call may be given: `init` was called on it first and accepted,
      and no call on it faulted. */
  predicate Sound(r: Record) {
    r.operations != [] && r.operations[0] == INIT && r.accepted && !r.faulted
  }

  ghost predicate Counted(s: State, size: nat) {
    && s.permits + |s.phases| == size
    && |s.free| + |Busy(s.phases)| <= size
  }

  /** What a pooled instance is: sound, and measured after its last call. */
  predicate PooledOk(instances: map<nat, Record>, i: nat) {
    && i in instances && Sound(instances[i])
    && (|instances[i].operations| > 1 ==> instances[i].memory <= RETIRE_ABOVE)
  }

  /** What a call in flight may have: an instance that is sound and not pooled. */
  predicate PhaseOk(free: seq<nat>, instances: map<nat, Record>, p: Phase) {
    Holds(p) ==>
      && p.instance !in free
      && p.instance in instances && Sound(instances[p.instance])
      && (p.Keeping? ==> instances[p.instance].memory <= RETIRE_ABOVE)
  }

  predicate Apart(p: Phase, q: Phase) {
    Holds(p) && Holds(q) ==> p.instance != q.instance
  }

  /** Who has which instance. */
  ghost predicate Owned(free: seq<nat>, phases: map<nat, Phase>, instances: map<nat, Record>) {
    && Distinct(free)
    && (forall k :: 0 <= k < |free| ==> PooledOk(instances, free[k]))
    && (forall c :: c in phases ==> PhaseOk(free, instances, phases[c]))
    && (forall c, d :: c in phases && d in phases && c != d ==> Apart(phases[c], phases[d]))
  }

  ghost predicate Invariant(s: State, size: nat) {
    Counted(s, size) && Owned(s.free, s.phases, s.instances)
  }

  lemma {:induction false} SubsetSize<T>(a: set<T>, b: set<T>)
    requires a <= b
    ensures |a| <= |b|
  {
    if a != {} {
      var x :| x in a;
      SubsetSize(a - {x}, b - {x});
    }
  }

  /** What a step does to the counts: it touches one call's phase, and the free
      list, the permits and the busy calls move together. */
  lemma CountsMove(s: State, step: Step)
    requires Apply(s, step).Some?
    ensures var c, next := step.call, Apply(s, step).value;
            var was := c in s.phases && IsBusy(s.phases[c]);
            var will := c in next.phases && IsBusy(next.phases[c]);
            && (step.Acquire? <==> c !in s.phases)
            && next.phases == (if step.Release? then s.phases - {c} else s.phases[c := next.phases[c]])
            && next.permits == s.permits + (if step.Release? then 1 else if step.Acquire? then -1 else 0)
            && (|next.free| + (if will then 1 else 0) == |s.free| + (if was then 1 else 0)
                || |next.free| + (if will then 1 else 0) < |s.free| + (if was then 1 else 0)
                || (step.FindNone? && s.free == next.free == []))
  {
  }

  lemma SizeButOne<T>(a: set<T>, b: set<T>, x: T)
    requires a - {x} == b - {x}
    ensures |a| + (if x in b then 1 else 0) == |b| + (if x in a then 1 else 0)
  {
    assert x in a ==> a == (a - {x}) + {x};
    assert x in b ==> b == (b - {x}) + {x};
    assert x !in a ==> a == a - {x};
    assert x !in b ==> b == b - {x};
  }

  lemma BusySize(phases: map<nat, Phase>, c: nat, p: Phase)
    ensures |Busy(phases[c := p])| + (if c in phases && IsBusy(phases[c]) then 1 else 0)
         == |Busy(phases)| + (if IsBusy(p) then 1 else 0)
  {
    var next := phases[c := p];
    assert Busy(next) - {c} == Busy(phases) - {c};
    assert c in Busy(next) <==> IsBusy(p);
    assert c in Busy(phases) <==> c in phases && IsBusy(phases[c]);
    hide Busy, IsBusy;
    SizeButOne(Busy(next), Busy(phases), c);
  }

  lemma UpdateSize(phases: map<nat, Phase>, c: nat, p: Phase)
    ensures |phases[c := p]| == |phases| + (if c in phases then 0 else 1)
  {
    assert phases[c := p].Keys == phases.Keys + {c};
    assert |phases[c := p]| == |phases[c := p].Keys| && |phases| == |phases.Keys|;
  }

  lemma RemoveSize(phases: map<nat, Phase>, c: nat)
    requires c in phases
    ensures |phases - {c}| == |phases| - 1
    ensures |Busy(phases - {c})| == |Busy(phases)| - (if IsBusy(phases[c]) then 1 else 0)
  {
    assert phases.Keys == (phases - {c}).Keys + {c};
    assert Busy(phases - {c}) == Busy(phases) - {c};
  }

  /** Only an empty free list lets a call make an instance, and then the permits
      bound the instances: every busy call holds one. */
  lemma CountedStep(s: State, step: Step, size: nat)
    requires Counted(s, size) && Apply(s, step).Some?
    ensures Counted(Apply(s, step).value, size)
  {
    var c := step.call;
    var next := Apply(s, step).value;
    CountsMove(s, step);
    if step.FindNone? {
      SubsetSize(Busy(next.phases), next.phases.Keys);
    }
    hide Apply, Busy, IsBusy;
    if step.Release? {
      RemoveSize(s.phases, c);
    } else {
      BusySize(s.phases, c, next.phases[c]);
      UpdateSize(s.phases, c, next.phases[c]);
    }
  }

  /** Changing one call's phase keeps ownership when the new phase takes nothing
      that is pooled or another call's. */
  lemma PhaseKeeps(free: seq<nat>, phases: map<nat, Phase>, instances: map<nat, Record>, c: nat, p: Phase)
    requires Owned(free, phases, instances)
    requires PhaseOk(free, instances, p)
    requires forall d :: d in phases && d != c ==> Apart(phases[d], p)
    ensures Owned(free, phases[c := p], instances)
  {
    var next := phases[c := p];
    forall d, e | d in next && e in next && d != e ensures Apart(next[d], next[e]) {
      if d == c {
        assert Apart(phases[e], p);
      } else if e == c {
        assert Apart(phases[d], p);
      }
    }
  }

  /** Changing one instance's record keeps ownership when nobody has it. */
  lemma RecordKeeps(free: seq<nat>, phases: map<nat, Phase>, instances: map<nat, Record>, i: nat, r: Record)
    requires Owned(free, phases, instances) && i !in free
    requires forall c :: c in phases && Holds(phases[c]) ==> phases[c].instance != i
    ensures Owned(free, phases, instances[i := r])
  {
    forall k | 0 <= k < |free| ensures PooledOk(instances[i := r], free[k]) {
      assert PooledOk(instances, free[k]);
    }
  }

  lemma TakeFreeKeeps(free: seq<nat>, phases: map<nat, Phase>, instances: map<nat, Record>, c: nat)
    requires Owned(free, phases, instances) && free != [] && c in phases
    ensures var last := |free| - 1; Owned(free[..last], phases[c := Holding(free[last])], instances)
  {
    var last := |free| - 1;
    assert PooledOk(instances, free[last]);
    forall d | d in phases ensures PhaseOk(free[..last], instances, phases[d]) && Apart(phases[d], Holding(free[last])) {
      assert PhaseOk(free, instances, phases[d]);
    }
    PhaseKeeps(free[..last], phases, instances, c, Holding(free[last]));
  }

  lemma CreateKeeps(free: seq<nat>, phases: map<nat, Phase>, instances: map<nat, Record>, c: nat, id: nat, r: Record)
    requires Owned(free, phases, instances) && id !in instances && r.operations == [INIT] && !r.faulted
    ensures Owned(free, phases[c := if r.accepted then Holding(id) else Leaving], instances[id := r])
  {
    forall d | d in phases && Holds(phases[d]) ensures phases[d].instance != id {
      assert PhaseOk(free, instances, phases[d]);
    }
    assert forall k :: 0 <= k < |free| ==> PooledOk(instances, free[k]);
    RecordKeeps(free, phases, instances, id, r);
    PhaseKeeps(free, phases, instances[id := r], c, if r.accepted then Holding(id) else Leaving);
  }

  /** A call's instance is nobody else's, so its record may change with the phase. */
  lemma UseKeeps(free: seq<nat>, phases: map<nat, Phase>, instances: map<nat, Record>, c: nat, i: nat, r: Record, p: Phase)
    requires Owned(free, phases, instances) && c in phases && phases[c] == Holding(i)
    requires p == Leaving || (p == Keeping(i) && Sound(r) && r.memory <= RETIRE_ABOVE)
    ensures Owned(free, phases[c := p], instances[i := r])
  {
    assert PhaseOk(free, instances, phases[c]);
    forall d | d in phases && d != c ensures Apart(phases[d], Holding(i)) {
      assert Apart(phases[d], phases[c]);
    }
    PhaseKeeps(free, phases, instances, c, Leaving);
    RecordKeeps(free, phases[c := Leaving], instances, i, r);
    assert phases[c := Leaving][c := p] == phases[c := p];
    PhaseKeeps(free, phases[c := Leaving], instances[i := r], c, p);
  }

  lemma PutBackKeeps(free: seq<nat>, phases: map<nat, Phase>, instances: map<nat, Record>, c: nat, i: nat)
    requires Owned(free, phases, instances) && c in phases && phases[c] == Keeping(i)
    ensures Owned(free + [i], phases[c := Leaving], instances)
  {
    assert PhaseOk(free, instances, phases[c]);
    DistinctAppend(free, [i]);
    var next := phases[c := Leaving];
    forall d | d in next ensures PhaseOk(free + [i], instances, next[d]) {
      if d != c {
        assert PhaseOk(free, instances, phases[d]) && Apart(phases[d], phases[c]);
      }
    }
    forall d, e | d in next && e in next && d != e ensures Apart(next[d], next[e]) {
      assert d != c && e != c ==> Apart(phases[d], phases[e]);
    }
  }

  lemma ReleaseKeeps(free: seq<nat>, phases: map<nat, Phase>, instances: map<nat, Record>, c: nat)
    requires Owned(free, phases, instances)
    ensures Owned(free, phases - {c}, instances)
  {
  }

  /** Whatever the step, an instance stays with at most one call or in the free
      list once, and what is pooled or held stays sound. */
  lemma OwnershipStep(s: State, step: Step)
    requires Owned(s.free, s.phases, s.instances) && Apply(s, step).Some?
    ensures var next := Apply(s, step).value; Owned(next.free, next.phases, next.instances)
  {
    hide Owned;
    var c := step.call;
    match step {
      case Acquire(_) => PhaseKeeps(s.free, s.phases, s.instances, c, Admitted);
      case Abandon(_) => PhaseKeeps(s.free, s.phases, s.instances, c, Leaving);
      case TakeFree(_) => TakeFreeKeeps(s.free, s.phases, s.instances, c);
      case FindNone(_) => PhaseKeeps(s.free, s.phases, s.instances, c, Creating);
      case Create(_, id, accepted, memory) =>
        CreateKeeps(s.free, s.phases, s.instances, c, id, Record([INIT], accepted, false, memory));
      case FailToCreate(_) => PhaseKeeps(s.free, s.phases, s.instances, c, Leaving);
      case Answer(_, operation, memory) =>
        var i := s.phases[c].instance;
        HeldIsSound(s, c);
        UseKeeps(s.free, s.phases, s.instances, c, i,
                 s.instances[i].(operations := s.instances[i].operations + [operation], memory := memory),
                 if memory <= RETIRE_ABOVE then Keeping(i) else Leaving);
      case Fault(_, operation, memory) =>
        var i := s.phases[c].instance;
        UseKeeps(s.free, s.phases, s.instances, c, i,
                 s.instances[i].(operations := s.instances[i].operations + [operation], faulted := true, memory := memory), Leaving);
      case PutBack(_) => PutBackKeeps(s.free, s.phases, s.instances, c, s.phases[c].instance);
      case Release(_) => ReleaseKeeps(s.free, s.phases, s.instances, c);
    }
  }

  lemma HeldIsSound(s: State, c: nat)
    requires Owned(s.free, s.phases, s.instances) && c in s.phases && Holds(s.phases[c])
    ensures s.phases[c].instance in s.instances && Sound(s.instances[s.phases[c].instance])
    ensures s.phases[c].Keeping? ==> s.instances[s.phases[c].instance].memory <= RETIRE_ABOVE
  {
    assert PhaseOk(s.free, s.instances, s.phases[c]);
  }

  /** Every run from a fresh pool keeps the invariant, whatever the interleaving
      and wherever the faults. */
  lemma {:induction false} RunKeepsInvariant(s: State, steps: seq<Step>, size: nat)
    requires Invariant(s, size) && Execute(s, steps).Some?
    ensures Invariant(Execute(s, steps).value, size)
    decreases |steps|
  {
    if steps != [] {
      CountedStep(s, steps[0], size);
      OwnershipStep(s, steps[0]);
      hide Counted, Owned, Apply;
      RunKeepsInvariant(Apply(s, steps[0]).value, steps[1..], size);
    }
  }

  lemma StartIsInvariant(size: nat, accepted: bool, memory: nat)
    requires size >= 1
    ensures Invariant(Start(size, accepted, memory), size)
  {
    assert Busy(map[]) == {};
  }

  lemma OwnershipMeans(s: State)
    requires Owned(s.free, s.phases, s.instances)
    ensures Distinct(s.free)
    ensures forall c, d :: c in s.phases && d in s.phases && c != d && Holds(s.phases[c]) && Holds(s.phases[d])
              ==> s.phases[c].instance != s.phases[d].instance
    ensures forall c :: c in s.phases && Holds(s.phases[c]) ==> s.phases[c].instance !in s.free
    ensures forall i :: i in s.free ==> i in s.instances && Sound(s.instances[i])
  {
    forall c, d | c in s.phases && d in s.phases && c != d && Holds(s.phases[c]) && Holds(s.phases[d])
      ensures s.phases[c].instance != s.phases[d].instance
    {
      assert Apart(s.phases[c], s.phases[d]);
    }
    forall c | c in s.phases && Holds(s.phases[c]) ensures s.phases[c].instance !in s.free {
      assert PhaseOk(s.free, s.instances, s.phases[c]);
    }
    forall i | i in s.free ensures i in s.instances && Sound(s.instances[i]) {
      var k :| 0 <= k < |s.free| && s.free[k] == i;
      assert PooledOk(s.instances, s.free[k]);
    }
  }

  /** In every state a pool can reach: permits and calls in flight add up to the
      size; pooled instances and instances held or being made never exceed it; no
      instance serves two calls, or is pooled and in use; and every pooled
      instance ran `init` first, was accepted and never faulted. */
  lemma EveryReachableState(size: nat, accepted: bool, memory: nat, steps: seq<Step>)
    requires size >= 1 && Execute(Start(size, accepted, memory), steps).Some?
    ensures var s := Execute(Start(size, accepted, memory), steps).value;
            && s.permits + |s.phases| == size
            && |s.free| + |Busy(s.phases)| <= size
            && Distinct(s.free)
            && (forall c, d :: c in s.phases && d in s.phases && c != d && Holds(s.phases[c]) && Holds(s.phases[d])
                  ==> s.phases[c].instance != s.phases[d].instance)
            && (forall c :: c in s.phases && Holds(s.phases[c]) ==> s.phases[c].instance !in s.free)
            && (forall i :: i in s.free ==> i in s.instances && Sound(s.instances[i]))
  {
    StartIsInvariant(size, accepted, memory);
    RunKeepsInvariant(Start(size, accepted, memory), steps, size);
    OwnershipMeans(Execute(Start(size, accepted, memory), steps).value);
  }

  /** The bounded semaphore is never released past its bound. */
  lemma ReleaseIsBounded(size: nat, accepted: bool, memory: nat, steps: seq<Step>, call: nat)
    requires size >= 1 && Execute(Start(size, accepted, memory), steps).Some?
    requires Apply(Execute(Start(size, accepted, memory), steps).value, Release(call)).Some?
    ensures Execute(Start(size, accepted, memory), steps).value.permits < size
  {
    EveryReachableState(size, accepted, memory, steps);
    var s := Execute(Start(size, accepted, memory), steps).value;
    assert call in s.phases.Keys;
  }

  // ---------------------------------------------------------------------
  // The retire limit.

  ghost predicate WithinLimit(s: State) {
    forall k :: 0 <= k < |s.free| ==> s.free[k] in s.instances && s.instances[s.free[k]].memory <= RETIRE_ABOVE
  }

  lemma LimitStep(s: State, step: Step)
    requires Owned(s.free, s.phases, s.instances) && WithinLimit(s) && Apply(s, step).Some?
    ensures WithinLimit(Apply(s, step).value)
  {
    var c, next := step.call, Apply(s, step).value;
    if c in s.phases && Holds(s.phases[c]) {
      HeldIsSound(s, c);
      assert PhaseOk(s.free, s.instances, s.phases[c]);
    }
    hide Owned;
    forall k | 0 <= k < |next.free|
      ensures next.free[k] in next.instances && next.instances[next.free[k]].memory <= RETIRE_ABOVE
    {
      if k < |s.free| {
        assert s.free[k] in s.free;
      }
    }
  }

  lemma {:induction false} RunKeepsLimit(s: State, steps: seq<Step>)
    requires Owned(s.free, s.phases, s.instances) && WithinLimit(s) && Execute(s, steps).Some?
    ensures WithinLimit(Execute(s, steps).value)
    decreases |steps|
  {
    if steps != [] {
      OwnershipStep(s, steps[0]);
      LimitStep(s, steps[0]);
      hide Owned, WithinLimit, Apply;
      RunKeepsLimit(Apply(s, steps[0]).value, steps[1..]);
    }
  }

  /** Every pooled instance is within the retire limit in every run exactly when
      the constructor's instance was when it was made: that one is pooled
      unmeasured. */
  lemma PooledWithinLimitIff(size: nat, accepted: bool, memory: nat)
    requires size >= 1
    ensures (forall steps :: Execute(Start(size, accepted, memory), steps).Some?
                             ==> WithinLimit(Execute(Start(size, accepted, memory), steps).value))
       <==> !accepted || memory <= 67_108_864
  {
    var s := Start(size, accepted, memory);
    if !accepted || memory <= RETIRE_ABOVE {
      StartIsInvariant(size, accepted, memory);
      forall steps | Execute(s, steps).Some? ensures WithinLimit(Execute(s, steps).value) {
        RunKeepsLimit(s, steps);
      }
    } else {
      var none: seq<Step> := [];
      assert Execute(s, none) == Some(s);
      assert s.free[0] == 0 && s.instances[0].memory > RETIRE_ABOVE;
    }
  }

  // ---------------------------------------------------------------------
  // Every call can finish, and gives its permit back.

  /** How many steps a call in this phase can still take. */
  function StepsLeft(p: Phase): nat {
    match p
    case Admitted => 5
    case Creating => 4
    case Holding(_) => 3
    case Keeping(_) => 2
    case Leaving => 1
  }

  /** The calls that can still take at least `n` steps. */
  function CanTake(phases: map<nat, Phase>, n: nat): set<nat> {
    set c | c in phases && StepsLeft(phases[c]) >= n
  }

  /** How many steps all calls in flight can still take. */
  function Rank(phases: map<nat, Phase>): nat {
    |CanTake(phases, 1)| + |CanTake(phases, 2)| + |CanTake(phases, 3)| + |CanTake(phases, 4)| + |CanTake(phases, 5)|
  }

  lemma CanTakeFalls(phases: map<nat, Phase>, next: map<nat, Phase>, c: nat, n: nat)
    requires c in phases
    requires next == phases - {c} || (c in next && next == phases[c := next[c]] && StepsLeft(next[c]) < StepsLeft(phases[c]))
    ensures CanTake(next, n) <= CanTake(phases, n)
    ensures n == StepsLeft(phases[c]) ==> c in CanTake(phases, n) && c !in CanTake(next, n)
    ensures |CanTake(next, n)| <= |CanTake(phases, n)|
    ensures n == StepsLeft(phases[c]) ==> |CanTake(next, n)| < |CanTake(phases, n)|
  {
    var fewer, more := CanTake(next, n), CanTake(phases, n);
    assert fewer <= more;
    SubsetSize(fewer, more);
    if n == StepsLeft(phases[c]) {
      SubsetSize(fewer, more - {c});
    }
  }

  lemma StepLowers(s: State, step: Step)
    requires Apply(s, step).Some? && !step.Acquire?
    ensures var c, next := step.call, Apply(s, step).value.phases;
            && c in s.phases
            && (next == s.phases - {c} || (c in next && next == s.phases[c := next[c]] && StepsLeft(next[c]) < StepsLeft(s.phases[c])))
  {
  }

  /** Every step of a call in flight lowers the rank. */
  lemma RankFalls(s: State, step: Step)
    requires Apply(s, step).Some? && !step.Acquire?
    ensures Rank(Apply(s, step).value.phases) < Rank(s.phases)
  {
    var c, next := step.call, Apply(s, step).value.phases;
    StepLowers(s, step);
    hide Apply, CanTake;
    CanTakeFalls(s.phases, next, c, 1);
    CanTakeFalls(s.phases, next, c, 2);
    CanTakeFalls(s.phases, next, c, 3);
    CanTakeFalls(s.phases, next, c, 4);
    CanTakeFalls(s.phases, next, c, 5);
  }

  /** The steps a call in flight has, whatever the other calls do: a fault, and every
      way to go on. */
  function NextSteps(s: State, c: nat, id: nat, operation: string, memory: nat): seq<Step>
    requires c in s.phases
  {
    match s.phases[c]
    case Admitted => [if s.free == [] then FindNone(c) else TakeFree(c), Abandon(c)]
    case Creating => [FailToCreate(c), Create(c, id, true, memory), Create(c, id, false, memory)]
    case Holding(_) => [Answer(c, operation, memory), Fault(c, operation, memory)]
    case Keeping(_) => [PutBack(c)]
    case Leaving => [Release(c)]
  }

  /** No call in flight ever waits for another: it can go on, and it can fail, for
      any new instance, any operation and any memory. */
  lemma NobodyWaits(s: State, c: nat, id: nat, operation: string, memory: nat)
    requires Owned(s.free, s.phases, s.instances) && c in s.phases && id !in s.instances
    ensures var steps := NextSteps(s, c, id, operation, memory);
            steps != [] && forall k :: 0 <= k < |steps| ==> !steps[k].Acquire? && Apply(s, steps[k]).Some?
  {
    if Holds(s.phases[c]) {
      HeldIsSound(s, c);
    }
    hide Owned;
  }

  ghost predicate Stuck(s: State) {
    forall step: Step :: !step.Acquire? ==> Apply(s, step).None?
  }

  ghost predicate NoNewCalls(steps: seq<Step>) {
    forall k :: 0 <= k < |steps| ==> !steps[k].Acquire?
  }

  /** A run without new calls takes at most as many steps as the rank. */
  lemma {:induction false} RunIsBounded(s: State, steps: seq<Step>)
    requires NoNewCalls(steps) && Execute(s, steps).Some?
    ensures |steps| + Rank(Execute(s, steps).value.phases) <= Rank(s.phases)
    decreases |steps|
  {
    if steps != [] {
      RankFalls(s, steps[0]);
      hide Apply, Rank;
      RunIsBounded(Apply(s, steps[0]).value, steps[1..]);
    }
  }

  /** Every run without new calls ends, however it is scheduled and wherever it
      faults, and when no step is left every call is gone and every permit back. */
  lemma EveryMaximalRunReturnsThePermits(s: State, steps: seq<Step>, size: nat)
    requires Invariant(s, size) && NoNewCalls(steps) && Execute(s, steps).Some?
    ensures |steps| <= Rank(s.phases)
    ensures var end := Execute(s, steps).value; Stuck(end) ==> end.phases == map[] && end.permits == size
  {
    hide Apply, Rank, Stuck, Execute, Owned, Busy;
    RunIsBounded(s, steps);
    RunKeepsInvariant(s, steps, size);
    if Stuck(Execute(s, steps).value) {
      StuckIsEmpty(Execute(s, steps).value);
    }
  }

  lemma StuckIsEmpty(s: State)
    requires Owned(s.free, s.phases, s.instances) && Stuck(s)
    ensures s.phases == map[]
  {
    hide Apply, Owned;
    if s.phases != map[] {
      var c :| c in s.phases;
      var step := SomeStep(s, c);
    }
  }

  lemma SomeStep(s: State, c: nat) returns (step: Step)
    requires Owned(s.free, s.phases, s.instances) && c in s.phases
    ensures !step.Acquire? && Apply(s, step).Some?
  {
    hide Apply, Owned;
    var id := NewId(s.instances.Keys);
    NobodyWaits(s, c, id, INIT, 0);
    step := NextSteps(s, c, id, INIT, 0)[0];
  }

  /** There is always a new instance to make. */
  lemma {:induction false} NewId(used: set<nat>) returns (id: nat)
    ensures forall x :: x in used ==> x < id
    decreases |used|
  {
    id := 0;
    if used != {} {
      var x :| x in used;
      var above := NewId(used - {x});
      id := if above > x then above else x + 1;
      forall y | y in used ensures y < id {
        assert y == x || y in used - {x};
      }
    }
  }

  // ---------------------------------------------------------------------
  // `init`.

  /** `init` was called on the instance first, and never again. */
  predicate InitOnce(r: Record) {
    r.operations != [] && r.operations[0] == INIT && INIT !in r.operations[1..]
  }

  ghost predicate AllInitOnce(s: State) {
    forall i :: i in s.instances ==> InitOnce(s.instances[i])
  }

  /** Every operation a call asks for is one of `exports`. */
  ghost predicate Asks(steps: seq<Step>, exports: set<string>) {
    forall k :: 0 <= k < |steps| && (steps[k].Answer? || steps[k].Fault?) ==> steps[k].operation in exports
  }

  lemma InitStep(s: State, step: Step)
    requires AllInitOnce(s) && Apply(s, step).Some?
    requires step.Answer? || step.Fault? ==> step.operation != INIT
    ensures AllInitOnce(Apply(s, step).value)
  {
    var next := Apply(s, step).value;
    forall i | i in next.instances ensures InitOnce(next.instances[i]) {
      if i in s.instances && (step.Answer? || step.Fault?) && i == s.phases[step.call].instance {
        assert next.instances[i].operations[1..] == s.instances[i].operations[1..] + [step.operation];
      }
    }
  }

  lemma {:induction false} RunInitsOnce(s: State, steps: seq<Step>, exports: set<string>)
    requires AllInitOnce(s) && INIT !in exports && Asks(steps, exports) && Execute(s, steps).Some?
    ensures AllInitOnce(Execute(s, steps).value)
    decreases |steps|
  {
    if steps != [] {
      InitStep(s, steps[0]);
      hide AllInitOnce, Apply;
      RunInitsOnce(Apply(s, steps[0]).value, steps[1..], exports);
    }
  }

  ghost predicate RunsInitOnce(s: State, steps: seq<Step>, exports: set<string>) {
    Asks(steps, exports) && Execute(s, steps).Some? ==> AllInitOnce(Execute(s, steps).value)
  }

  /** Every instance ever made has `init` called on it once, first, in every run,
      exactly when no call asks the pool for `init`. */
  lemma InitOnceIff(size: nat, accepted: bool, memory: nat, exports: set<string>)
    requires size >= 1
    ensures (forall steps :: RunsInitOnce(Start(size, accepted, memory), steps, exports)) <==> INIT !in exports
  {
    var s := Start(size, accepted, memory);
    if INIT in exports {
      var steps := InitTwice(size, accepted, memory);
      assert Asks(steps, exports);
      assert !RunsInitOnce(s, steps, exports);
    } else {
      forall steps ensures RunsInitOnce(s, steps, exports) {
        if Asks(steps, exports) && Execute(s, steps).Some? {
          RunInitsOnce(s, steps, exports);
        }
      }
    }
  }

  /** What the verifier asks its pool for. */
  const EXPORTS: set<string> := {"verify-receipt", "verify-signed-data", "verify-receipt-endpoint"}

  /** So in every run of the verifier's calls, every instance ever made, pooled, in
      use or dropped, had `init` called on it once, first. */
  lemma VerifierInitsOnce(size: nat, accepted: bool, memory: nat, steps: seq<Step>)
    requires size >= 1 && Asks(steps, EXPORTS) && Execute(Start(size, accepted, memory), steps).Some?
    ensures AllInitOnce(Execute(Start(size, accepted, memory), steps).value)
  {
    assert forall e :: e in EXPORTS ==> |e| != |INIT|;
    hide Execute;
    RunInitsOnce(Start(size, accepted, memory), steps, EXPORTS);
  }

  /** A run that asks for `init`. */
  lemma InitTwice(size: nat, accepted: bool, memory: nat) returns (steps: seq<Step>)
    requires size >= 1
    ensures Asks(steps, {INIT}) && Execute(Start(size, accepted, memory), steps).Some?
    ensures !AllInitOnce(Execute(Start(size, accepted, memory), steps).value)
  {
    var s := Start(size, accepted, memory);
    var s1 := Apply(s, Acquire(0)).value;
    var ask := [Answer(0, INIT, 0)];
    if accepted {
      var s2 := Apply(s1, TakeFree(0)).value;
      steps := [Acquire(0)] + ([TakeFree(0)] + (ask + []));
      RunCons(s, Acquire(0), [TakeFree(0)] + (ask + []));
      RunCons(s1, TakeFree(0), ask + []);
      AskTwice(s2, 0);
    } else {
      var make := Create(0, 1, true, 0);
      var s2 := Apply(s1, FindNone(0)).value;
      var s3 := Apply(s2, make).value;
      steps := [Acquire(0)] + ([FindNone(0)] + ([make] + (ask + [])));
      RunCons(s, Acquire(0), [FindNone(0)] + ([make] + (ask + [])));
      RunCons(s1, FindNone(0), [make] + (ask + []));
      RunCons(s2, make, ask + []);
      AskTwice(s3, 1);
    }
  }

  lemma AskTwice(s: State, i: nat)
    requires 0 in s.phases && s.phases[0] == Holding(i) && i in s.instances && s.instances[i].operations == [INIT]
    ensures Execute(s, [Answer(0, INIT, 0)] + []).Some?
    ensures !AllInitOnce(Execute(s, [Answer(0, INIT, 0)] + []).value)
  {
    RunCons(s, Answer(0, INIT, 0), []);
    var next := Apply(s, Answer(0, INIT, 0)).value;
    assert next.instances[i].operations == [INIT, INIT];
    assert next.instances[i].operations[1..] == [INIT];
  }

  // ---------------------------------------------------------------------
  // `Pool.run` itself.

  /** What the world answers a call: making an instance, and using one. */
  datatype World = World(made: Option<(nat, bool, nat)>, operation: string, faults: bool, memory: nat)

  /** From the instance to the end of the call. */
  function UseSteps(call: nat, w: World): seq<Step> {
    if w.faults then [Fault(call, w.operation, w.memory)] + [Release(call)]
    else if w.memory <= RETIRE_ABOVE then [Answer(call, w.operation, w.memory)] + ([PutBack(call)] + [Release(call)])
    else [Answer(call, w.operation, w.memory)] + [Release(call)]
  }

  function MakeSteps(call: nat, w: World): seq<Step> {
    match w.made
    case None => [FailToCreate(call)] + [Release(call)]
    case Some((id, accepted, memory)) =>
      [Create(call, id, accepted, memory)] + (if accepted then UseSteps(call, w) else [Release(call)])
  }

  /** The steps one call takes when no other call moves. */
  function CallSteps(s: State, call: nat, w: World): seq<Step> {
    [Acquire(call)]
    + (if s.free != [] then [TakeFree(call)] + UseSteps(call, w) else [FindNone(call)] + MakeSteps(call, w))
  }

  lemma RunCons(s: State, step: Step, steps: seq<Step>)
    requires Apply(s, step).Some?
    ensures Execute(s, [step] + steps) == Execute(Apply(s, step).value, steps)
  {
    assert ([step] + steps)[1..] == steps;
  }

  lemma FinishRun(s: State, call: nat)
    requires call in s.phases && s.phases[call] == Leaving
    ensures Execute(s, [Release(call)]) == Some(s.(permits := s.permits + 1, phases := s.phases - {call}))
  {
    assert [Release(call)] == [Release(call)] + [];
    RunCons(s, Release(call), []);
  }

  predicate Keeps(w: World) {
    !w.faults && w.memory <= RETIRE_ABOVE
  }

  /** A run that ends with the permit back, the call gone and this free list. */
  ghost predicate EndsWith(s: State, steps: seq<Step>, call: nat, free: seq<nat>) {
    var r := Execute(s, steps);
    r.Some? && r.value.permits == s.permits + 1 && r.value.phases == s.phases - {call} && r.value.free == free
  }

  lemma UseRun(s: State, call: nat, w: World)
    requires call in s.phases && s.phases[call].Holding? && s.phases[call].instance in s.instances
    ensures EndsWith(s, UseSteps(call, w), call, if Keeps(w) then s.free + [s.phases[call].instance] else s.free)
  {
    var first := if w.faults then Fault(call, w.operation, w.memory) else Answer(call, w.operation, w.memory);
    var s1 := Apply(s, first).value;
    if Keeps(w) {
      RunCons(s, first, [PutBack(call)] + [Release(call)]);
      RunCons(s1, PutBack(call), [Release(call)]);
      FinishRun(Apply(s1, PutBack(call)).value, call);
    } else {
      RunCons(s, first, [Release(call)]);
      FinishRun(s1, call);
    }
  }

  lemma MakeRun(s: State, call: nat, w: World)
    requires call in s.phases && s.phases[call] == Creating
    requires w.made.Some? ==> w.made.value.0 !in s.instances
    ensures EndsWith(s, MakeSteps(call, w), call,
                     if w.made.Some? && w.made.value.1 && Keeps(w) then s.free + [w.made.value.0] else s.free)
  {
    match w.made {
      case None =>
        RunCons(s, FailToCreate(call), [Release(call)]);
        FinishRun(Apply(s, FailToCreate(call)).value, call);
      case Some((id, accepted, memory)) =>
        var make := Create(call, id, accepted, memory);
        var s1 := Apply(s, make).value;
        RunCons(s, make, if accepted then UseSteps(call, w) else [Release(call)]);
        if accepted {
          UseRun(s1, call, w);
        } else {
          FinishRun(s1, call);
        }
    }
  }

  /** The free list one call leaves: its instance last, if it is kept. */
  function FreeAfter(s: State, w: World): seq<nat> {
    if s.free != [] then s.free[..|s.free| - 1] + (if Keeps(w) then [s.free[|s.free| - 1]] else [])
    else if w.made.Some? && w.made.value.1 && Keeps(w) then [w.made.value.0] else []
  }

  lemma LastIsPooled(s: State)
    requires Owned(s.free, s.phases, s.instances)
    ensures s.free != [] ==> s.free[|s.free| - 1] in s.instances
  {
    if s.free != [] {
      assert PooledOk(s.instances, s.free[|s.free| - 1]);
    }
  }

  lemma CallStepsRun(s: State, call: nat, w: World)
    requires Owned(s.free, s.phases, s.instances) && s.permits > 0 && call !in s.phases
    requires w.made.Some? ==> w.made.value.0 !in s.instances
    ensures var r := Execute(s, CallSteps(s, call, w));
            r.Some? && r.value.permits == s.permits && r.value.phases == s.phases && r.value.free == FreeAfter(s, w)
  {
    hide Owned, Execute, UseSteps, MakeSteps;
    LastIsPooled(s);
    var s1 := Apply(s, Acquire(call)).value;
    assert s1.phases - {call} == s.phases;
    var next := if s.free != [] then TakeFree(call) else FindNone(call);
    var tail := if s.free != [] then UseSteps(call, w) else MakeSteps(call, w);
    RunCons(s, Acquire(call), [next] + tail);
    RunCons(s1, next, tail);
    var s2 := Apply(s1, next).value;
    assert s2.phases - {call} == s.phases;
    if s.free != [] {
      UseRun(s2, call, w);
    } else {
      MakeRun(s2, call, w);
    }
  }

  class Pool {
    const size: nat
    var permits: nat
    var free: seq<nat>
    ghost var phases: map<nat, Phase>
    ghost var instances: map<nat, Record>

    ghost function Abstract(): State
      reads this
    {
      State(permits, free, phases, instances)
    }

    ghost predicate Valid()
      reads this
    {
      size >= 1 && Invariant(Abstract(), size)
    }

    constructor (size: nat, accepted: bool, memory: nat)
      requires size >= 1
      ensures Valid() && Abstract() == Start(size, accepted, memory) && this.size == size
    {
      this.size := size;
      permits := size;
      free := if accepted then [0] else [];
      phases := map[];
      instances := map[0 := Record([INIT], accepted, false, memory)];
      new;
      StartIsInvariant(size, accepted, memory);
    }

    /** The semaphore gives a permit. A call that finds none waits, so this starts
        where it goes on. */
    method Enter(call: nat)
      requires Valid() && permits > 0 && call !in phases
      modifies this`permits, this`phases
      ensures Valid() && Apply(old(Abstract()), Acquire(call)) == Some(Abstract())
      ensures phases == old(phases)[call := Admitted]
    {
      hide Owned, Counted;
      StepKeeps(Abstract(), Acquire(call), size);
      permits := permits - 1;
      phases := phases[call := Admitted];
    }

    /** Under the lock: pop a free instance, if there is one. */
    method Take(call: nat) returns (instance: Option<nat>)
      requires Valid() && call in phases && phases[call] == Admitted
      modifies this`free, this`phases
      ensures Valid()
      ensures Apply(old(Abstract()), if old(free) == [] then FindNone(call) else TakeFree(call)) == Some(Abstract())
      ensures instance == if old(free) == [] then None else Some(old(free)[|old(free)| - 1])
      ensures phases == old(phases)[call := if instance.None? then Creating else Holding(instance.value)]
    {
      hide Owned, Counted;
      if free == [] {
        StepKeeps(Abstract(), FindNone(call), size);
        instance, phases := None, phases[call := Creating];
      } else {
        StepKeeps(Abstract(), TakeFree(call), size);
        instance, free := Some(free[|free| - 1]), free[..|free| - 1];
        phases := phases[call := Holding(instance.value)];
      }
    }

    /** `_create`, as it turned out: no instance, one whose configuration was
        refused, or one to use. */
    method Make(call: nat, made: Option<(nat, bool, nat)>) returns (instance: Option<nat>)
      requires Valid() && call in phases && phases[call] == Creating
      requires made.Some? ==> made.value.0 !in instances
      modifies this`phases, this`instances
      ensures Valid()
      ensures Apply(old(Abstract()),
                    match made case None => FailToCreate(call)
                               case Some((id, accepted, memory)) => Create(call, id, accepted, memory)) == Some(Abstract())
      ensures instance == if made.Some? && made.value.1 then Some(made.value.0) else None
      ensures phases == old(phases)[call := if instance.None? then Leaving else Holding(instance.value)]
    {
      hide Owned, Counted;
      match made {
        case None =>
          StepKeeps(Abstract(), FailToCreate(call), size);
          instance, phases := None, phases[call := Leaving];
        case Some((id, accepted, memory)) =>
          StepKeeps(Abstract(), Create(call, id, accepted, memory), size);
          instance := if accepted then Some(id) else None;
          phases := phases[call := if accepted then Holding(id) else Leaving];
          instances := instances[id := Record([INIT], accepted, false, memory)];
      }
    }

    /** The call on the borrowed instance, the parse of its answer and the measure. */
    method Use(call: nat, w: World) returns (answered: bool, keep: bool)
      requires Valid() && call in phases && phases[call].Holding?
      modifies this`phases, this`instances
      ensures Valid()
      ensures Apply(old(Abstract()), if w.faults then Fault(call, w.operation, w.memory) else Answer(call, w.operation, w.memory))
           == Some(Abstract())
      ensures answered == !w.faults && keep == Keeps(w)
      ensures phases == old(phases)[call := if keep then Keeping(old(phases)[call].instance) else Leaving]
    {
      HeldIsSound(Abstract(), call);
      hide Owned, Counted;
      var i := phases[call].instance;
      ghost var r := instances[i].(operations := instances[i].operations + [w.operation], memory := w.memory);
      if w.faults {
        StepKeeps(Abstract(), Fault(call, w.operation, w.memory), size);
        answered, keep := false, false;
        phases, instances := phases[call := Leaving], instances[i := r.(faulted := true)];
      } else {
        StepKeeps(Abstract(), Answer(call, w.operation, w.memory), size);
        answered, keep := true, w.memory <= RETIRE_ABOVE;
        phases, instances := phases[call := if keep then Keeping(i) else Leaving], instances[i := r];
      }
    }

    /** Under the lock: append the instance again. */
    method GiveBack(call: nat, instance: nat)
      requires Valid() && call in phases && phases[call] == Keeping(instance)
      modifies this`free, this`phases
      ensures Valid() && Apply(old(Abstract()), PutBack(call)) == Some(Abstract())
      ensures phases == old(phases)[call := Leaving]
    {
      hide Owned, Counted;
      StepKeeps(Abstract(), PutBack(call), size);
      free := free + [instance];
      phases := phases[call := Leaving];
    }

    method Leave(call: nat)
      requires Valid() && call in phases && phases[call] == Leaving
      modifies this`permits, this`phases
      ensures Valid() && Apply(old(Abstract()), Release(call)) == Some(Abstract())
    {
      hide Owned, Counted;
      StepKeeps(Abstract(), Release(call), size);
      permits := permits + 1;
      phases := phases - {call};
    }

    /** From the borrowed instance to the end of the call. */
    method Finish(call: nat, instance: nat, w: World) returns (answered: bool)
      requires Valid() && call in phases && phases[call] == Holding(instance)
      modifies this
      ensures Valid() && Execute(old(Abstract()), UseSteps(call, w)) == Some(Abstract())
      ensures answered == !w.faults
    {
      hide Invariant, Execute, Apply;
      ghost var start := Abstract();
      var keep;
      answered, keep := Use(call, w);
      ghost var used := Abstract();
      if keep {
        GiveBack(call, instance);
      }
      ghost var given := Abstract();
      Leave(call);
      LastStep(given, Release(call), Abstract());
      if keep {
        FirstStep(used, PutBack(call), given, [Release(call)], Abstract());
        FirstStep(start, Answer(call, w.operation, w.memory), used, [PutBack(call)] + [Release(call)], Abstract());
      } else {
        FirstStep(start, if w.faults then Fault(call, w.operation, w.memory) else Answer(call, w.operation, w.memory),
                  used, [Release(call)], Abstract());
      }
    }

    /** `run` while no other call moves: its sections one after the other, ending
        where the protocol's steps lead. */
    method Run(call: nat, w: World) returns (answered: bool)
      requires Valid() && permits > 0 && call !in phases
      requires w.made.Some? ==> w.made.value.0 !in instances
      modifies this
      ensures Execute(old(Abstract()), CallSteps(old(Abstract()), call, w)) == Some(Abstract())
      ensures Valid() && permits == old(permits) && phases == old(phases) && free == FreeAfter(old(Abstract()), w)
      ensures answered <==> !w.faults && (old(free) != [] || (w.made.Some? && w.made.value.1))
    {
      hide Owned, Counted, Execute, Apply, UseSteps, FreeAfter;
      ghost var start := Abstract();
      CallStepsRun(start, call, w);
      Enter(call);
      ghost var entered := Abstract();
      var instance := Take(call);
      ghost var taken := Abstract();
      if instance.Some? {
        answered := Finish(call, instance.value, w);
        FirstStep(entered, TakeFree(call), taken, UseSteps(call, w), Abstract());
        FirstStep(start, Acquire(call), entered, [TakeFree(call)] + UseSteps(call, w), Abstract());
      } else {
        answered := MakeAndFinish(call, w);
        FirstStep(entered, FindNone(call), taken, MakeSteps(call, w), Abstract());
        FirstStep(start, Acquire(call), entered, [FindNone(call)] + MakeSteps(call, w), Abstract());
      }
    }

    method MakeAndFinish(call: nat, w: World) returns (answered: bool)
      requires Valid() && call in phases && phases[call] == Creating
      requires w.made.Some? ==> w.made.value.0 !in instances
      modifies this
      ensures Valid() && Execute(old(Abstract()), MakeSteps(call, w)) == Some(Abstract())
      ensures answered <==> !w.faults && w.made.Some? && w.made.value.1
    {
      hide Invariant, Execute, Apply, UseSteps;
      ghost var start := Abstract();
      var instance := Make(call, w.made);
      ghost var made := Abstract();
      ghost var step := match w.made case None => FailToCreate(call)
                                     case Some((id, accepted, memory)) => Create(call, id, accepted, memory);
      if instance.Some? {
        answered := Finish(call, instance.value, w);
        FirstStep(start, step, made, UseSteps(call, w), Abstract());
      } else {
        answered := false;
        Leave(call);
        LastStep(made, Release(call), Abstract());
        FirstStep(start, step, made, [Release(call)], Abstract());
      }
    }
  }

  lemma StepKeeps(s: State, step: Step, size: nat)
    requires Invariant(s, size) && Apply(s, step).Some?
    ensures Invariant(Apply(s, step).value, size)
  {
    CountedStep(s, step, size);
    OwnershipStep(s, step);
  }

  lemma FirstStep(s: State, step: Step, next: State, steps: seq<Step>, end: State)
    requires Apply(s, step) == Some(next) && Execute(next, steps) == Some(end)
    ensures Execute(s, [step] + steps) == Some(end)
  {
    hide Apply;
    RunCons(s, step, steps);
  }

  lemma LastStep(s: State, step: Step, end: State)
    requires Apply(s, step) == Some(end)
    ensures Execute(s, [step]) == Some(end)
  {
    hide Apply;
    assert [step] == [step] + [];
    RunCons(s, step, []);
  }
}
