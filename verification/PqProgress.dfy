// What the post-quantum crypto task gets done: a precompute request that is taken
// publishes a pair, a thread that finds it ready takes exactly that pair and leaves
// the buffer wiped, and every request that has run returns
// (components/sntrup761/pq_crypto_task.c:113-178, 295-331, 370-405).
module PqProgress {
  import opened Wrappers
  import opened PqTask

  lemma RunSplits(events: seq<Event>, e: Event)
    requires Run(events).Some?
    ensures Run(events + [e]) == Step(Run(events).value, e)
  {
    assert (events + [e])[..|events|] == events;
  }

  // Keygen succeeds, or fails, in every step of handle_precompute that calls it.
  predicate KeygenAlways(ok: bool, events: seq<Event>) {
    forall i :: 0 <= i < |events| && events[i].Precomputing? ==> events[i].ok == ok
  }

  // ----- publishing

  // j steps after the task took a precompute request; n is the number of the keygen
  // and p what was published before.
  predicate Publishing(s: State, j: nat, n: nat, p: seq<nat>) {
    match j
    case 0 => s.w == Deciding && !s.k.ready && s.k.next == n && s.k.published == p
    case 1 => s.w == Generating && s.k.next == n && s.k.published == p
    case 2 => s.w == Locking(n) && s.k.published == p
    case 3 => s.w == StoringPk(n) && s.k.published == p
    case 4 => s.w == StoringSk(n) && s.k.published == p
    case 5 => s.w == SettingReady(n) && s.k.published == p
    case 6 => s.w == Unlocking && s.k.published == p + [n]
    case 7 => s.w == Waiting && s.k.published == p + [n]
    case _ => false
  }

  lemma PublishStep(s: State, e: Event, j: nat, n: nat, p: seq<nat>)
    requires Publishing(s, j, n, p) && Step(s, e).Some? && (e.Precomputing? ==> e.ok)
    requires IsWorkerStep(e) ==> j < 7
    ensures Publishing(Step(s, e).value, if IsWorkerStep(e) then j + 1 else j, n, p)
  {
  }

  lemma {:induction false} Publishes(events: seq<Event>, more: seq<Event>)
    requires Run(events).Some? && Run(events).value.w.Deciding? && !Run(events).value.k.ready
    requires Run(events + more).Some? && KeygenAlways(true, more) && WorkerSteps(more) <= 7
    ensures var k := Run(events).value.k; Publishing(Run(events + more).value, WorkerSteps(more), k.next, k.published)
  {
    if more == [] {
      assert events + more == events;
    } else {
      var fewer, e := more[..|more| - 1], more[|more| - 1];
      assert (events + more)[..|events + more| - 1] == events + fewer;
      Publishes(events, fewer);
      var k := Run(events).value.k;
      hide Publishing, Step;
      PublishStep(Run(events + fewer).value, e, WorkerSteps(fewer), k.next, k.published);
    }
  }

  // Once the task has taken a precompute request while no pair is ready, seven steps
  // of its own with a successful keygen publish the pair of that keygen, whatever the
  // other threads do meanwhile.
  lemma PrecomputePublishes(events: seq<Event>, more: seq<Event>)
    ensures Run(events).Some? && Run(events).value.w.Deciding? && !Run(events).value.k.ready &&
            Run(events + more).Some? && KeygenAlways(true, more) && WorkerSteps(more) == 7 ==>
              var k, s' := Run(events).value.k, Run(events + more).value;
              s'.k.published == k.published + [k.next] && s'.w == Waiting
  {
    hide Run, WorkerSteps;
    if Run(events).Some? && Run(events).value.w.Deciding? && !Run(events).value.k.ready &&
       Run(events + more).Some? && KeygenAlways(true, more) && WorkerSteps(more) == 7 {
      Publishes(events, more);
    }
  }

  predicate BeforeKeygen(w: Worker) {
    w.Waiting? || w.Running? || w.Signalling? || w.Deciding? || w.Generating?
  }

  lemma FailureStep(s: State, e: Event)
    requires BeforeKeygen(s.w) && Step(s, e).Some? && (e.Precomputing? ==> !e.ok)
    ensures var s' := Step(s, e).value; s'.k.published == s.k.published && BeforeKeygen(s'.w)
  {
  }

  // A keygen that fails publishes nothing.
  lemma {:induction false} FailuresPublishNothing(events: seq<Event>, more: seq<Event>)
    requires KeygenAlways(false, more)
    ensures Run(events).Some? && BeforeKeygen(Run(events).value.w) && Run(events + more).Some? ==>
              var k, s' := Run(events).value.k, Run(events + more).value;
              s'.k.published == k.published && BeforeKeygen(s'.w)
  {
    if more == [] {
      assert events + more == events;
    } else {
      var fewer := more[..|more| - 1];
      assert (events + more)[..|events + more| - 1] == events + fewer;
      FailuresPublishNothing(events, fewer);
      hide BeforeKeygen, Step;
      if Run(events).Some? && BeforeKeygen(Run(events).value.w) && Run(events + more).Some? {
        FailureStep(Run(events + fewer).value, more[|more| - 1]);
      }
    }
  }

  // ----- taking the pair

  function GetterSteps(events: seq<Event>, t: nat): nat {
    if events == [] then 0 else GetterSteps(events[..|events| - 1], t) + if events[|events| - 1] == Getting(t) then 1 else 0
  }

  // j steps after thread t, with the mutex, saw that pair c is ready.
  predicate Taking(s: State, t: nat, j: nat, c: nat, h: seq<(Option<nat>, Option<nat>)>) {
    var k, g := s.k, GetterOf(s.k, t);
    var pair := (Some(c), Some(c));
    && (j <= 5 ==> Current(k) == Some(c) && k.handed == h && k.ready)
    && match j
       case 0 => g == Checking
       case 1 => g == CopyingPk
       case 2 => g == CopyingSk(Some(c))
       case 3 => g == WipingPk(Some(c), Some(c))
       case 4 => g == WipingSk(Some(c), Some(c))
       case 5 => g == ClearingReady(Some(c), Some(c))
       case 6 => g == Leaving && k.handed == h + [pair]
       case _ => h + [pair] <= k.handed
  }

  lemma TakeStep(s: State, e: Event, t: nat, j: nat, c: nat, h: seq<(Option<nat>, Option<nat>)>)
    requires KeysInv(s) && Taking(s, t, j, c, h) && Step(s, e).Some?
    ensures Taking(Step(s, e).value, t, if e == Getting(t) then j + 1 else j, c, h)
  {
    hide Increasing, SubmitStep, ReceiveStep, ExecuteStep, SignalStep, WakeStep;
    match e {
      case Getting(u) => TakeByGetter(s, u, t, j, c, h);
      case Precomputing(ok) => TakeByWorker(s, ok, t, j, c, h);
      case _ => KeysStay(s, e);
    }
  }

  lemma KeysStay(s: State, e: Event)
    requires Step(s, e).Some? && !e.Getting? && !e.Precomputing?
    ensures Step(s, e).value.k == s.k
  {
  }

  lemma TakeByGetter(s: State, u: nat, t: nat, j: nat, c: nat, h: seq<(Option<nat>, Option<nat>)>)
    requires KeysInv(s) && Taking(s, t, j, c, h) && GetStep(s, u).Some?
    ensures Taking(GetStep(s, u).value, t, if u == t then j + 1 else j, c, h)
  {
    hide Increasing;
    if j <= 6 {
      assert InCritical(GetterOf(s.k, t));
      assert u != t ==> !InCritical(GetterOf(s.k, u));
    }
  }

  lemma TakeByWorker(s: State, ok: bool, t: nat, j: nat, c: nat, h: seq<(Option<nat>, Option<nat>)>)
    requires KeysInv(s) && Taking(s, t, j, c, h) && PrecomputeStep(s, ok).Some?
    ensures Taking(PrecomputeStep(s, ok).value, t, j, c, h)
  {
    hide Increasing;
    if j <= 6 {
      assert InCritical(GetterOf(s.k, t));
    }
  }

  lemma {:induction false} Takes(events: seq<Event>, more: seq<Event>, t: nat)
    requires Run(events).Some? && GetterOf(Run(events).value.k, t).Checking? && Run(events).value.k.ready
    requires Run(events + more).Some?
    ensures var k := Run(events).value.k;
            |k.published| > 0 && Taking(Run(events + more).value, t, GetterSteps(more, t), k.published[|k.published| - 1], k.handed)
  {
    RunInv(events);
    if more == [] {
      assert events + more == events;
      ReadyIsPublished(Run(events).value);
    } else {
      var fewer, e := more[..|more| - 1], more[|more| - 1];
      assert (events + more)[..|events + more| - 1] == events + fewer;
      Takes(events, fewer, t);
      RunInv(events + fewer);
      var k := Run(events).value.k;
      hide Taking, Step, KeysInv, RequestsInv;
      TakeStep(Run(events + fewer).value, e, t, GetterSteps(fewer, t), k.published[|k.published| - 1], k.handed);
    }
  }

  lemma ReadyIsPublished(s: State)
    requires KeysInv(s) && s.k.ready
    ensures |s.k.published| > 0 && Current(s.k) == Some(s.k.published[|s.k.published| - 1])
  {
  }

  // A thread that finds the pair ready under the mutex leaves after seven steps with
  // both halves of the pair published last, whatever the other threads do.
  lemma GetterTakesPair(events: seq<Event>, more: seq<Event>, t: nat)
    ensures Run(events).Some? && GetterOf(Run(events).value.k, t).Checking? && Run(events).value.k.ready &&
            Run(events + more).Some? && GetterSteps(more, t) == 7 ==>
              var k, k' := Run(events).value.k, Run(events + more).value.k;
              |k.published| > 0 &&
              var c := k.published[|k.published| - 1];
              k.handed + [(Some(c), Some(c))] <= k'.handed
  {
    hide Run, GetterSteps;
    if Run(events).Some? && GetterOf(Run(events).value.k, t).Checking? && Run(events).value.k.ready && Run(events + more).Some? {
      Takes(events, more, t);
    }
  }

  // Whenever nobody is inside and no pair is ready, the buffer has been wiped.
  lemma WipedWhenTaken(events: seq<Event>)
    ensures Run(events).Some? && !Run(events).value.k.ready && Run(events).value.k.mutex.None? ==>
              Run(events).value.k.pk == None && Run(events).value.k.sk == None
  {
    hide Run;
    if Run(events).Some? {
      RunInv(events);
    }
  }

  // ----- such runs exist

  lemma {:induction false} WorkerStepsSplit(a: seq<Event>, b: seq<Event>)
    ensures WorkerSteps(a + b) == WorkerSteps(a) + WorkerSteps(b)
  {
    if b == [] {
      assert a + b == a;
    } else {
      assert (a + b)[..|a + b| - 1] == a + b[..|b| - 1];
      WorkerStepsSplit(a, b[..|b| - 1]);
    }
  }

  predicate TaskOrGetter(events: seq<Event>) {
    forall i :: 0 <= i < |events| ==> events[i] == Precomputing(true) || events[i].Getting?
  }

  predicate Precomputes(s: State) {
    (s.w.Deciding? && !s.k.ready) || s.w.Generating? || s.w.Locking? || HoldsMutex(s.w)
  }

  // What the task and the thread that holds the mutex still have to do.
  function ToDo(s: State): nat {
    8 * Phase(s.w) + match s.k.mutex case Some(Thread(t)) => InsideLeft(GetterOf(s.k, t)) case _ => 0
  }

  lemma NextStep(s: State) returns (e: Event)
    requires KeysInv(s) && Precomputes(s)
    ensures Step(s, e).Some? && (e == Precomputing(true) || e.Getting?)
    ensures var s' := Step(s, e).value;
            && ToDo(s') < ToDo(s) && (Precomputes(s') || s'.w.Waiting?)
            && Phase(s'.w) == Phase(s.w) - (if IsWorkerStep(e) then 1 else 0)
  {
    hide Increasing;
    e := Precomputing(true);
    if s.w.Locking? && s.k.mutex.Some? {
      assert s.k.mutex.value.Thread?;
      var t := s.k.mutex.value.id;
      assert InCritical(GetterOf(s.k, t));
      e := Getting(t);
    }
  }

  // A precompute request that has been taken can be finished by the task and, as
  // long as it holds the mutex, one other thread.
  lemma {:induction false} CanFinish(events: seq<Event>) returns (more: seq<Event>)
    requires Run(events).Some? && Precomputes(Run(events).value)
    ensures Run(events + more).Some? && Run(events + more).value.w.Waiting?
    ensures TaskOrGetter(more) && WorkerSteps(more) == Phase(Run(events).value.w)
    decreases ToDo(Run(events).value)
  {
    RunInv(events);
    hide KeysInv, RequestsInv, Step, Precomputes, Phase, ToDo;
    var s := Run(events).value;
    var e := NextStep(s);
    RunSplits(events, e);
    assert WorkerSteps([e]) == if IsWorkerStep(e) then 1 else 0 by {
      assert [e][..0] == [];
    }
    var s' := Step(s, e).value;
    if Precomputes(s') {
      more := CanFinish(events + [e]);
      assert (events + [e]) + more == events + ([e] + more);
      WorkerStepsSplit([e], more);
      more := [e] + more;
    } else {
      AtRest(s');
      more := [e];
    }
  }

  lemma AtRest(s: State)
    requires s.w.Waiting?
    ensures Phase(s.w) == 0
  {
  }

  // From every state in which a precompute request has been taken and no pair is
  // ready, some continuation publishes one.
  lemma CanPublish(events: seq<Event>) returns (more: seq<Event>)
    requires Run(events).Some? && Run(events).value.w.Deciding? && !Run(events).value.k.ready
    ensures Run(events + more).Some?
    ensures var k := Run(events).value.k; Run(events + more).value.k.published == k.published + [k.next]
  {
    hide Run, WorkerSteps;
    more := CanFinish(events);
    PrecomputePublishes(events, more);
  }

  lemma RunStart()
    ensures Run([]) == Some(START)
  {
  }

  lemma Then(events: seq<Event>, e: Event) returns (r: seq<Event>)
    requires Run(events).Some? && Step(Run(events).value, e).Some?
    ensures r == events + [e] && Run(r) == Step(Run(events).value, e)
  {
    hide Step;
    RunSplits(events, e);
    r := events + [e];
  }

  const FIRST := Keys(Some(0), Some(0), true, None, map[], 1, [0], [])

  lemma PublishesFirst() returns (events: seq<Event>)
    ensures Run(events).Some? && Run(events).value.w.Waiting? && Run(events).value.k == FIRST
  {
    hide Run;
    RunStart();
    events := Then([], Ask);
    events := Then(events, Receive);
    events := Then(events, Precomputing(true));
    events := Then(events, Precomputing(true));
    events := Then(events, Precomputing(true));
    events := Then(events, Precomputing(true));
    events := Then(events, Precomputing(true));
    events := Then(events, Precomputing(true));
    events := Then(events, Precomputing(true));
  }

  // From the start: a request, and then the thread t takes the first pair.
  lemma HandsOutFirst(t: nat) returns (events: seq<Event>)
    ensures Run(events).Some? && Run(events).value.k.handed == [(Some(0), Some(0))]
  {
    hide Run;
    events := PublishesFirst();
    events := Then(events, Getting(t));
    events := Then(events, Getting(t));
    events := Then(events, Getting(t));
    events := Then(events, Getting(t));
    events := Then(events, Getting(t));
    events := Then(events, Getting(t));
    events := Then(events, Getting(t));
    events := Then(events, Getting(t));
  }

  // ----- requests return

  // A request that has run and is still waited for can return at once with its own
  // outcome, if need be after the one step with which the task gives its semaphore.
  lemma CanReturn(events: seq<Event>, id: nat)
    ensures Run(events).Some? && id < |Run(events).value.r.outcome| ==>
              var s := Run(events).value;
              id < |s.r.owner| &&
              var t := s.r.owner[id];
              Awaited(s.r, id) ==>
                var ready := if s.w.Signalling? && s.w.req == Blocking(id, t) then SignalStep(s) else Some(s);
                && ready.Some? && WakeStep(ready.value, t).Some?
                && WakeStep(ready.value, t).value.r.answers == s.r.answers + [(t, id, s.r.outcome[id])]
                && CallerOf(WakeStep(ready.value, t).value.r, t).Idle?
  {
    hide Run, Numbered;
    if Run(events).Some? && id < |Run(events).value.r.outcome| {
      RunInv(events);
      var s := Run(events).value;
      assert CallerInv(s.r, s.r.owner[id]);
    }
  }

  // From the start: a request of thread t and its answer.
  lemma ServesFirst(t: nat, buffers: seq<bv8>, v: Outcome) returns (events: seq<Event>)
    ensures Run(events).Some? && Run(events).value.r.answers == [(t, 0, v)]
  {
    hide Run;
    RunStart();
    events := Then([], Submit(t, buffers));
    events := Then(events, Receive);
    events := Then(events, Execute(v));
    events := Then(events, Signal);
    events := Then(events, Wake(t));
  }
}
