/**
 The event processor: one dispatcher, a worker per UUID that closes itself after a quiet second, and every
 interleaving of their steps (`user/event_processor`).
 */
module Workers {
  const MAX_TICKER_COUNT: int := 10
  const MAX_CHAN_LEN: int := 256

  /** A parsed record; `silent` ones (fork, exit, comm, mmap) are taken but not printed. */
  datatype Event = Event(uuid: string, silent: bool)

  /** `Closing` has decided to close but not yet left the registry; `Dead` has returned from `Run`. */
  datatype Phase = Running | Closing | Dead

  datatype Worker = Worker(uuid: string, queue: seq<nat>, ticker: nat, phase: Phase)

  /** Where the dispatcher is with event number `next`. */
  datatype Pc = Idle | NotFound | Created(w: nat) | Writing(w: nat)

  /** Workers are never removed, only die; events are known by the order they were dispatched in. */
  datatype State = State(
    events: seq<Event>, next: nat, pc: Pc, workers: seq<Worker>, registry: map<string, nat>, taken: seq<nat>)

  datatype Step =
    | Lookup
    | Create
    | Add
    | Write
    | Take(w: nat)
    | Tick(w: nat)
    | Delete(w: nat)
    | Expire(w: nat)

  function Init(events: seq<Event>): State { State(events, 0, Idle, [], map[], []) }

  predicate Enabled(s: State, step: Step) {
    match step
    case Lookup => s.pc.Idle? && s.next < |s.events|
    case Create => s.pc.NotFound? && s.next < |s.events|
    case Add => s.pc.Created? && s.next < |s.events|
    case Write => s.pc.Writing? && s.pc.w < |s.workers| && |s.workers[s.pc.w].queue| < MAX_CHAN_LEN
    case Take(w) => w < |s.workers| && s.workers[w].phase.Running? && s.workers[w].queue != []
    case Tick(w) => w < |s.workers| && s.workers[w].phase.Running?
    case Delete(w) => w < |s.workers| && s.workers[w].phase.Closing?
    case Expire(w) => w < |s.workers| && s.workers[w].uuid in s.registry && s.registry[s.workers[w].uuid] == w
  }

  /** One atomic step of the dispatcher, of a worker, or of the processor's own `Close`. */
  function Apply(s: State, step: Step): State
    requires Enabled(s, step)
  {
    match step
    case Lookup =>
      var uuid := s.events[s.next].uuid;
      s.(pc := if uuid in s.registry then Writing(s.registry[uuid]) else NotFound)
    case Create =>
      s.(workers := s.workers + [Worker(s.events[s.next].uuid, [], 0, Running)], pc := Created(|s.workers|))
    case Add => s.(registry := s.registry[s.events[s.next].uuid := s.pc.w], pc := Writing(s.pc.w))
    case Write =>
      var worker := s.workers[s.pc.w];
      s.(workers := s.workers[s.pc.w := worker.(queue := worker.queue + [s.next])], next := s.next + 1, pc := Idle)
    case Take(w) =>
      var worker := s.workers[w];
      s.(workers := s.workers[w := worker.(queue := worker.queue[1..], ticker := 0)],
         taken := s.taken + [worker.queue[0]])
    case Tick(w) =>
      var worker := s.workers[w];
      s.(workers := s.workers[w :=
           if worker.ticker > MAX_TICKER_COUNT then worker.(phase := Closing)
           else worker.(ticker := worker.ticker + 1)])
    case Delete(w) =>
      s.(workers := s.workers[w := s.workers[w].(phase := Dead, ticker := 0)],
         registry := s.registry - {s.workers[w].uuid})
    case Expire(w) => s.(workers := s.workers[w := s.workers[w].(ticker := MAX_TICKER_COUNT + 1)])
  }

  function Do(s: State, step: Step): State { if Enabled(s, step) then Apply(s, step) else s }

  /** Any interleaving; a step that is not enabled does nothing. */
  function Run(s: State, steps: seq<Step>): State
    decreases |steps|
  {
    if steps == [] then s else Run(Do(s, steps[0]), steps[1..])
  }

  // ----- invariants

  predicate Increasing(a: seq<nat>) { forall i, j :: 0 <= i < j < |a| ==> a[i] < a[j] }

  predicate IsOf(s: State, e: nat, uuid: string) { e < |s.events| && s.events[e].uuid == uuid }

  ghost predicate Alive(s: State, w: nat) { w < |s.workers| && !s.workers[w].phase.Dead? }

  /** The dispatcher works on its event; a worker it holds has that event's UUID. */
  ghost predicate PcOk(s: State) {
    && s.next <= |s.events|
    && (!s.pc.Idle? ==> s.next < |s.events|)
    && (s.pc.NotFound? || s.pc.Created? ==> s.events[s.next].uuid !in s.registry)
    && (s.pc.Created? ==> s.pc.w < |s.workers| && s.workers[s.pc.w].uuid == s.events[s.next].uuid)
    && (s.pc.Writing? ==> s.pc.w < |s.workers| && s.workers[s.pc.w].uuid == s.events[s.next].uuid)
  }

  /** Every worker that has not died is registered, or about to be. */
  ghost predicate RegistryOk(s: State) {
    && (forall u :: u in s.registry ==> s.registry[u] < |s.workers| && s.workers[s.registry[u]].uuid == u)
    && (forall w {:trigger s.workers[w]} :: 0 <= w < |s.workers| && !s.workers[w].phase.Dead? ==>
          (s.workers[w].uuid in s.registry && s.registry[s.workers[w].uuid] == w)
          || (s.pc.Created? && s.pc.w == w))
    && (s.pc.NotFound? && s.next < |s.events| ==>
          forall w {:trigger s.workers[w]} :: 0 <= w < |s.workers| && !s.workers[w].phase.Dead? ==>
            s.workers[w].uuid != s.events[s.next].uuid)
  }

  /** Queues hold dispatched events of their worker's UUID, in dispatch order. */
  ghost predicate QueuesOk(s: State) {
    forall w {:trigger s.workers[w]} :: 0 <= w < |s.workers| ==> QueueOk(s, s.workers[w])
  }

  ghost predicate QueueOk(s: State, worker: Worker) {
    && Increasing(worker.queue)
    && forall i :: 0 <= i < |worker.queue| ==> worker.queue[i] < s.next <= |s.events|
                                               && s.events[worker.queue[i]].uuid == worker.uuid
  }

  /** What was taken was dispatched. */
  ghost predicate TakenOk(s: State) {
    forall i :: 0 <= i < |s.taken| ==> s.taken[i] < s.next <= |s.events|
  }

  /** A worker that has not died only holds events behind everything taken for its UUID. */
  ghost predicate BehindOk(s: State) {
    forall w {:trigger s.workers[w]} :: 0 <= w < |s.workers| && !s.workers[w].phase.Dead? ==> Behind(s, s.workers[w])
  }

  ghost predicate Behind(s: State, worker: Worker) {
    forall i, j ::
      (0 <= i < |s.taken| && 0 <= j < |worker.queue| && IsOf(s, s.taken[i], worker.uuid)) ==>
        s.taken[i] < worker.queue[j]
  }

  /** Per UUID, events are taken in the order they were dispatched, each at most once. */
  ghost predicate OrderOk(s: State) {
    forall i, j ::
      (0 <= i < j < |s.taken| && s.taken[j] < |s.events| && IsOf(s, s.taken[i], s.events[s.taken[j]].uuid)) ==>
        s.taken[i] < s.taken[j]
  }

  /** Every dispatched event was taken or is queued somewhere. */
  ghost predicate NothingVanishes(s: State) { forall e: nat :: e < s.next ==> e in s.taken || Queued(s, e) }

  ghost predicate Queued(s: State, e: nat) { exists w :: 0 <= w < |s.workers| && e in s.workers[w].queue }

  /** No event is in two queues, or queued and taken. */
  ghost predicate PlacesOk(s: State) {
    && (forall w {:trigger s.workers[w]} :: 0 <= w < |s.workers| ==> Apart(s.workers[w].queue, s.taken))
    && (forall v, w {:trigger s.workers[v], s.workers[w]} :: 0 <= v < w < |s.workers| ==>
          Apart(s.workers[v].queue, s.workers[w].queue))
  }

  ghost predicate Apart(a: seq<nat>, b: seq<nat>) { forall i, j :: 0 <= i < |a| && 0 <= j < |b| ==> a[i] != b[j] }

  ghost predicate Inv(s: State) {
    && PcOk(s) && RegistryOk(s) && QueuesOk(s) && TakenOk(s) && BehindOk(s) && OrderOk(s) && NothingVanishes(s)
    && PlacesOk(s)
  }

  lemma InitHolds(events: seq<Event>)
    ensures Inv(Init(events))
  {
  }

  // ----- preservation, part by part

  lemma ControlKept(s: State, step: Step)
    requires PcOk(s) && RegistryOk(s) && Enabled(s, step)
    ensures PcOk(Apply(s, step)) && RegistryOk(Apply(s, step))
  {
    var t := Apply(s, step);
    match step
    case Create =>
      assert forall w :: 0 <= w < |s.workers| ==> t.workers[w] == s.workers[w];
    case Delete(w) =>
      assert s.workers[w].uuid in s.registry || s.pc.Created?;
    case _ =>
  }

  lemma QueueGrows(s: State, t: State, worker: Worker)
    requires QueueOk(s, worker) && s.next <= t.next <= |t.events| && t.events == s.events
    ensures QueueOk(t, worker)
  {
  }

  lemma QueueWritten(s: State, worker: Worker)
    requires QueueOk(s, worker) && s.next < |s.events| && worker.uuid == s.events[s.next].uuid
    ensures QueueOk(s.(next := s.next + 1), worker.(queue := worker.queue + [s.next]))
  {
  }

  lemma QueueTaken(s: State, worker: Worker)
    requires QueueOk(s, worker) && worker.queue != []
    ensures QueueOk(s, worker.(queue := worker.queue[1..], ticker := 0))
  {
  }

  lemma QueuesKept(s: State, step: Step)
    requires PcOk(s) && QueuesOk(s) && TakenOk(s) && Enabled(s, step)
    ensures QueuesOk(Apply(s, step)) && TakenOk(Apply(s, step))
  {
    var t := Apply(s, step);
    forall w | 0 <= w < |t.workers| ensures QueueOk(t, t.workers[w]) {
      if w < |s.workers| {
        var worker := s.workers[w];
        assert QueueOk(s, worker);
        if step.Write? && s.pc.w == w {
          QueueWritten(s, worker);
        } else if step.Take? && step.w == w {
          QueueTaken(s, worker);
        } else {
          QueueGrows(s, t, worker);
        }
      }
    }
    if step.Take? { assert QueueOk(s, s.workers[step.w]); }
  }

  /** Two workers that have not died differ in UUID. */
  lemma AliveDiffer(s: State, v: nat, w: nat)
    requires PcOk(s) && RegistryOk(s) && Alive(s, v) && Alive(s, w) && v != w
    ensures s.workers[v].uuid != s.workers[w].uuid
  {
  }

  lemma TakeKeepsOrder(s: State, w: nat)
    requires Inv(s) && Enabled(s, Take(w))
    ensures OrderOk(Apply(s, Take(w))) && BehindOk(Apply(s, Take(w)))
  {
    var t, mine := Apply(s, Take(w)), s.workers[w];
    assert QueueOk(s, mine) && Behind(s, mine);
    forall v | 0 <= v < |t.workers| && !t.workers[v].phase.Dead? ensures Behind(t, t.workers[v]) {
      assert Behind(s, s.workers[v]);
      if v != w { AliveDiffer(s, v, w); }
    }
  }

  lemma OtherStaysBehind(s: State, step: Step, w: nat)
    requires TakenOk(s) && BehindOk(s) && Enabled(s, step) && !step.Take?
    requires w < |Apply(s, step).workers| && !Apply(s, step).workers[w].phase.Dead?
    ensures Behind(Apply(s, step), Apply(s, step).workers[w])
  {
    if w < |s.workers| { assert Behind(s, s.workers[w]); }
  }

  lemma OthersKeepOrder(s: State, step: Step)
    requires Inv(s) && Enabled(s, step) && !step.Take?
    ensures OrderOk(Apply(s, step)) && BehindOk(Apply(s, step))
  {
    var t := Apply(s, step);
    forall w | 0 <= w < |t.workers| && !t.workers[w].phase.Dead? ensures Behind(t, t.workers[w]) {
      OtherStaysBehind(s, step, w);
    }
  }

  lemma OrderKept(s: State, step: Step)
    requires Inv(s) && Enabled(s, step)
    ensures OrderOk(Apply(s, step)) && BehindOk(Apply(s, step))
  {
    if step.Take? {
      TakeKeepsOrder(s, step.w);
    } else {
      OthersKeepOrder(s, step);
    }
  }

  lemma VanishKept(s: State, step: Step)
    requires Inv(s) && Enabled(s, step)
    ensures NothingVanishes(Apply(s, step))
  {
    var t := Apply(s, step);
    forall e: nat | e < t.next ensures e in t.taken || Queued(t, e) {
      if e == s.next {
        assert e in t.workers[s.pc.w].queue;
      } else if e in s.taken {
        assert e in t.taken;
      } else {
        var w :| 0 <= w < |s.workers| && e in s.workers[w].queue;
        if step.Take? && step.w == w && s.workers[w].queue[0] == e {
          assert t.taken[|s.taken|] == e;
        } else {
          assert e in t.workers[w].queue;
        }
      }
    }
  }

  lemma WriteKeepsPlaces(s: State)
    requires Inv(s) && Enabled(s, Write)
    ensures PlacesOk(Apply(s, Write))
  {
    var t, p := Apply(s, Write), s.pc.w;
    forall w | 0 <= w < |t.workers| ensures Apart(t.workers[w].queue, t.taken) {
      assert Apart(s.workers[w].queue, s.taken);
    }
    forall v, w | 0 <= v < w < |t.workers| ensures Apart(t.workers[v].queue, t.workers[w].queue) {
      assert Apart(s.workers[v].queue, s.workers[w].queue);
      assert QueueOk(s, s.workers[v]) && QueueOk(s, s.workers[w]);
    }
  }

  lemma TakeKeepsPlaces(s: State, p: nat)
    requires Inv(s) && Enabled(s, Take(p))
    ensures PlacesOk(Apply(s, Take(p)))
  {
    var t, mine := Apply(s, Take(p)), s.workers[p];
    assert QueueOk(s, mine);
    forall w | 0 <= w < |t.workers| ensures Apart(t.workers[w].queue, t.taken) {
      assert Apart(s.workers[w].queue, s.taken);
      if w < p {
        assert Apart(s.workers[w].queue, mine.queue);
      } else if p < w {
        assert Apart(mine.queue, s.workers[w].queue);
      }
    }
    forall v, w | 0 <= v < w < |t.workers| ensures Apart(t.workers[v].queue, t.workers[w].queue) {
      assert Apart(s.workers[v].queue, s.workers[w].queue);
    }
  }

  lemma PlacesKept(s: State, step: Step)
    requires Inv(s) && Enabled(s, step)
    ensures PlacesOk(Apply(s, step))
  {
    match step
    case Write => WriteKeepsPlaces(s);
    case Take(w) => TakeKeepsPlaces(s, w);
    case _ =>
      var t := Apply(s, step);
      forall v, w | 0 <= v < w < |t.workers| ensures Apart(t.workers[v].queue, t.workers[w].queue) {
        if w < |s.workers| { assert Apart(s.workers[v].queue, s.workers[w].queue); }
      }
  }

  lemma StepKeeps(s: State, step: Step)
    requires Inv(s)
    ensures Inv(Do(s, step))
  {
    if Enabled(s, step) {
      ControlKept(s, step);
      QueuesKept(s, step);
      OrderKept(s, step);
      VanishKept(s, step);
      PlacesKept(s, step);
    }
  }

  lemma {:induction false} RunKeeps(s: State, steps: seq<Step>)
    requires Inv(s)
    ensures Inv(Run(s, steps))
    decreases |steps|
  {
    if steps != [] {
      StepKeeps(s, steps[0]);
      RunKeeps(Do(s, steps[0]), steps[1..]);
    }
  }

  // ----- the protocol's promises

  /** At most one worker per UUID has not died. */
  lemma OneAlive(s: State, v: nat, w: nat)
    requires PcOk(s) && RegistryOk(s) && Alive(s, v) && Alive(s, w) && s.workers[v].uuid == s.workers[w].uuid
    ensures v == w
  {
  }

  /** Over every interleaving: one running worker per UUID at most. */
  lemma OneRunningWorker(events: seq<Event>, steps: seq<Step>, v: nat, w: nat)
    requires var s := Run(Init(events), steps);
             Alive(s, v) && Alive(s, w) && s.workers[v].uuid == s.workers[w].uuid
    ensures v == w
  {
    InitHolds(events);
    RunKeeps(Init(events), steps);
    OneAlive(Run(Init(events), steps), v, w);
  }

  /** The printed events of a UUID, by dispatch number. */
  function Printed(s: State, uuid: string, n: nat): seq<nat>
    requires n <= |s.taken|
  {
    if n == 0 then []
    else
      var e, rest := s.taken[n - 1], Printed(s, uuid, n - 1);
      if e < |s.events| && s.events[e].uuid == uuid && !s.events[e].silent then rest + [e] else rest
  }

  lemma {:induction false} PrintedFrom(s: State, uuid: string, n: nat)
    requires n <= |s.taken|
    ensures forall e :: e in Printed(s, uuid, n) ==> e in s.taken[..n] && IsOf(s, e, uuid) && !s.events[e].silent
  {
    if n > 0 {
      PrintedFrom(s, uuid, n - 1);
      assert s.taken[..n] == s.taken[..n - 1] + [s.taken[n - 1]];
    }
  }

  lemma {:induction false} PrintedIncreases(s: State, uuid: string, n: nat)
    requires OrderOk(s) && n <= |s.taken|
    ensures Increasing(Printed(s, uuid, n))
  {
    if n > 0 {
      var rest, e := Printed(s, uuid, n - 1), s.taken[n - 1];
      PrintedIncreases(s, uuid, n - 1);
      PrintedFrom(s, uuid, n - 1);
      if IsOf(s, e, uuid) {
        forall k | 0 <= k < |rest| ensures rest[k] < e {
          assert rest[k] in rest;
          var i :| 0 <= i < n - 1 && s.taken[i] == rest[k];
          assert IsOf(s, s.taken[i], s.events[s.taken[n - 1]].uuid);
        }
      }
    }
  }

  /**
   Over every interleaving: what is printed for a UUID is a subsequence of what was dispatched, in dispatch
   order and without duplicates.
   */
  lemma PrintedInOrder(events: seq<Event>, steps: seq<Step>, uuid: string)
    ensures var s := Run(Init(events), steps);
            var p := Printed(s, uuid, |s.taken|);
            && Increasing(p)
            && forall e :: e in p ==> e < s.next && IsOf(s, e, uuid) && !s.events[e].silent
  {
    var s := Run(Init(events), steps);
    InitHolds(events);
    RunKeeps(Init(events), steps);
    PrintedIncreases(s, uuid, |s.taken|);
    PrintedFrom(s, uuid, |s.taken|);
  }

  lemma {:induction false} PrintedAll(s: State, uuid: string, n: nat, e: nat)
    requires n <= |s.taken|
    ensures e in Printed(s, uuid, n) <==> e in s.taken[..n] && IsOf(s, e, uuid) && !s.events[e].silent
    decreases n
  {
    if n > 0 {
      PrintedAll(s, uuid, n - 1, e);
      assert s.taken[..n] == s.taken[..n - 1] + [s.taken[n - 1]];
    }
  }

  /** Nothing is withheld: of a UUID's events exactly those are printed that were taken and are not silent. */
  lemma PrintedExactly(events: seq<Event>, steps: seq<Step>, uuid: string, e: nat)
    ensures var s := Run(Init(events), steps);
            (e in Printed(s, uuid, |s.taken|))
            == (e in s.taken && e < |s.events| && s.events[e].uuid == uuid && !s.events[e].silent)
  {
    var s := Run(Init(events), steps);
    PrintedAll(s, uuid, |s.taken|, e);
    assert s.taken[..|s.taken|] == s.taken;
  }

  /** An event queued on a worker that will never take it. */
  ghost predicate Lost(s: State, e: nat) {
    exists w :: 0 <= w < |s.workers| && !s.workers[w].phase.Running? && e in s.workers[w].queue
  }

  ghost predicate Waiting(s: State, e: nat) {
    exists w :: 0 <= w < |s.workers| && s.workers[w].phase.Running? && e in s.workers[w].queue
  }

  /** Every dispatched event was taken, waits on the running worker, or is stuck on one that closed. */
  lemma MissingEventsAreStuck(events: seq<Event>, steps: seq<Step>, e: nat)
    requires e < Run(Init(events), steps).next
    ensures var s := Run(Init(events), steps); e in s.taken || Waiting(s, e) || Lost(s, e)
  {
    var s := Run(Init(events), steps);
    InitHolds(events);
    RunKeeps(Init(events), steps);
    if e !in s.taken {
      assert Queued(s, e);
      var w :| 0 <= w < |s.workers| && e in s.workers[w].queue;
    }
  }

  lemma LostStays(s: State, step: Step, e: nat)
    requires Inv(s) && Lost(s, e)
    ensures Lost(Do(s, step), e) && e !in Do(s, step).taken
  {
    var t := Do(s, step);
    var w :| 0 <= w < |s.workers| && !s.workers[w].phase.Running? && e in s.workers[w].queue;
    assert Apart(s.workers[w].queue, s.taken);
    assert w < |t.workers| && !t.workers[w].phase.Running? && e in t.workers[w].queue;
    StepKeeps(s, step);
    assert Apart(t.workers[w].queue, t.taken);
  }

  /** What is stuck stays stuck: in every continuation the event is never taken. */
  lemma {:induction false} LostForever(s: State, steps: seq<Step>, e: nat)
    requires Inv(s) && Lost(s, e)
    ensures Lost(Run(s, steps), e) && e !in Run(s, steps).taken
    decreases |steps|
  {
    if steps == [] {
      var w :| 0 <= w < |s.workers| && !s.workers[w].phase.Running? && e in s.workers[w].queue;
      assert Apart(s.workers[w].queue, s.taken);
    } else {
      LostStays(s, steps[0], e);
      StepKeeps(s, steps[0]);
      LostForever(Do(s, steps[0]), steps[1..], e);
    }
  }

  // ----- a worker registered after it died

  /** The registry holds a dead worker for this UUID, and the dispatcher is not about to replace it. */
  ghost predicate Mute(s: State, uuid: string, w: nat) {
    && uuid in s.registry && s.registry[uuid] == w && w < |s.workers|
    && s.workers[w].phase.Dead? && s.workers[w].uuid == uuid
  }

  /**
   A UUID goes mute in exactly one way: the dispatcher registers the worker it created, and that worker has
   already died.
   */
  lemma MuteBeginsExactly(s: State, step: Step, uuid: string, w: nat)
    requires Inv(s) && Enabled(s, step) && !Mute(s, uuid, w)
    ensures Mute(Apply(s, step), uuid, w)
       <==> (step.Add? && s.pc.w == w && s.events[s.next].uuid == uuid && s.workers[w].phase.Dead?)
  {
  }

  lemma MuteAlone(s: State, uuid: string, w: nat, v: nat)
    requires Inv(s) && Mute(s, uuid, w) && Alive(s, v)
    ensures s.workers[v].uuid != uuid
  {
  }

  lemma MuteStepStays(s: State, step: Step, uuid: string, w: nat)
    requires Inv(s) && Mute(s, uuid, w)
    ensures Mute(Do(s, step), uuid, w)
    ensures forall e :: e in Do(s, step).taken && e !in s.taken ==> e < |s.events| && s.events[e].uuid != uuid
  {
    if Enabled(s, step) && (step.Delete? || step.Take?) {
      MuteAlone(s, uuid, w, step.w);
      var mine := s.workers[step.w];
      assert QueueOk(s, mine);
      if step.Take? { assert s.events[mine.queue[0]].uuid == mine.uuid; }
    }
  }

  /** From then on, in every continuation, the UUID stays mute: none of its events is ever taken again. */
  lemma {:induction false} MuteForever(s: State, steps: seq<Step>, uuid: string, w: nat)
    requires Inv(s) && Mute(s, uuid, w)
    ensures Mute(Run(s, steps), uuid, w)
    ensures forall e :: e in Run(s, steps).taken && e !in s.taken ==> e < |s.events| && s.events[e].uuid != uuid
    decreases |steps|
  {
    if steps != [] {
      MuteStepStays(s, steps[0], uuid, w);
      StepKeeps(s, steps[0]);
      MuteForever(Do(s, steps[0]), steps[1..], uuid, w);
      EventsFixed(s, steps[0]);
    }
  }

  lemma EventsFixed(s: State, step: Step)
    ensures Do(s, step).events == s.events
  {
  }

  /** The dispatcher waits to write to a dead worker whose channel is full. */
  ghost predicate Stalled(s: State) {
    && s.pc.Writing? && s.pc.w < |s.workers| && s.workers[s.pc.w].phase.Dead?
    && |s.workers[s.pc.w].queue| >= MAX_CHAN_LEN
  }

  /** The wait never ends, in any continuation, and no event of any UUID is dispatched any more. */
  lemma {:induction false} StallForever(s: State, steps: seq<Step>)
    requires Stalled(s)
    ensures Stalled(Run(s, steps)) && Run(s, steps).next == s.next && Run(s, steps).pc == s.pc
    decreases |steps|
  {
    if steps != [] { StallForever(Do(s, steps[0]), steps[1..]); }
  }

  // ----- how such states are reached

  function Ticks(w: nat, n: nat): seq<Step> { seq(n, _ => Tick(w)) }

  lemma {:induction false} TicksRun(s: State, n: nat)
    requires |s.workers| == 1 && s.workers[0].phase.Running? && s.workers[0].ticker + n == 12 && n > 0
    ensures Run(s, Ticks(0, n)) == s.(workers := [s.workers[0].(phase := Closing, ticker := 11)])
    decreases n
  {
    var t := Do(s, Tick(0));
    assert Ticks(0, n)[1..] == Ticks(0, n - 1);
    if n > 1 {
      TicksRun(t, n - 1);
    } else {
      assert Run(t, []) == t;
    }
  }

  lemma {:induction false} RunAppend(s: State, a: seq<Step>, b: seq<Step>)
    ensures Run(s, a + b) == Run(Run(s, a), b)
    decreases |a|
  {
    if a == [] {
      assert a + b == b;
    } else {
      assert (a + b)[0] == a[0] && (a + b)[1..] == a[1..] + b;
      RunAppend(Do(s, a[0]), a[1..], b);
    }
  }

  lemma RunOne(s: State, a: Step)
    ensures Run(s, [a]) == Do(s, a)
  {
    assert [a][1..] == [] && Run(Do(s, a), []) == Do(s, a);
  }

  lemma RunTwo(s: State, a: Step, b: Step)
    ensures Run(s, [a, b]) == Do(Do(s, a), b)
  {
    assert [a, b][1..] == [b];
    RunOne(Do(s, a), b);
  }

  /** The first event's worker as the dispatcher creates it, and as it is once it is registered dead. */
  function Born(events: seq<Event>): State
    requires events != []
  {
    State(events, 0, Created(0), [Worker(events[0].uuid, [], 0, Running)], map[], [])
  }

  function Buried(events: seq<Event>): State
    requires events != []
  {
    var uuid := events[0].uuid;
    State(events, 0, Writing(0), [Worker(uuid, [], 0, Dead)], map[uuid := 0], [])
  }

  lemma BirthRuns(events: seq<Event>)
    requires events != []
    ensures Run(Init(events), [Lookup, Create]) == Born(events)
  {
    RunTwo(Init(events), Lookup, Create);
  }

  lemma BurialRuns(events: seq<Event>, s: State)
    requires events != [] && s == Born(events).(workers := [Worker(events[0].uuid, [], 11, Closing)])
    ensures Run(s, [Delete(0), Add]) == Buried(events)
  {
    var uuid := events[0].uuid;
    var t := Do(s, Delete(0));
    assert t.workers == [Worker(uuid, [], 0, Dead)] && t.registry == map[];
    RunTwo(s, Delete(0), Add);
  }

  lemma {:induction false} QuietTicks(s: State, w: nat, n: nat)
    requires w < |s.workers| && s.workers[w].phase.Running? && s.workers[w].ticker + n <= 12
    ensures var t := Run(s, Ticks(w, n));
            && |t.workers| == |s.workers|
            && (s.workers[w].ticker + n < 12 ==> t.workers[w].phase.Running?)
            && (n > 0 && s.workers[w].ticker + n == 12 ==> t.workers[w].phase.Closing?)
    decreases n
  {
    if n > 0 {
      assert Ticks(w, n)[1..] == Ticks(w, n - 1);
      var t := Do(s, Tick(w));
      if t.workers[w].phase.Running? {
        QuietTicks(t, w, n - 1);
      } else {
        assert Run(t, []) == t && Ticks(w, 0) == [];
      }
    }
  }

  /** Taking an event starts a worker's quiet time anew: eleven more ticks leave it open and the twelfth closes it. */
  lemma TakeResetsQuiet(s: State, w: nat, n: nat)
    requires Enabled(s, Take(w)) && n <= 12
    ensures var t := Run(s, [Take(w)] + Ticks(w, n));
            w < |t.workers| && (if n < 12 then t.workers[w].phase.Running? else t.workers[w].phase.Closing?)
  {
    RunOne(s, Take(w));
    RunAppend(s, [Take(w)], Ticks(w, n));
    QuietTicks(Do(s, Take(w)), w, n);
  }

  /** `Close` of the processor makes a registered worker close at its next tick. */
  lemma ExpireCloses(s: State, w: nat)
    requires Enabled(s, Expire(w)) && s.workers[w].phase.Running?
    ensures var t := Run(s, [Expire(w), Tick(w)]);
            w < |t.workers| && t.workers[w].phase.Closing? && t.workers[w].queue == s.workers[w].queue
  {
    RunTwo(s, Expire(w), Tick(w));
  }

  /** The new worker ticks out between its creation and its registration. */
  function TickedOut(): seq<Step> { ([Lookup, Create] + Ticks(0, 12)) + [Delete(0), Add] }

  lemma BuriedIsReached(events: seq<Event>)
    requires events != []
    ensures Run(Init(events), TickedOut()) == Buried(events)
  {
    var s := Init(events);
    BirthRuns(events);
    TicksRun(Born(events), 12);
    RunAppend(s, [Lookup, Create], Ticks(0, 12));
    BurialRuns(events, Run(Born(events), Ticks(0, 12)));
    RunAppend(s, [Lookup, Create] + Ticks(0, 12), [Delete(0), Add]);
  }

  /** A mute UUID is reachable. */
  lemma MuteIsReachable(e: Event)
    ensures Mute(Run(Init([e]), TickedOut()), e.uuid, 0)
  {
    BuriedIsReached([e]);
  }

  function Numbers(n: nat): seq<nat> { seq(n, i requires 0 <= i < n => i) }

  /** The dead worker holds the first `k` events, all of its UUID. */
  function Filled(events: seq<Event>, k: nat): State
    requires events != []
  {
    var uuid := events[0].uuid;
    State(events, k, Idle, [Worker(uuid, Numbers(k), 0, Dead)], map[uuid := 0], [])
  }

  predicate Alike(events: seq<Event>) { forall i :: 0 <= i < |events| ==> events[i].uuid == events[0].uuid }

  function Deliveries(n: nat): seq<Step> { if n == 0 then [] else [Lookup, Write] + Deliveries(n - 1) }

  lemma OneDelivery(events: seq<Event>, k: nat)
    requires Alike(events) && k < |events| && k < MAX_CHAN_LEN
    ensures Run(Filled(events, k), [Lookup, Write]) == Filled(events, k + 1)
  {
    var s := Filled(events, k);
    RunTwo(s, Lookup, Write);
    var t := Do(Do(s, Lookup), Write);
    assert Numbers(k) + [k] == Numbers(k + 1);
    assert t.workers == [Worker(events[0].uuid, Numbers(k + 1), 0, Dead)];
  }

  lemma {:induction false} DeliveriesRun(events: seq<Event>, k: nat, n: nat)
    requires Alike(events) && k + n < |events| && k + n <= MAX_CHAN_LEN
    ensures Run(Filled(events, k), Deliveries(n)) == Filled(events, k + n)
    decreases n
  {
    if n > 0 {
      OneDelivery(events, k);
      DeliveriesRun(events, k + 1, n - 1);
      RunAppend(Filled(events, k), [Lookup, Write], Deliveries(n - 1));
    }
  }

  lemma FirstWrite(events: seq<Event>)
    requires events != []
    ensures Run(Buried(events), [Write]) == Filled(events, 1)
  {
    RunOne(Buried(events), Write);
    assert [] + [0] == Numbers(1);
  }

  /** So is a stalled dispatcher: 256 events of the UUID fill the channel, the next one waits for ever. */
  lemma StallIsReachable(e: Event)
    ensures var steps := ((TickedOut() + [Write]) + Deliveries(255)) + [Lookup];
            Stalled(Run(Init(seq(257, _ => e)), steps))
  {
    var events := seq(257, _ => e);
    var s := Init(events);
    BuriedIsReached(events);
    RunAppend(s, TickedOut(), [Write]);
    FirstWrite(events);
    RunAppend(s, TickedOut() + [Write], Deliveries(255));
    DeliveriesRun(events, 1, 255);
    RunAppend(s, (TickedOut() + [Write]) + Deliveries(255), [Lookup]);
    RunOne(Filled(events, 256), Lookup);
  }
}
