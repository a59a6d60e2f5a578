/**
 The buffering audit sink.  Writes append to a buffer; a flush sends the buffered events one by
 one, suspended at every send, over a buffer that may grow meanwhile, and empties the buffer only
 once its cursor has passed the end.  A failed send ends the flush and leaves the buffer alone.
 Events are named by the order in which they were written.
 */
module KafkaSink {
  import opened Prelude

  type Event = nat

  /** How many events were written, the buffer, the broker's log, and the cursor of each flush under way. */
  datatype State = State(written: nat, buffer: seq<Event>, delivered: seq<Event>, flushes: map<nat, nat>)

  datatype Step =
    | Write
    | Begin(flush: nat)
    | SendOk(flush: nat)
    | SendFails(flush: nat, reached: bool)  // the broker may have the event although the send raised
    | Finish(flush: nat)

  const Empty := State(0, [], [], map[])

  /** The steps open to a sink that lets at most `limit` flushes run at once. */
  predicate Enabled(limit: nat, s: State, step: Step) {
    match step
    case Write => true
    case Begin(f) => s.buffer != [] && f !in s.flushes && |s.flushes| < limit
    case SendOk(f) => f in s.flushes && s.flushes[f] < |s.buffer|
    case SendFails(f, _) => f in s.flushes && s.flushes[f] < |s.buffer|
    case Finish(f) => f in s.flushes && s.flushes[f] >= |s.buffer|
  }

  function Next(s: State, step: Step): State {
    match step
    case Write => s.(written := s.written + 1, buffer := s.buffer + [s.written])
    case Begin(f) => s.(flushes := s.flushes[f := 0])
    case SendOk(f) =>
      if f in s.flushes && s.flushes[f] < |s.buffer| then
        s.(delivered := s.delivered + [s.buffer[s.flushes[f]]], flushes := s.flushes[f := s.flushes[f] + 1])
      else s
    case SendFails(f, reached) =>
      if f in s.flushes && s.flushes[f] < |s.buffer| then
        s.(delivered := s.delivered + if reached then [s.buffer[s.flushes[f]]] else [],
           flushes := s.flushes - {f})
      else s
    case Finish(f) => s.(buffer := [], flushes := s.flushes - {f})
  }

  function Run(s: State, steps: seq<Step>): State {
    if steps == [] then s else Next(Run(s, steps[..|steps| - 1]), steps[|steps| - 1])
  }

  ghost predicate Legal(limit: nat, s: State, steps: seq<Step>) {
    steps != [] ==>
      var n := |steps| - 1;
      Legal(limit, s, steps[..n]) && Enabled(limit, Run(s, steps[..n]), steps[n])
  }

  // ----- First deliveries -----

  /** The delivered events without repetitions, in order of first delivery. */
  function Firsts(log: seq<Event>): seq<Event> {
    if log == [] then []
    else
      var n := |log| - 1;
      Firsts(log[..n]) + if log[n] in log[..n] then [] else [log[n]]
  }

  /** The first `n` events, in write order. */
  function UpTo(n: nat): seq<Event> {
    seq(n, i => i)
  }

  lemma FirstsStep(log: seq<Event>, e: Event)
    ensures Firsts(log + [e]) == if e in log then Firsts(log) else Firsts(log) + [e]
  {
    assert (log + [e])[..|log|] == log;
  }

  // ----- The invariant -----

  /**
   With one flush at a time the broker's log is, up to repetitions, a prefix of the writes; it covers
   everything the sink has forgotten and everything the flush under way has passed.
   */
  ghost predicate Inv(s: State) {
    && |s.buffer| <= s.written
    && (forall i :: 0 <= i < |s.buffer| ==> s.buffer[i] == s.written - |s.buffer| + i)
    && |s.flushes| <= 1
    && var m := |Firsts(s.delivered)|;
       && Firsts(s.delivered) == UpTo(m)
       && s.written - |s.buffer| <= m <= s.written
       && (forall f :: f in s.flushes ==>
             s.flushes[f] <= |s.buffer| && s.written - |s.buffer| + s.flushes[f] <= m)
       && forall e: Event :: e in s.delivered <==> e < m
  }

  lemma OnlyFlush(flushes: map<nat, nat>, f: nat)
    requires |flushes| <= 1 && f in flushes
    ensures flushes.Keys == {f}
  {
    assert |flushes.Keys - {f}| == 0;
    assert flushes.Keys == {f} + (flushes.Keys - {f});
  }

  lemma DeliverKeepsOrder(s: State, e: Event)
    requires Inv(s) && e <= |Firsts(s.delivered)| && e < s.written
    ensures var m := |Firsts(s.delivered)|;
            var m' := |Firsts(s.delivered + [e])|;
            && m' == (if e == m then m + 1 else m)
            && Firsts(s.delivered + [e]) == UpTo(m')
            && forall d: Event :: d in s.delivered + [e] <==> d < m'
  {
    FirstsStep(s.delivered, e);
  }

  /** A delivery to the broker, whatever becomes of the flush that made it. */
  lemma DeliveryKeepsInv(s: State, f: nat, flushes: map<nat, nat>)
    requires Inv(s) && f in s.flushes && s.flushes[f] < |s.buffer|
    requires flushes == s.flushes[f := s.flushes[f] + 1] || flushes == s.flushes - {f}
    ensures Inv(s.(delivered := s.delivered + [s.buffer[s.flushes[f]]], flushes := flushes))
  {
    OnlyFlush(s.flushes, f);
    assert |s.flushes[f := s.flushes[f] + 1].Keys| == 1;
    assert s.flushes - {f} == map[];
    DeliverKeepsOrder(s, s.buffer[s.flushes[f]]);
    hide Firsts, UpTo;
  }

  lemma StepKeepsInv(s: State, step: Step)
    requires Inv(s) && Enabled(1, s, step)
    ensures Inv(Next(s, step))
  {
    hide Firsts, UpTo;
    if !step.Write? && step.flush in s.flushes {
      OnlyFlush(s.flushes, step.flush);
      assert s.flushes - {step.flush} == map[];
    }
    match step
    case Write =>
    case Begin(f) => assert s.flushes == map[];
    case SendOk(f) => DeliveryKeepsInv(s, f, s.flushes[f := s.flushes[f] + 1]);
    case SendFails(f, reached) =>
      if reached {
        DeliveryKeepsInv(s, f, s.flushes - {f});
      } else {
        assert s.delivered + [] == s.delivered;
      }
    case Finish(f) =>
  }

  lemma {:induction false} RunKeepsInv(s: State, steps: seq<Step>)
    requires Inv(s) && Legal(1, s, steps)
    ensures Inv(Run(s, steps))
    decreases |steps|
  {
    if steps != [] {
      RunKeepsInv(s, steps[..|steps| - 1]);
      StepKeepsInv(Run(s, steps[..|steps| - 1]), steps[|steps| - 1]);
    }
  }

  lemma Reachable(steps: seq<Step>)
    requires Legal(1, Empty, steps)
    ensures Inv(Run(Empty, steps))
  {
    RunKeepsInv(Empty, steps);
  }

  /**
   What a send does: an acknowledged one moves its flush past the event, one that raises ends the flush,
   and the buffer keeps the event either way; the broker has it if it was acknowledged or got there.
   */
  lemma SendOutcome(s: State, step: Step)
    requires Enabled(1, s, step) && (step.SendOk? || step.SendFails?)
    ensures var s' := Next(s, step);
            var f := step.flush;
            && s'.buffer == s.buffer && s'.written == s.written
            && s'.delivered == s.delivered + (if step.SendOk? || step.reached then [s.buffer[s.flushes[f]]] else [])
            && (step.SendOk? ==> f in s'.flushes && s'.flushes[f] == s.flushes[f] + 1)
            && (step.SendFails? ==> f !in s'.flushes)
  {
  }

  // ----- Main results -----

  ghost predicate NothingLost(s: State) {
    forall e: Event :: e < s.written ==> e in s.buffer || e in s.delivered
  }

  lemma InvLosesNothing(s: State)
    requires Inv(s)
    ensures NothingLost(s)
  {
    forall e: Event | e < s.written
      ensures e in s.buffer || e in s.delivered
    {
      var forgotten := s.written - |s.buffer|;
      if e >= forgotten {
        assert s.buffer[e - forgotten] == e;
      }
    }
  }

  /** In every reachable state each written event is buffered or delivered, and first deliveries follow write order. */
  lemma AtLeastOnceInOrder(steps: seq<Step>)
    requires Legal(1, Empty, steps)
    ensures var s := Run(Empty, steps);
            NothingLost(s) && Firsts(s.delivered) == UpTo(|Firsts(s.delivered)|)
  {
    Reachable(steps);
    InvLosesNothing(Run(Empty, steps));
  }

  /** A flush that completes has delivered everything written before it empties the buffer. */
  lemma FinishCoversAll(steps: seq<Step>)
    requires Legal(1, Empty, steps)
    requires steps != [] && steps[|steps| - 1].Finish?
    ensures var s := Run(Empty, steps);
            s.buffer == [] && Firsts(s.delivered) == UpTo(s.written)
  {
    var n := |steps| - 1;
    Reachable(steps[..n]);
    Reachable(steps);
  }

  ghost predicate LosesNothing(limit: nat) {
    forall steps: seq<Step> :: Legal(limit, Empty, steps) ==>
      NothingLost(Run(Empty, steps))
  }

  /**
   Two overlapping flushes: the first empties the buffer, a write lands, and the second, whose
   cursor is already past the new event, empties the buffer again.
   */
  const Overlap: seq<Step> := [Write, Begin(0), Begin(1), SendOk(0), SendOk(1), Finish(0), Write, Finish(1)]

  lemma {:induction false} RunPrefix(limit: nat, s: State, steps: seq<Step>, step: Step)
    requires Legal(limit, s, steps) && Enabled(limit, Run(s, steps), step)
    ensures Legal(limit, s, steps + [step]) && Run(s, steps + [step]) == Next(Run(s, steps), step)
  {
    assert (steps + [step])[..|steps|] == steps;
  }

  lemma OverlapBegins(limit: nat)
    requires limit >= 2
    ensures Legal(limit, Empty, Overlap[..4])
    ensures Run(Empty, Overlap[..4]) == State(1, [0], [0], map[0 := 1, 1 := 0])
  {
    var none: map<nat, nat> := map[];
    var one: map<nat, nat> := map[0 := 0];
    assert |none| == 0 && |one| == 1;
    RunPrefix(limit, Empty, [], Write);
    assert [] + [Write] == Overlap[..1];
    RunPrefix(limit, Empty, Overlap[..1], Begin(0));
    assert Overlap[..1] + [Begin(0)] == Overlap[..2];
    assert Run(Empty, Overlap[..2]) == State(1, [0], [], one);
    RunPrefix(limit, Empty, Overlap[..2], Begin(1));
    assert Overlap[..2] + [Begin(1)] == Overlap[..3];
    RunPrefix(limit, Empty, Overlap[..3], SendOk(0));
    assert Overlap[..3] + [SendOk(0)] == Overlap[..4];
  }

  lemma OverlapLosesAnEvent(limit: nat)
    requires limit >= 2
    ensures Legal(limit, Empty, Overlap) && !NothingLost(Run(Empty, Overlap))
  {
    hide Run, Legal;
    OverlapBegins(limit);
    RunPrefix(limit, Empty, Overlap[..4], SendOk(1));
    assert Overlap[..4] + [SendOk(1)] == Overlap[..5];
    RunPrefix(limit, Empty, Overlap[..5], Finish(0));
    assert Overlap[..5] + [Finish(0)] == Overlap[..6];
    assert Run(Empty, Overlap[..6]) == State(1, [], [0, 0], map[1 := 1]);
    RunPrefix(limit, Empty, Overlap[..6], Write);
    assert Overlap[..6] + [Write] == Overlap[..7];
    RunPrefix(limit, Empty, Overlap[..7], Finish(1));
    assert Overlap[..7] + [Finish(1)] == Overlap;
    assert 1 !in Run(Empty, Overlap).delivered;
  }

  /** No run loses an event exactly when flushes never overlap. */
  lemma LosesNothingIff(limit: nat)
    ensures LosesNothing(limit) <==> limit <= 1
  {
    if limit <= 1 {
      forall steps: seq<Step> | Legal(limit, Empty, steps)
        ensures NothingLost(Run(Empty, steps))
      {
        MoreRoom(limit, steps);
        AtLeastOnceInOrder(steps);
      }
    } else {
      OverlapLosesAnEvent(limit);
    }
  }

  lemma {:induction false} MoreRoom(limit: nat, steps: seq<Step>)
    requires limit <= 1 && Legal(limit, Empty, steps)
    ensures Legal(1, Empty, steps)
    decreases |steps|
  {
    if steps != [] {
      MoreRoom(limit, steps[..|steps| - 1]);
    }
  }

  // ----- The sink object -----

  /** What happens while one send is under way: some writes land, then the send succeeds or raises. */
  datatype Send = Send(arrivals: nat, outcome: Outcome)
  datatype Outcome = Acknowledged | Raised(reached: bool)

  class KafkaAuditSink {
    const batchSize: nat
    var buffer: seq<Event>
    var written: nat
    ghost var delivered: seq<Event>

    constructor (batchSize: nat)
      ensures this.batchSize == batchSize && View() == Empty
    {
      this.batchSize := batchSize;
      buffer, written, delivered := [], 0, [];
    }

    /** The sink between flushes. */
    ghost function View(): State
      reads this
    {
      State(written, buffer, delivered, map[])
    }

    method Append()
      modifies this
      ensures View() == Next(old(View()), Write)
    {
      buffer := buffer + [written];
      written := written + 1;
    }

    /** Writes that land while a flush is suspended at `cursor`. */
    method LandWrites(count: nat, ghost cursor: nat, ghost start: State, ghost before: seq<Step>)
      returns (ghost steps: seq<Step>)
      requires Legal(1, start, before)
      requires Run(start, before) == State(written, buffer, delivered, map[0 := cursor])
      modifies this`buffer, this`written
      ensures Legal(1, start, steps)
      ensures Run(start, steps) == State(written, buffer, delivered, map[0 := cursor])
      ensures old(buffer) <= buffer && |buffer| == |old(buffer)| + count
    {
      hide Run, Legal;
      steps := before;
      var landed := 0;
      while landed < count
        invariant landed <= count && |buffer| == |old(buffer)| + landed
        invariant Legal(1, start, steps) && old(buffer) <= buffer
        invariant Run(start, steps) == State(written, buffer, delivered, map[0 := cursor])
      {
        RunPrefix(1, start, steps, Write);
        steps := steps + [Write];
        buffer := buffer + [written];
        written := written + 1;
        landed := landed + 1;
      }
    }

    /** One send, for the event at the cursor; the buffer keeps it either way. */
    method SendOne(send: Send, cursor: nat, ghost start: State, ghost before: seq<Step>)
      returns (ok: bool, ghost steps: seq<Step>)
      requires cursor < |buffer| && Legal(1, start, before)
      requires Run(start, before) == State(written, buffer, delivered, map[0 := cursor])
      modifies this
      ensures ok <==> send.outcome.Acknowledged?
      ensures steps != [] && (!ok ==> steps[|steps| - 1].SendFails?)
      ensures Legal(1, start, steps) && old(buffer) <= buffer && |buffer| >= |old(buffer)|
      ensures send.arrivals == 0 ==> buffer == old(buffer)
      ensures Run(start, steps) == State(written, buffer, delivered, if ok then map[0 := cursor + 1] else map[])
    {
      hide Run, Legal;
      var event := buffer[cursor];
      steps := LandWrites(send.arrivals, cursor, start, before);
      ok := send.outcome.Acknowledged?;
      ghost var step := if ok then SendOk(0) else SendFails(0, send.outcome.reached);
      RunPrefix(1, start, steps, step);
      steps := steps + [step];
      if ok || send.outcome.reached {
        delivered := delivered + [event];
      }
      assert map[0 := cursor] - {0} == map[];
    }

    /**
     One flush, with nothing but writes running at its suspension points: it takes only steps of the
     model, and either empties the buffer or leaves everything in it.  Sends beyond the schedule
     succeed undisturbed.
     */
    method Flush(schedule: seq<Send>) returns (ok: bool, ghost steps: seq<Step>)
      modifies this
      ensures Legal(1, old(View()), steps) && View() == Run(old(View()), steps)
      ensures ok ==> buffer == [] && (steps == [] || steps[|steps| - 1].Finish?)
      ensures !ok ==> old(buffer) <= buffer && steps != [] && steps[|steps| - 1].SendFails?
      ensures (forall k :: 0 <= k < |schedule| ==> schedule[k].outcome.Acknowledged?) ==> ok
      ensures old(buffer) == [] <==> steps == []
      ensures old(Inv(View())) ==>
                Inv(View()) && NothingLost(View()) && (ok ==> Firsts(delivered) == UpTo(written))
    {
      hide Run, Legal, Next, Enabled, Inv, NothingLost, Firsts, UpTo;
      if buffer == [] {
        FlushNotYet(View());
        FlushKeepsInv(View(), []);
        return true, [];
      }
      ghost var start := View();
      FlushBegins(start);
      steps := [Begin(0)];
      var cursor, sent := 0, 0;
      while cursor < |buffer|
        invariant 0 <= cursor <= |buffer| && sent <= |schedule| && old(buffer) <= buffer && steps != []
        invariant Legal(1, start, steps)
        invariant Run(start, steps) == State(written, buffer, delivered, map[0 := cursor])
        decreases |schedule| - sent, |buffer| - cursor
      {
        var send := Send(0, Acknowledged);
        if sent < |schedule| {
          send, sent := schedule[sent], sent + 1;
        }
        ok, steps := SendOne(send, cursor, start, steps);
        if !ok {
          FlushKeepsInv(start, steps);
          return;
        }
        cursor := cursor + 1;
      }
      FlushFinishes(start, steps, Run(start, steps));
      steps := steps + [Finish(0)];
      buffer := [];
      ok := true;
      FlushKeepsInv(start, steps);
    }

    /** A write that fills the batch flushes at once. */
    method WriteEvent(schedule: seq<Send>) returns (ghost steps: seq<Step>)
      modifies this
      ensures Legal(1, Next(old(View()), Write), steps) && View() == Run(Next(old(View()), Write), steps)
      ensures |old(buffer)| + 1 < batchSize <==> steps == []
      ensures steps == [] ==> buffer == old(buffer) + [old(written)]
      ensures old(Inv(View())) ==> Inv(View()) && NothingLost(View())
    {
      Append();
      if old(Inv(View())) {
        StepKeepsInv(old(View()), Write);
        InvLosesNothing(View());
      }
      hide Inv, NothingLost, Firsts, UpTo;
      FlushNotYet(View());
      steps := [];
      if |buffer| >= batchSize {
        var _, taken := Flush(schedule);
        steps := taken;
      }
    }
  }

  lemma FlushNotYet(s: State)
    ensures Legal(1, s, []) && Run(s, []) == s
  {
  }

  lemma FlushBegins(s: State)
    requires s.buffer != [] && s.flushes == map[]
    ensures Legal(1, s, [Begin(0)]) && Run(s, [Begin(0)]) == s.(flushes := map[0 := 0])
  {
    RunPrefix(1, s, [], Begin(0));
    assert [] + [Begin(0)] == [Begin(0)];
  }

  lemma FlushKeepsInv(s: State, steps: seq<Step>)
    requires Legal(1, s, steps)
    ensures Inv(s) ==> Inv(Run(s, steps)) && NothingLost(Run(s, steps))
    ensures Inv(s) && Run(s, steps).buffer == [] ==> Firsts(Run(s, steps).delivered) == UpTo(Run(s, steps).written)
  {
    if Inv(s) {
      RunKeepsInv(s, steps);
      InvLosesNothing(Run(s, steps));
    }
  }

  lemma FlushFinishes(start: State, steps: seq<Step>, s: State)
    requires Legal(1, start, steps) && Run(start, steps) == s
    requires 0 in s.flushes && s.flushes.Keys == {0} && s.flushes[0] >= |s.buffer|
    ensures Legal(1, start, steps + [Finish(0)])
    ensures Run(start, steps + [Finish(0)]) == State(s.written, [], s.delivered, map[])
  {
    RunPrefix(1, start, steps, Finish(0));
    assert s.flushes - {0} == map[];
  }
}
