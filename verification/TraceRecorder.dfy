/**
 The trace inspector of evm-e2e: interpreter hooks append to one flat list of events, and the hook
 that ends a call or a creation searches the list backwards for the last event of its kind that has
 no outcome yet.

 The reference is a recorder with explicit stacks of open frames, and, for whole traces, the tree of
 frames itself.
 */
module TraceRecorder {
  import opened Prelude

  // Inputs, outcomes and logs are carried, never inspected.
  type Payload = string

  datatype Snapshot = Snapshot(pc: nat, stackLen: nat, memorySize: nat)

  datatype Kind = CallKind | CreateKind

  datatype Event =
    | StepRecord(before: Snapshot, after: Option<Snapshot>, opcode: nat)
    | FrameRecord(kind: Kind, inputs: Payload, outcome: Option<Payload>)
    | LogRecord(log: Payload)

  datatype Recorder = Recorder(events: seq<Event>, stepCount: nat, callDepth: nat)

  datatype Hook =
    | Step(before: Snapshot, opcode: nat)
    | StepEnd(after: Snapshot)
    | Log(log: Payload)
    | Begin(kind: Kind, inputs: Payload)
    | End(kind: Kind, outcome: Payload)

  // ---------------------------------------------------------------- specification

  predicate IsOpen(e: Event, k: Kind) {
    e.FrameRecord? && e.kind == k && e.outcome.None?
  }

  // Index of the last open event of kind `k`, or -1.
  function LastOpen(es: seq<Event>, k: Kind): (i: int)
    ensures -1 <= i < |es|
    ensures i >= 0 ==> IsOpen(es[i], k)
    ensures forall j :: i < j < |es| ==> !IsOpen(es[j], k)
  {
    if es == [] then -1
    else if IsOpen(es[|es| - 1], k) then |es| - 1
    else LastOpen(es[..|es| - 1], k)
  }

  function Filled(e: Event, outcome: Payload): Event
    requires e.FrameRecord?
  {
    e.(outcome := Some(outcome))
  }

  function FillLast(es: seq<Event>, k: Kind, outcome: Payload): seq<Event> {
    var i := LastOpen(es, k);
    if i < 0 then es else es[i := Filled(es[i], outcome)]
  }

  function PatchStep(es: seq<Event>, after: Snapshot): seq<Event> {
    if es != [] && es[|es| - 1].StepRecord? then es[|es| - 1 := es[|es| - 1].(after := Some(after))] else es
  }

  /** The recorder after a hook; `None` is the panic of a depth counter that would go below zero. */
  function After(r: Recorder, h: Hook): Option<Recorder> {
    match h
    case Step(before, opcode) =>
      Some(r.(stepCount := r.stepCount + 1, events := r.events + [StepRecord(before, None, opcode)]))
    case StepEnd(after) => Some(r.(events := PatchStep(r.events, after)))
    case Log(log) => Some(r.(events := r.events + [LogRecord(log)]))
    case Begin(k, inputs) =>
      Some(r.(callDepth := if k.CallKind? then r.callDepth + 1 else r.callDepth,
              events := r.events + [FrameRecord(k, inputs, None)]))
    case End(k, outcome) =>
      if k.CallKind? && r.callDepth == 0 then None
      else Some(r.(callDepth := if k.CallKind? then r.callDepth - 1 else r.callDepth,
                   events := FillLast(r.events, k, outcome)))
  }

  function Run(r: Recorder, hooks: seq<Hook>): Option<Recorder>
    decreases |hooks|
  {
    if hooks == [] then Some(r)
    else
      var r' := After(r, hooks[0]);
      if r'.None? then None else Run(r'.value, hooks[1..])
  }

  const NEW := Recorder([], 0, 0)

  // ---------------------------------------------------------------- the inspector

  class TraceInspector {
    var events: seq<Event>
    var stepCount: nat
    var callDepth: nat

    constructor ()
      ensures Value() == NEW
    {
      events, stepCount, callDepth := [], 0, 0;
    }

    ghost function Value(): Recorder
      reads this
    {
      Recorder(events, stepCount, callDepth)
    }

    method OnStep(before: Snapshot, opcode: nat)
      modifies this
      ensures After(old(Value()), Step(before, opcode)) == Some(Value())
    {
      stepCount := stepCount + 1;
      events := events + [StepRecord(before, None, opcode)];
    }

    method OnStepEnd(after: Snapshot)
      modifies this`events
      ensures After(old(Value()), StepEnd(after)) == Some(Value())
    {
      if |events| > 0 && events[|events| - 1].StepRecord? {
        events := events[|events| - 1 := events[|events| - 1].(after := Some(after))];
      }
    }

    method OnLog(log: Payload)
      modifies this`events
      ensures After(old(Value()), Log(log)) == Some(Value())
    {
      events := events + [LogRecord(log)];
    }

    method OnBegin(kind: Kind, inputs: Payload)
      modifies this
      ensures After(old(Value()), Begin(kind, inputs)) == Some(Value())
    {
      if kind.CallKind? {
        callDepth := callDepth + 1;
      }
      events := events + [FrameRecord(kind, inputs, None)];
    }

    // The reverse search shared by `call_end` and `create_end`.
    method FindLastOpen(kind: Kind) returns (i: int)
      ensures i == LastOpen(events, kind)
    {
      i := |events| - 1;
      while i >= 0 && !IsOpen(events[i], kind)
        invariant -1 <= i < |events|
        invariant LastOpen(events[..i + 1], kind) == LastOpen(events, kind)
      {
        assert events[..i + 1][..i] == events[..i];
        i := i - 1;
      }
      if i >= 0 {
        assert events[..i + 1][i] == events[i];
      }
    }

    method OnEnd(kind: Kind, outcome: Payload) returns (panicked: bool)
      modifies this
      ensures panicked <==> After(old(Value()), End(kind, outcome)).None?
      ensures !panicked ==> After(old(Value()), End(kind, outcome)) == Some(Value())
      ensures panicked ==> Value() == old(Value())
    {
      if kind.CallKind? {
        if callDepth == 0 {
          return true;
        }
        callDepth := callDepth - 1;
      }
      var i := FindLastOpen(kind);
      if i >= 0 {
        events := events[i := Filled(events[i], outcome)];
      }
      panicked := false;
    }
  }

  // ---------------------------------------------------------------- explicit stacks

  // Indices of the open events of kind `k`, oldest first.
  function Open(es: seq<Event>, k: Kind): seq<nat> {
    if es == [] then []
    else Open(es[..|es| - 1], k) + if IsOpen(es[|es| - 1], k) then [|es| - 1] else []
  }

  lemma {:induction false} OpenTop(es: seq<Event>, k: Kind)
    ensures Open(es, k) == [] <==> LastOpen(es, k) == -1
    ensures Open(es, k) != [] ==> Open(es, k)[|Open(es, k)| - 1] == LastOpen(es, k)
  {
    if es != [] && !IsOpen(es[|es| - 1], k) {
      OpenTop(es[..|es| - 1], k);
    }
  }

  lemma OpenAppend(es: seq<Event>, e: Event, k: Kind)
    ensures Open(es + [e], k) == Open(es, k) + if IsOpen(e, k) then [|es|] else []
  {
    assert (es + [e])[..|es|] == es;
  }

  // Changing an event without changing whether it is open changes no stack.
  lemma {:induction false} OpenSame(es: seq<Event>, i: nat, e: Event, k: Kind)
    requires i < |es| && IsOpen(e, k) == IsOpen(es[i], k)
    ensures Open(es[i := e], k) == Open(es, k)
  {
    var es' := es[i := e];
    if i == |es| - 1 {
      assert es'[..|es| - 1] == es[..|es| - 1];
    } else {
      assert es'[..|es| - 1] == es[..|es| - 1][i := e];
      OpenSame(es[..|es| - 1], i, e, k);
    }
  }

  // Closing the last open event pops the stack.
  lemma {:induction false} OpenPop(es: seq<Event>, k: Kind, e: Event)
    requires LastOpen(es, k) >= 0 && !IsOpen(e, k)
    ensures Open(es, k) != []
    ensures Open(es[LastOpen(es, k) := e], k) == Open(es, k)[..|Open(es, k)| - 1]
  {
    var i := LastOpen(es, k);
    var init := es[..|es| - 1];
    if i == |es| - 1 {
      assert es[i := e][..|es| - 1] == init;
    } else {
      OpenPop(init, k, e);
      assert es[i := e][..|es| - 1] == init[i := e];
    }
  }

  /** A recorder that remembers which frames are open instead of searching for them. */
  datatype Reference = Reference(events: seq<Event>, stepCount: nat, calls: seq<nat>, creates: seq<nat>)

  predicate Sane(s: Reference) {
    && (forall i :: 0 <= i < |s.calls| ==> s.calls[i] < |s.events| && s.events[s.calls[i]].FrameRecord?)
    && (forall i :: 0 <= i < |s.creates| ==> s.creates[i] < |s.events| && s.events[s.creates[i]].FrameRecord?)
  }

  function Top(stack: seq<nat>): nat
    requires stack != []
  {
    stack[|stack| - 1]
  }

  function Pop(stack: seq<nat>): seq<nat>
    requires stack != []
  {
    stack[..|stack| - 1]
  }

  function ReferenceAfter(s: Reference, h: Hook): Option<Reference>
    requires Sane(s)
  {
    match h
    case Step(before, opcode) =>
      Some(s.(stepCount := s.stepCount + 1, events := s.events + [StepRecord(before, None, opcode)]))
    case StepEnd(after) => Some(s.(events := PatchStep(s.events, after)))
    case Log(log) => Some(s.(events := s.events + [LogRecord(log)]))
    case Begin(CallKind, inputs) =>
      Some(s.(calls := s.calls + [|s.events|], events := s.events + [FrameRecord(CallKind, inputs, None)]))
    case Begin(CreateKind, inputs) =>
      Some(s.(creates := s.creates + [|s.events|], events := s.events + [FrameRecord(CreateKind, inputs, None)]))
    case End(CallKind, outcome) =>
      if s.calls == [] then None
      else Some(s.(calls := Pop(s.calls), events := s.events[Top(s.calls) := Filled(s.events[Top(s.calls)], outcome)]))
    case End(CreateKind, outcome) =>
      if s.creates == [] then Some(s)
      else Some(s.(creates := Pop(s.creates),
                   events := s.events[Top(s.creates) := Filled(s.events[Top(s.creates)], outcome)]))
  }

  // The stacks of the reference are the open events of the flat list.
  ghost predicate Matches(r: Recorder, s: Reference) {
    && r.events == s.events && r.stepCount == s.stepCount
    && s.calls == Open(r.events, CallKind) && s.creates == Open(r.events, CreateKind)
    && r.callDepth == |s.calls|
  }

  lemma {:induction false} OpenIsSane(es: seq<Event>, k: Kind)
    ensures forall i :: 0 <= i < |Open(es, k)| ==> Open(es, k)[i] < |es| && IsOpen(es[Open(es, k)[i]], k)
  {
    if es == [] {
    } else {
      OpenIsSane(es[..|es| - 1], k);
    }
  }

  lemma MatchesIsSane(r: Recorder, s: Reference)
    requires Matches(r, s)
    ensures Sane(s)
  {
    OpenIsSane(r.events, CallKind);
    OpenIsSane(r.events, CreateKind);
  }

  lemma EndMatches(r: Recorder, s: Reference, k: Kind, outcome: Payload)
    requires Matches(r, s) && Sane(s)
    ensures Agree(After(r, End(k, outcome)), ReferenceAfter(s, End(k, outcome)))
  {
    var i := LastOpen(r.events, k);
    OpenTop(r.events, k);
    if i >= 0 {
      var e := Filled(r.events[i], outcome);
      OpenPop(r.events, k, e);
      OpenSame(r.events, i, e, if k.CallKind? then CreateKind else CallKind);
    }
  }

  ghost predicate Agree(r: Option<Recorder>, s: Option<Reference>) {
    (r.None? && s.None?) || (r.Some? && s.Some? && Matches(r.value, s.value))
  }

  lemma HookMatches(r: Recorder, s: Reference, h: Hook)
    requires Matches(r, s) && Sane(s)
    ensures Agree(After(r, h), ReferenceAfter(s, h))
  {
    match h
    case Step(before, opcode) =>
      OpenAppend(r.events, StepRecord(before, None, opcode), CallKind);
      OpenAppend(r.events, StepRecord(before, None, opcode), CreateKind);
    case StepEnd(after) =>
      if r.events != [] && r.events[|r.events| - 1].StepRecord? {
        var i := |r.events| - 1;
        OpenSame(r.events, i, r.events[i].(after := Some(after)), CallKind);
        OpenSame(r.events, i, r.events[i].(after := Some(after)), CreateKind);
      }
    case Log(log) =>
      OpenAppend(r.events, LogRecord(log), CallKind);
      OpenAppend(r.events, LogRecord(log), CreateKind);
    case Begin(k, inputs) =>
      OpenAppend(r.events, FrameRecord(k, inputs, None), CallKind);
      OpenAppend(r.events, FrameRecord(k, inputs, None), CreateKind);
    case End(k, outcome) =>
      EndMatches(r, s, k, outcome);
  }

  ghost predicate RefinesFrom(r: Recorder, s: Reference, hooks: seq<Hook>)
    decreases |hooks|
  {
    Matches(r, s) && Sane(s) &&
    (hooks != [] ==>
      var r', s' := After(r, hooks[0]), ReferenceAfter(s, hooks[0]);
      Agree(r', s') && (r'.Some? ==> RefinesFrom(r'.value, s'.value, hooks[1..])))
  }

  lemma {:induction false} Refines(r: Recorder, s: Reference, hooks: seq<Hook>)
    requires Matches(r, s)
    ensures RefinesFrom(r, s, hooks)
    decreases |hooks|
  {
    MatchesIsSane(r, s);
    if hooks == [] {
    } else {
      HookMatches(r, s, hooks[0]);
      var r', s' := After(r, hooks[0]), ReferenceAfter(s, hooks[0]);
      if r'.Some? {
        Refines(r'.value, s'.value, hooks[1..]);
      }
    }
  }

  /**
   On every sequence of hooks, well nested or not, searching backwards finds exactly the frame that a
   stack would have on top: the two recorders agree after every hook.
   */
  lemma SearchIsAStack(hooks: seq<Hook>)
    ensures RefinesFrom(NEW, Reference([], 0, [], []), hooks)
  {
    Refines(NEW, Reference([], 0, [], []), hooks);
  }

  // ---------------------------------------------------------------- the depth counter

  function Delta(h: Hook): int {
    match h
    case Begin(CallKind, _) => 1
    case End(CallKind, _) => -1
    case _ => 0
  }

  // Calls begun minus calls ended.
  function Surplus(hooks: seq<Hook>): int {
    if hooks == [] then 0 else Delta(hooks[0]) + Surplus(hooks[1..])
  }

  predicate NeverNegative(depth: int, hooks: seq<Hook>) {
    forall k :: 0 <= k <= |hooks| ==> depth + Surplus(hooks[..k]) >= 0
  }

  lemma NeverNegativeStep(depth: int, hooks: seq<Hook>)
    requires hooks != []
    ensures NeverNegative(depth, hooks) <==> depth >= 0 && NeverNegative(depth + Delta(hooks[0]), hooks[1..])
  {
    var rest := hooks[1..];
    forall k | 0 <= k <= |rest| ensures Surplus(hooks[..k + 1]) == Delta(hooks[0]) + Surplus(rest[..k]) {
      assert hooks[..k + 1][1..] == rest[..k];
    }
    if depth >= 0 && NeverNegative(depth + Delta(hooks[0]), rest) {
      forall k | 0 <= k <= |hooks| ensures depth + Surplus(hooks[..k]) >= 0 {
        if k > 0 { assert depth + Delta(hooks[0]) + Surplus(rest[..k - 1]) >= 0; }
      }
    }
    if NeverNegative(depth, hooks) {
      assert depth + Surplus(hooks[..0]) >= 0;
      forall k | 0 <= k <= |rest| ensures depth + Delta(hooks[0]) + Surplus(rest[..k]) >= 0 {
        assert depth + Surplus(hooks[..k + 1]) >= 0;
      }
    }
  }

  lemma {:induction false} DepthFrom(r: Recorder, hooks: seq<Hook>)
    ensures Run(r, hooks).Some? <==> NeverNegative(r.callDepth, hooks)
    ensures Run(r, hooks).Some? ==> Run(r, hooks).value.callDepth == r.callDepth + Surplus(hooks)
    decreases |hooks|
  {
    if hooks == [] {
    } else {
      NeverNegativeStep(r.callDepth, hooks);
      var r' := After(r, hooks[0]);
      if r'.Some? {
        DepthFrom(r'.value, hooks[1..]);
      } else {
        assert hooks[1..][..0] == [];
        assert r.callDepth + Delta(hooks[0]) + Surplus(hooks[1..][..0]) == -1;
      }
    }
  }

  lemma {:induction false} MatchesAlong(r: Recorder, s: Reference, hooks: seq<Hook>) returns (s': Reference)
    requires Matches(r, s) && Run(r, hooks).Some?
    ensures Matches(Run(r, hooks).value, s')
    decreases |hooks|
  {
    s' := s;
    if hooks == [] {
    } else {
      MatchesIsSane(r, s);
      HookMatches(r, s, hooks[0]);
      s' := MatchesAlong(After(r, hooks[0]).value, ReferenceAfter(s, hooks[0]).value, hooks[1..]);
    }
  }

  /**
   The depth counter underflows exactly when some prefix ends more calls than it began; otherwise it
   is the number of calls in progress and of call events without an outcome.
   */
  lemma DepthCountsOpenCalls(hooks: seq<Hook>)
    ensures Run(NEW, hooks).Some? <==> NeverNegative(0, hooks)
    ensures Run(NEW, hooks).Some? ==>
      Run(NEW, hooks).value.callDepth == Surplus(hooks) == |Open(Run(NEW, hooks).value.events, CallKind)|
  {
    DepthFrom(NEW, hooks);
    if Run(NEW, hooks).Some? {
      var s := MatchesAlong(NEW, Reference([], 0, [], []), hooks);
    }
  }

  // The recorder of a build without overflow checks: the depth wraps around and the hook goes on.
  function AfterUnchecked(r: Recorder, h: Hook): Recorder {
    if h.End? && h.kind.CallKind? && r.callDepth == 0
    then r.(callDepth := 0xffff_ffff_ffff_ffff, events := FillLast(r.events, CallKind, h.outcome))
    else After(r, h).value
  }

  function RunUnchecked(r: Recorder, hooks: seq<Hook>): Recorder
    decreases |hooks|
  {
    if hooks == [] then r else RunUnchecked(AfterUnchecked(r, hooks[0]), hooks[1..])
  }

  lemma {:induction false} UncheckedFrom(r: Recorder, hooks: seq<Hook>)
    requires Run(r, hooks).Some?
    ensures RunUnchecked(r, hooks) == Run(r, hooks).value
    decreases |hooks|
  {
    if hooks == [] {
    } else {
      UncheckedFrom(After(r, hooks[0]).value, hooks[1..]);
    }
  }

  /** Both builds record the same trace unless some prefix ends more calls than it began. */
  lemma UncheckedBuildAgrees(hooks: seq<Hook>)
    requires NeverNegative(0, hooks)
    ensures Run(NEW, hooks) == Some(RunUnchecked(NEW, hooks))
  {
    DepthFrom(NEW, hooks);
    UncheckedFrom(NEW, hooks);
  }

  // ---------------------------------------------------------------- whole traces

  /**
   What the interpreter did: a step, possibly logging before it ends, or a frame with everything
   that happened inside it.
   */
  datatype Item =
    | Instruction(before: Snapshot, opcode: nat, logs: seq<Payload>, after: Snapshot)
    | Frame(kind: Kind, inputs: Payload, body: seq<Item>, outcome: Payload)

  function LogHooks(logs: seq<Payload>): seq<Hook> {
    seq(|logs|, i requires 0 <= i < |logs| => Log(logs[i]))
  }

  function LogEvents(logs: seq<Payload>): seq<Event> {
    seq(|logs|, i requires 0 <= i < |logs| => LogRecord(logs[i]))
  }

  // The hooks the interpreter calls.
  function Hooks(items: seq<Item>): seq<Hook>
    decreases items, 0
  {
    if items == [] then [] else ItemHooks(items[0]) + Hooks(items[1..])
  }

  function ItemHooks(item: Item): seq<Hook>
    decreases item, 1
  {
    match item
    case Instruction(before, opcode, logs, after) => [Step(before, opcode)] + LogHooks(logs) + [StepEnd(after)]
    case Frame(k, inputs, body, outcome) => [Begin(k, inputs)] + Hooks(body) + [End(k, outcome)]
  }

  // The events a reader of the trace expects: pre-order, every frame with its own outcome.
  function Flatten(items: seq<Item>): seq<Event>
    decreases items, 0
  {
    if items == [] then [] else ItemEvents(items[0]) + Flatten(items[1..])
  }

  function ItemEvents(item: Item): seq<Event>
    decreases item, 1
  {
    match item
    case Instruction(before, opcode, logs, after) =>
      [StepRecord(before, if logs == [] then Some(after) else None, opcode)] + LogEvents(logs)
    case Frame(k, inputs, body, outcome) => [FrameRecord(k, inputs, Some(outcome))] + Flatten(body)
  }

  function Steps(items: seq<Item>): nat
    decreases items, 0
  {
    if items == [] then 0 else ItemSteps(items[0]) + Steps(items[1..])
  }

  function ItemSteps(item: Item): nat
    decreases item, 1
  {
    match item
    case Instruction(_, _, _, _) => 1
    case Frame(_, _, body, _) => Steps(body)
  }

  function Extended(r: Recorder, es: seq<Event>, steps: nat): Recorder {
    r.(events := r.events + es, stepCount := r.stepCount + steps)
  }

  lemma {:induction false} RunAppend(r: Recorder, h1: seq<Hook>, h2: seq<Hook>)
    requires Run(r, h1).Some?
    ensures Run(r, h1 + h2) == Run(Run(r, h1).value, h2)
    decreases |h1|
  {
    if h1 == [] {
      assert h1 + h2 == h2;
    } else {
      RunAppend(After(r, h1[0]).value, h1[1..], h2);
      assert (h1 + h2)[1..] == h1[1..] + h2;
    }
  }

  lemma RunOne(r: Recorder, h: Hook)
    requires After(r, h).Some?
    ensures Run(r, [h]) == After(r, h)
  {
    assert Run(After(r, h).value, [h][1..]) == After(r, h);
  }

  lemma {:induction false} RunLogs(r: Recorder, logs: seq<Payload>)
    ensures Run(r, LogHooks(logs)) == Some(Extended(r, LogEvents(logs), 0))
    decreases |logs|
  {
    if logs == [] {
      assert r.events + [] == r.events;
    } else {
      var r' := After(r, Log(logs[0])).value;
      RunLogs(r', logs[1..]);
      assert LogHooks(logs)[1..] == LogHooks(logs[1..]);
      assert r'.events + LogEvents(logs[1..]) == r.events + LogEvents(logs);
    }
  }

  lemma RunInstruction(r: Recorder, item: Item)
    requires item.Instruction?
    ensures Run(r, ItemHooks(item)) == Some(Extended(r, ItemEvents(item), 1))
  {
    var step, logs, end := Step(item.before, item.opcode), LogHooks(item.logs), StepEnd(item.after);
    var r1 := After(r, step).value;
    var r2 := Extended(r1, LogEvents(item.logs), 0);
    RunOne(r, step);
    RunAppend(r, [step], logs);
    RunLogs(r1, item.logs);
    RunAppend(r, [step] + logs, [end]);
    RunOne(r2, end);
    if item.logs == [] {
      assert r2.events == r1.events;
      assert PatchStep(r1.events, item.after) == r.events + ItemEvents(item);
    } else {
      assert PatchStep(r2.events, item.after) == r2.events == r.events + ItemEvents(item);
    }
  }

  lemma {:induction false} FlattenIsClosed(items: seq<Item>, k: Kind)
    ensures forall i :: 0 <= i < |Flatten(items)| ==> !IsOpen(Flatten(items)[i], k)
    decreases items, 0
  {
    if items == [] {
    } else {
      ItemEventsAreClosed(items[0], k);
      FlattenIsClosed(items[1..], k);
    }
  }

  lemma {:induction false} ItemEventsAreClosed(item: Item, k: Kind)
    ensures forall i :: 0 <= i < |ItemEvents(item)| ==> !IsOpen(ItemEvents(item)[i], k)
    decreases item, 1
  {
    if item.Frame? { FlattenIsClosed(item.body, k); }
  }

  // The frame being ended is found behind everything that happened inside it.
  lemma CloseFrame(es: seq<Event>, k: Kind, inputs: Payload, inside: seq<Event>, outcome: Payload)
    requires forall i :: 0 <= i < |inside| ==> !IsOpen(inside[i], k)
    ensures FillLast(es + [FrameRecord(k, inputs, None)] + inside, k, outcome)
         == es + ([FrameRecord(k, inputs, Some(outcome))] + inside)
  {
    var all := es + [FrameRecord(k, inputs, None)] + inside;
    assert forall j :: |es| < j < |all| ==> all[j] == inside[j - |es| - 1];
    assert IsOpen(all[|es|], k);
    assert LastOpen(all, k) == |es|;
  }

  lemma {:induction false} RunFrame(r: Recorder, item: Item)
    requires item.Frame?
    ensures Run(r, ItemHooks(item)) == Some(Extended(r, ItemEvents(item), ItemSteps(item)))
    decreases item, 1
  {
    var begin, end := Begin(item.kind, item.inputs), End(item.kind, item.outcome);
    var r1 := After(r, begin).value;
    var r2 := Extended(r1, Flatten(item.body), Steps(item.body));
    RunOne(r, begin);
    RunAppend(r, [begin], Hooks(item.body));
    RunTrace(r1, item.body);
    RunAppend(r, [begin] + Hooks(item.body), [end]);
    RunOne(r2, end);
    FlattenIsClosed(item.body, item.kind);
    CloseFrame(r.events, item.kind, item.inputs, Flatten(item.body), item.outcome);
  }

  lemma {:induction false} RunItem(r: Recorder, item: Item)
    ensures Run(r, ItemHooks(item)) == Some(Extended(r, ItemEvents(item), ItemSteps(item)))
    decreases item, 2
  {
    if item.Instruction? { RunInstruction(r, item); } else { RunFrame(r, item); }
  }

  lemma ExtendTwice(r: Recorder, es: seq<Event>, m: nat, fs: seq<Event>, n: nat)
    ensures Extended(Extended(r, es, m), fs, n) == Extended(r, es + fs, m + n)
  {
    assert r.events + es + fs == r.events + (es + fs);
  }

  lemma {:induction false} RunTrace(r: Recorder, items: seq<Item>)
    ensures Run(r, Hooks(items)) == Some(Extended(r, Flatten(items), Steps(items)))
    decreases items, 0
  {
    if items == [] {
      assert r.events + [] == r.events;
    } else {
      var item, rest := items[0], items[1..];
      RunItem(r, item);
      RunAppend(r, ItemHooks(item), Hooks(rest));
      RunTrace(Extended(r, ItemEvents(item), ItemSteps(item)), rest);
      ExtendTwice(r, ItemEvents(item), ItemSteps(item), Flatten(rest), Steps(rest));
    }
  }

  /**
   For every tree of frames, the hooks leave exactly its pre-order list of events, each frame with
   its own outcome, the depth back at zero and nothing open.
   */
  lemma TraceIsTheTree(items: seq<Item>)
    ensures Run(NEW, Hooks(items)) == Some(Recorder(Flatten(items), Steps(items), 0))
    ensures forall i, k :: 0 <= i < |Flatten(items)| ==> !IsOpen(Flatten(items)[i], k)
  {
    RunTrace(NEW, items);
    assert [] + Flatten(items) == Flatten(items);
    FlattenIsClosed(items, CallKind);
    FlattenIsClosed(items, CreateKind);
  }

  // ---------------------------------------------------------------- any well-nested sequence

  function Frames(es: seq<Event>): seq<Event> {
    if es == [] then []
    else if es[|es| - 1].FrameRecord? then Frames(es[..|es| - 1]) + [es[|es| - 1]]
    else Frames(es[..|es| - 1])
  }

  // The hooks that begin and end frames.
  function Framing(hooks: seq<Hook>): seq<Hook> {
    if hooks == [] then []
    else if hooks[0].Begin? || hooks[0].End? then [hooks[0]] + Framing(hooks[1..])
    else Framing(hooks[1..])
  }

  lemma FramesAppend(es: seq<Event>, e: Event)
    ensures Frames(es + [e]) == if e.FrameRecord? then Frames(es) + [e] else Frames(es)
  {
    assert (es + [e])[..|es|] == es;
  }

  lemma FramesPatch(es: seq<Event>, after: Snapshot)
    ensures Frames(PatchStep(es, after)) == Frames(es)
  {
    if es != [] && es[|es| - 1].StepRecord? {
      assert PatchStep(es, after)[..|es| - 1] == es[..|es| - 1];
    }
  }

  // Filling the last open event, on a list that ends in something else.
  lemma FillBefore(es: seq<Event>, e: Event, k: Kind, outcome: Payload)
    requires !IsOpen(e, k)
    ensures FillLast(es + [e], k, outcome) == FillLast(es, k, outcome) + [e]
  {
    assert (es + [e])[..|es|] == es;
  }

  lemma FillAtEnd(es: seq<Event>, e: Event, k: Kind, outcome: Payload)
    requires IsOpen(e, k)
    ensures FillLast(es + [e], k, outcome) == es + [Filled(e, outcome)]
  {}

  // The search does not see steps and logs.
  lemma {:induction false} FramesFill(es: seq<Event>, k: Kind, outcome: Payload)
    ensures Frames(FillLast(es, k, outcome)) == FillLast(Frames(es), k, outcome)
  {
    if es == [] {
    } else {
      var init, e := es[..|es| - 1], es[|es| - 1];
      assert es == init + [e];
      if IsOpen(e, k) {
        FillAtEnd(init, e, k, outcome);
        FillAtEnd(Frames(init), e, k, outcome);
        FramesAppend(init, Filled(e, outcome));
      } else {
        FramesFill(init, k, outcome);
        FillBefore(init, e, k, outcome);
        FramesAppend(FillLast(init, k, outcome), e);
        if e.FrameRecord? { FillBefore(Frames(init), e, k, outcome); }
      }
    }
  }

  // `s` is `r` without its steps and logs.
  ghost predicate Projects(r: Recorder, s: Recorder) {
    s.events == Frames(r.events) && s.callDepth == r.callDepth
  }

  lemma HookProjects(r: Recorder, s: Recorder, h: Hook)
    requires Projects(r, s)
    ensures if h.Begin? || h.End?
            then var r', s' := After(r, h), After(s, h);
                 (r'.None? && s'.None?) || (r'.Some? && s'.Some? && Projects(r'.value, s'.value))
            else After(r, h).Some? && Projects(After(r, h).value, s)
  {
    match h
    case Step(before, opcode) => FramesAppend(r.events, StepRecord(before, None, opcode));
    case StepEnd(after) => FramesPatch(r.events, after);
    case Log(log) => FramesAppend(r.events, LogRecord(log));
    case Begin(k, inputs) => FramesAppend(r.events, FrameRecord(k, inputs, None));
    case End(k, outcome) => FramesFill(r.events, k, outcome);
  }

  lemma {:induction false} RunProjects(r: Recorder, s: Recorder, hooks: seq<Hook>)
    requires Projects(r, s)
    ensures var r', s' := Run(r, hooks), Run(s, Framing(hooks));
            (r'.None? && s'.None?) || (r'.Some? && s'.Some? && Projects(r'.value, s'.value))
    decreases |hooks|
  {
    if hooks == [] {
    } else {
      var h, rest := hooks[0], hooks[1..];
      HookProjects(r, s, h);
      if h.Begin? || h.End? {
        assert Framing(hooks)[1..] == Framing(rest);
        if After(r, h).Some? { RunProjects(After(r, h).value, After(s, h).value, rest); }
      } else {
        assert Framing(hooks) == Framing(rest);
        RunProjects(After(r, h).value, s, rest);
      }
    }
  }

  /**
   Every sequence of hooks whose begin and end hooks nest like the frames of a tree, with steps, step
   ends and logs anywhere in between: each end fills its own begin, the frames in the trace are the
   pre-order list of the tree, the depth never underflows and ends at zero, and nothing stays open.
   */
  lemma NestedHooksPairUp(hooks: seq<Hook>, items: seq<Item>)
    requires Framing(hooks) == Hooks(items)
    ensures Run(NEW, hooks).Some?
    ensures var r := Run(NEW, hooks).value;
            && Frames(r.events) == Flatten(items) && r.callDepth == 0
            && forall i, k :: 0 <= i < |Flatten(items)| ==> !IsOpen(Flatten(items)[i], k)
  {
    RunProjects(NEW, NEW, hooks);
    TraceIsTheTree(items);
  }

  // An event as the hook that appended it left it.
  function Bare(e: Event): Event {
    match e
    case StepRecord(_, _, _) => e.(after := None)
    case FrameRecord(_, _, _) => e.(outcome := None)
    case LogRecord(_) => e
  }

  function Appended(h: Hook): seq<Event> {
    match h
    case Step(before, opcode) => [StepRecord(before, None, opcode)]
    case Log(log) => [LogRecord(log)]
    case Begin(k, inputs) => [FrameRecord(k, inputs, None)]
    case _ => []
  }

  function AllAppended(hooks: seq<Hook>): seq<Event> {
    if hooks == [] then [] else Appended(hooks[0]) + AllAppended(hooks[1..])
  }

  function BareEvents(es: seq<Event>): seq<Event> {
    seq(|es|, i requires 0 <= i < |es| => Bare(es[i]))
  }

  lemma HookAppends(r: Recorder, h: Hook)
    requires After(r, h).Some?
    ensures BareEvents(After(r, h).value.events) == BareEvents(r.events) + Appended(h)
  {}

  lemma Reassociate(a: seq<Event>, b: seq<Event>, c: seq<Event>)
    ensures a + b + c == a + (b + c)
  {}

  /** Nothing is ever lost, moved or invented: one event per step, log and begin, in order. */
  lemma {:induction false} EventsFollowTheHooks(r: Recorder, hooks: seq<Hook>)
    requires Run(r, hooks).Some?
    ensures BareEvents(Run(r, hooks).value.events) == BareEvents(r.events) + AllAppended(hooks)
    decreases |hooks|
  {
    if hooks == [] {
    } else {
      HookAppends(r, hooks[0]);
      EventsFollowTheHooks(After(r, hooks[0]).value, hooks[1..]);
      Reassociate(BareEvents(r.events), Appended(hooks[0]), AllAppended(hooks[1..]));
    }
  }

  // ---------------------------------------------------------------- steps and their ends

  predicate StepsComplete(es: seq<Event>) {
    forall i :: 0 <= i < |es| && es[i].StepRecord? ==> es[i].after.Some?
  }

  // A step end comes before the next step, log or begin.
  predicate Closes(hooks: seq<Hook>) {
    hooks != [] && (hooks[0].StepEnd? || (hooks[0].End? && Closes(hooks[1..])))
  }

  predicate EveryStepCloses(hooks: seq<Hook>) {
    forall i :: 0 <= i < |hooks| && hooks[i].Step? ==> Closes(hooks[i + 1..])
  }

  predicate Pending(es: seq<Event>) {
    es != [] && es[|es| - 1].StepRecord? && es[|es| - 1].after.None?
  }

  // Every step but the last event is complete.
  predicate Settled(es: seq<Event>) {
    forall i :: 0 <= i < |es| - 1 && es[i].StepRecord? ==> es[i].after.Some?
  }

  lemma EveryStepClosesFromFront(hooks: seq<Hook>)
    requires hooks != []
    ensures EveryStepCloses(hooks) <==> (hooks[0].Step? ==> Closes(hooks[1..])) && EveryStepCloses(hooks[1..])
  {
    var rest := hooks[1..];
    assert forall i :: 0 <= i < |rest| ==> rest[i] == hooks[i + 1] && rest[i + 1..] == hooks[i + 2..];
    if EveryStepCloses(rest) && (hooks[0].Step? ==> Closes(rest)) {
      forall i | 0 <= i < |hooks| && hooks[i].Step? ensures Closes(hooks[i + 1..]) {
        if i > 0 { assert rest[i - 1].Step? && rest[i..] == hooks[i + 1..]; }
      }
    }
    if EveryStepCloses(hooks) {
      forall i | 0 <= i < |rest| && rest[i].Step? ensures Closes(rest[i + 1..]) {
        assert hooks[i + 1].Step? && hooks[i + 2..] == rest[i + 1..];
      }
    }
  }

  lemma AppendSettles(es: seq<Event>, e: Event)
    ensures Settled(es + [e]) <==> Settled(es) && !Pending(es)
  {
    if Settled(es + [e]) {
      assert forall i :: 0 <= i < |es| ==> (es + [e])[i] == es[i];
    }
  }

  lemma FillKeepsSteps(es: seq<Event>, k: Kind, outcome: Payload)
    ensures var es' := FillLast(es, k, outcome);
            (Settled(es') <==> Settled(es)) && (Pending(es') <==> Pending(es))
  {
    var es' := FillLast(es, k, outcome);
    assert |es'| == |es|;
    assert forall i :: 0 <= i < |es| ==> (es[i].StepRecord? || es'[i].StepRecord? ==> es[i] == es'[i]);
  }

  lemma PatchSettles(es: seq<Event>, after: Snapshot)
    ensures var es' := PatchStep(es, after);
            (Settled(es') <==> Settled(es)) && !Pending(es')
  {
    var es' := PatchStep(es, after);
    assert |es'| == |es| && forall i :: 0 <= i < |es| - 1 ==> es'[i] == es[i];
  }

  lemma HookSettles(r: Recorder, h: Hook)
    requires After(r, h).Some?
    ensures var es, es' := r.events, After(r, h).value.events;
            match h
            case StepEnd(_) => (Settled(es') <==> Settled(es)) && !Pending(es')
            case End(_, _) => (Settled(es') <==> Settled(es)) && (Pending(es') <==> Pending(es))
            case _ => (Settled(es') <==> Settled(es) && !Pending(es)) && (Pending(es') <==> h.Step?)
  {
    match h
    case StepEnd(after) => PatchSettles(r.events, after);
    case End(k, outcome) => FillKeepsSteps(r.events, k, outcome);
    case _ => AppendSettles(r.events, Appended(h)[0]);
  }

  lemma {:induction false} CompleteFrom(r: Recorder, hooks: seq<Hook>)
    requires Run(r, hooks).Some?
    ensures StepsComplete(Run(r, hooks).value.events) <==>
      Settled(r.events) && (Pending(r.events) ==> Closes(hooks)) && EveryStepCloses(hooks)
    decreases |hooks|
  {
    if hooks == [] {
      assert StepsComplete(r.events) <==> Settled(r.events) && !Pending(r.events);
    } else {
      HookSettles(r, hooks[0]);
      EveryStepClosesFromFront(hooks);
      CompleteFrom(After(r, hooks[0]).value, hooks[1..]);
    }
  }

  /**
   "Every step record gets its after-state" is not true of every trace: a step hides behind whatever
   is recorded before it ends. For every sequence of hooks it is true exactly when every step is ended
   before the next step, log or begin.
   */
  lemma StepsCompleteIffEnded(hooks: seq<Hook>)
    requires Run(NEW, hooks).Some?
    ensures StepsComplete(Run(NEW, hooks).value.events) <==> EveryStepCloses(hooks)
  {
    CompleteFrom(NEW, hooks);
  }

  /** An instruction that logs loses its after-state. */
  lemma LoggingStepStaysIncomplete(before: Snapshot, opcode: nat, log: Payload, after: Snapshot)
    ensures var hooks := [Step(before, opcode), Log(log), StepEnd(after)];
            Run(NEW, hooks).Some? && !StepsComplete(Run(NEW, hooks).value.events)
  {
    var item := Instruction(before, opcode, [log], after);
    RunInstruction(NEW, item);
    assert ItemHooks(item) == [Step(before, opcode), Log(log), StepEnd(after)];
    var r := Run(NEW, ItemHooks(item)).value;
    assert r.events[0] == StepRecord(before, None, opcode);
  }
}
