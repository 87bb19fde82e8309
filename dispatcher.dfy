/**
 * The dispatcher of `internal/dispatcher.ts`, with the state stream of
 * `internal/state-stream.ts` as one of its fields. A dispatch runs the
 * plugin chain; its terminal step commits the state the chain produced if
 * it differs from the state before the chain, registers a listener for the
 * action's result and pushes the Dispatched context onto the action log.
 * Result contexts coming back from the state registry are matched to the
 * waiting listeners by action instance; each listener takes one result,
 * copies it onto the action log, and answers its caller.
 *
 * The pure `Bus` transitions below are the specification; the class
 * `Dispatcher` carries out the same steps on its fields.
 */
module Dispatcher {
  import opened Wrappers
  import opened Json
  import opened Symbols
  import opened Completion

  /**
   * What a dispatch's caller receives: the state, an error, completion
   * without a value, or nothing ever (no result context arrives for the
   * action, so its listener waits for good).
   */
  datatype Answer = Yields(value: Value) | Fails(error: Value) | Completes | Pending

  /** An answer that settles without a value decides a join as soon as it settles. */
  predicate Decides(a: Answer) {
    a.Fails? || a.Completes?
  }

  /**
   * A plugin: its name, the state and action it passes on to `next`, and
   * whether it calls `next` at all.
   */
  datatype Plugin = Plugin(name: string, mapState: Value -> Value, mapAction: ActionRef -> ActionRef, callsNext: bool)

  /** What runs during a dispatch, in order: plugin code before `next`, the terminal step, plugin code on the result. */
  datatype TraceEvent = Before(plugin: string) | TerminalRan | After(plugin: string)

  /**
   * The state and action the terminal step receives after the plugins ran
   * in list order, or `None` when a plugin does not call `next`.
   */
  function ChainArgs(plugins: seq<Plugin>, state: Value, action: ActionRef): Option<(Value, ActionRef)>
    decreases |plugins|
  {
    if plugins == [] then Some((state, action))
    else if !plugins[0].callsNext then None
    else ChainArgs(plugins[1..], plugins[0].mapState(state), plugins[0].mapAction(action))
  }

  /**
   * The order in which plugin code runs: each plugin's code before `next`
   * in list order, the terminal step if reached, then, when the result
   * emits, each plugin's code on the result in reverse order.
   */
  function Trace(plugins: seq<Plugin>, emits: bool): seq<TraceEvent>
    decreases |plugins|
  {
    if plugins == [] then [TerminalRan]
    else if !plugins[0].callsNext then [Before(plugins[0].name)]
    else
      [Before(plugins[0].name)] + Trace(plugins[1..], emits) + (if emits then [After(plugins[0].name)] else [])
  }

  /** Every plugin calls `next`. */
  predicate AllCallNext(plugins: seq<Plugin>) {
    forall i :: 0 <= i < |plugins| ==> plugins[i].callsNext
  }

  /** The names of `plugins`, in list order. */
  function Names(plugins: seq<Plugin>): (r: seq<string>)
    ensures |r| == |plugins| && forall i :: 0 <= i < |r| ==> r[i] == plugins[i].name
  {
    seq(|plugins|, i requires 0 <= i < |plugins| => plugins[i].name)
  }

  /** `names` reversed. */
  function Reversed(names: seq<string>): (r: seq<string>)
    ensures |r| == |names| && forall i :: 0 <= i < |r| ==> r[i] == names[|names| - 1 - i]
    decreases |names|
  {
    if names == [] then [] else Reversed(names[1..]) + [names[0]]
  }

  /** The terminal step runs exactly when every plugin calls `next`. */
  lemma {:induction false} TerminalRunsIff(plugins: seq<Plugin>, state: Value, action: ActionRef, emits: bool)
    ensures ChainArgs(plugins, state, action).Some? <==> AllCallNext(plugins)
    ensures TerminalRan in Trace(plugins, emits) <==> AllCallNext(plugins)
    decreases |plugins|
  {
    if plugins != [] && plugins[0].callsNext {
      TerminalRunsIff(plugins[1..], plugins[0].mapState(state), plugins[0].mapAction(action), emits);
      assert forall i :: 1 <= i < |plugins| ==> plugins[1..][i - 1] == plugins[i];
    }
  }

  /**
   * With every plugin calling `next`, plugin code runs in list order before
   * the terminal step and, if the result emits, in reverse order after it.
   */
  lemma {:induction false} PluginOrder(plugins: seq<Plugin>, emits: bool)
    requires AllCallNext(plugins)
    ensures Trace(plugins, emits) ==
      Befores(Names(plugins)) + [TerminalRan] + (if emits then Afters(Reversed(Names(plugins))) else [])
    decreases |plugins|
  {
    if plugins != [] {
      var rest := plugins[1..];
      PluginOrder(rest, emits);
      var n := Names(plugins);
      var n' := Names(rest);
      assert n' == n[1..];
      var tail := if emits then [After(n[0])] else [];
      var late' := if emits then Afters(Reversed(n')) else [];
      var late := if emits then Afters(Reversed(n)) else [];
      assert Befores(n) == [Before(n[0])] + Befores(n');
      assert Trace(plugins, emits) == [Before(n[0])] + Trace(rest, emits) + tail;
      assert Trace(rest, emits) == Befores(n') + [TerminalRan] + late';
      if emits {
        assert Reversed(n) == Reversed(n') + [n[0]];
        AftersConcat(Reversed(n'), [n[0]]);
        assert Afters([n[0]]) == tail;
      }
      assert late == late' + tail;
      Regroup([Before(n[0])], Befores(n'), [TerminalRan], late', tail);
    } else {
      assert Names(plugins) == [];
    }
  }

  /** Regrouping a concatenation of five pieces. */
  lemma Regroup<T>(a: seq<T>, b: seq<T>, c: seq<T>, d: seq<T>, e: seq<T>)
    ensures a + (b + c + d) + e == (a + b) + c + (d + e)
  {
  }

  /** A `Before` event per name. */
  function Befores(names: seq<string>): seq<TraceEvent>
    decreases |names|
  {
    if names == [] then [] else [Before(names[0])] + Befores(names[1..])
  }

  /** An `After` event per name. */
  function Afters(names: seq<string>): seq<TraceEvent>
    decreases |names|
  {
    if names == [] then [] else [After(names[0])] + Afters(names[1..])
  }

  lemma {:induction false} AftersConcat(a: seq<string>, b: seq<string>)
    ensures Afters(a + b) == Afters(a) + Afters(b)
    decreases |a|
  {
    if a == [] {
      assert a + b == b;
    } else {
      assert (a + b)[0] == a[0];
      assert (a + b)[1..] == a[1..] + b;
      AftersConcat(a[1..], b);
    }
  }

  /**
   * A single logging plugin that calls `next` and logs on the result: for a
   * successful dispatch its code runs twice, once on each side of the
   * terminal step.
   */
  lemma LoggingPluginRunsTwice(p: Plugin)
    requires p.callsNext
    ensures Trace([p], true) == [Before(p.name), TerminalRan, After(p.name)]
  {
    assert [p][1..] == [];
  }

  /**
   * The answer a dispatch's caller gets from its result context: the state
   * at that moment on success, the context's error on error, completion
   * without a value otherwise.
   */
  function CallerAnswer(ctx: ActionContext, current: Value): (r: Answer)
    ensures r.Yields? <==> ctx.status == Successful
    ensures r.Yields? ==> r.value == current
    ensures r.Fails? <==> ctx.status == Errored
    ensures r.Fails? ==> r.error == ctx.error
    ensures !r.Pending?
  {
    match ctx.status
    case Successful => Yields(current)
    case Errored => Fails(ctx.error)
    case _ => Completes
  }

  /** The dispatcher's observable state: the state stream, the action log and the waiting result listeners. */
  datatype Bus = Bus(state: Value, history: seq<Value>, log: seq<ActionContext>, pending: seq<ActionRef>)

  /** The state stream starts at `{}`; nothing is logged or waiting. */
  function Initial(): Bus {
    Bus(Obj(map[]), [Obj(map[])], [], [])
  }

  /** Whether `c` concerns instance `id` and is (or is not) a Dispatched context. */
  predicate Concerns(c: ActionContext, id: nat, dispatched: bool) {
    c.action.id == id && (c.status == Dispatched) == dispatched
  }

  /** How many contexts of `log` concern instance `id` with the given kind. */
  function Count(log: seq<ActionContext>, id: nat, dispatched: bool): nat
    decreases |log|
  {
    if log == [] then 0
    else Count(log[..|log| - 1], id, dispatched) + (if Concerns(log[|log| - 1], id, dispatched) then 1 else 0)
  }

  /** How many listeners wait for instance `id`. */
  function Waiting(pending: seq<ActionRef>, id: nat): nat
    decreases |pending|
  {
    if pending == [] then 0
    else Waiting(pending[..|pending| - 1], id) + (if pending[|pending| - 1].id == id then 1 else 0)
  }

  /** The listeners that do not wait for instance `id`, in order. */
  function Without(pending: seq<ActionRef>, id: nat): seq<ActionRef>
    decreases |pending|
  {
    if pending == [] then []
    else Without(pending[..|pending| - 1], id) + (if pending[|pending| - 1].id == id then [] else [pending[|pending| - 1]])
  }

  /** `n` copies of `x`. */
  function Copies<T>(x: T, n: nat): (r: seq<T>)
    ensures |r| == n && forall i :: 0 <= i < n ==> r[i] == x
  {
    seq(n, _ => x)
  }

  /** In every prefix of the log, an instance has no more terminal contexts than Dispatched ones. */
  ghost predicate Ordered(log: seq<ActionContext>) {
    forall k, id :: 0 <= k <= |log| ==> Count(log[..k], id, false) <= Count(log[..k], id, true)
  }

  /**
   * The dispatcher's invariant: the state stream's last value is the
   * state; every Dispatched context of an instance is matched by a terminal
   * context or by a listener still waiting; and the log is ordered.
   */
  ghost predicate Wf(b: Bus) {
    |b.history| >= 1 && b.history[|b.history| - 1] == b.state &&
    (forall id :: Count(b.log, id, true) == Count(b.log, id, false) + Waiting(b.pending, id)) &&
    Ordered(b.log)
  }

  /** The initial dispatcher is well formed. */
  lemma InitialWf()
    ensures Wf(Initial())
  {
    var empty: seq<ActionContext> := [];
    assert forall k :: 0 <= k <= 0 ==> empty[..k] == [];
  }

  /** Counting over a concatenation adds up. */
  lemma {:induction false} CountConcat(a: seq<ActionContext>, b: seq<ActionContext>, id: nat, dispatched: bool)
    ensures Count(a + b, id, dispatched) == Count(a, id, dispatched) + Count(b, id, dispatched)
    decreases |b|
  {
    if b == [] {
      assert a + b == a;
    } else {
      assert (a + b)[..|a + b| - 1] == a + b[..|b| - 1];
      CountConcat(a, b[..|b| - 1], id, dispatched);
    }
  }

  /** A log with a context of some kind for `id` has one at a definite position. */
  lemma {:induction false} CountPositive(log: seq<ActionContext>, id: nat, dispatched: bool) returns (i: nat)
    requires Count(log, id, dispatched) > 0
    ensures i < |log| && Concerns(log[i], id, dispatched)
    decreases |log|
  {
    if Concerns(log[|log| - 1], id, dispatched) {
      i := |log| - 1;
    } else {
      i := CountPositive(log[..|log| - 1], id, dispatched);
    }
  }

  /** `n` copies of a terminal context for one instance. */
  lemma {:induction false} CountCopies(ctx: ActionContext, n: nat, id: nat, dispatched: bool)
    ensures Count(Copies(ctx, n), id, dispatched) == if Concerns(ctx, id, dispatched) then n else 0
    decreases n
  {
    if n == 0 {
      assert Copies(ctx, n) == [];
    } else {
      var c := Copies(ctx, n);
      assert c[..|c| - 1] == Copies(ctx, n - 1);
      assert c[|c| - 1] == ctx;
      CountCopies(ctx, n - 1, id, dispatched);
    }
  }

  /** Appending a Dispatched context keeps the log ordered. */
  lemma AppendDispatchedOrdered(log: seq<ActionContext>, c: ActionContext)
    requires Ordered(log) && c.status == Dispatched
    ensures Ordered(log + [c])
  {
    var l := log + [c];
    forall k, id | 0 <= k <= |l| ensures Count(l[..k], id, false) <= Count(l[..k], id, true) {
      if k <= |log| {
        assert l[..k] == log[..k];
      } else {
        assert l[..k] == l && l[..|l| - 1] == log && log[..|log|] == log;
      }
    }
  }

  /**
   * Appending terminal contexts for an instance keeps the log ordered, as
   * long as there are Dispatched contexts left to match them.
   */
  lemma {:induction false} AppendTerminalsOrdered(log: seq<ActionContext>, ctx: ActionContext, n: nat)
    requires Ordered(log) && ctx.status != Dispatched
    requires Count(log, ctx.action.id, false) + n <= Count(log, ctx.action.id, true)
    ensures Ordered(log + Copies(ctx, n))
    decreases n
  {
    if n == 0 {
      assert log + Copies(ctx, n) == log;
    } else {
      AppendTerminalsOrdered(log, ctx, n - 1);
      var l0 := log + Copies(ctx, n - 1);
      var l := log + Copies(ctx, n);
      assert l == l0 + [ctx];
      CountConcat(log, Copies(ctx, n - 1), ctx.action.id, false);
      CountConcat(log, Copies(ctx, n - 1), ctx.action.id, true);
      CountCopies(ctx, n - 1, ctx.action.id, false);
      CountCopies(ctx, n - 1, ctx.action.id, true);
      forall k, id | 0 <= k <= |l| ensures Count(l[..k], id, false) <= Count(l[..k], id, true) {
        if k <= |l0| {
          assert l[..k] == l0[..k];
        } else {
          assert l[..k] == l && l[..|l| - 1] == l0 && l0[..|l0|] == l0;
          assert Count(l0, id, false) <= Count(l0, id, true);
          assert l[|l| - 1] == ctx;
        }
      }
    }
  }

  /** Waiting listeners split into those for `id` and the rest. */
  lemma {:induction false} WithoutCounts(pending: seq<ActionRef>, id: nat, other: nat)
    ensures Waiting(Without(pending, id), other) == if other == id then 0 else Waiting(pending, other)
    decreases |pending|
  {
    if pending != [] {
      var pre := pending[..|pending| - 1];
      WithoutCounts(pre, id, other);
      var w := Without(pre, id);
      var last := pending[|pending| - 1];
      assert pending[..|pending| - 1] == pre;
      if last.id != id {
        assert Without(pending, id) == w + [last];
        assert (w + [last])[..|w + [last]| - 1] == w;
        assert (w + [last])[|w + [last]| - 1] == last;
      } else {
        assert Without(pending, id) == w;
      }
    }
  }

  /**
   * The terminal step: commit the state the chain produced only if it
   * differs from the state before the chain, then start listening for the
   * action's result, then log the Dispatched context.
   */
  function Terminal(b: Bus, state: Value, action: ActionRef): Bus {
    Bus(state,
        if state != b.state then b.history + [state] else b.history,
        b.log + [ActionContext(action, Dispatched, Undefined)],
        b.pending + [action])
  }

  /** `dispatchSingle`: the plugin chain, then the terminal step if it is reached; the action whose result the caller awaits. */
  function DispatchStep(b: Bus, plugins: seq<Plugin>, action: ActionRef): (Bus, Option<ActionRef>) {
    match ChainArgs(plugins, b.state, action)
    case None => (b, None)
    case Some(args) => (Terminal(b, args.0, args.1), Some(args.1))
  }

  /**
   * A result context arriving from the state registry: a Dispatched one is
   * ignored; otherwise every listener waiting for that instance takes it,
   * logs it and answers its caller, and stops listening.
   */
  function Resolved(b: Bus, ctx: ActionContext): (Bus, seq<Answer>) {
    if ctx.status == Dispatched then (b, [])
    else
      var n := Waiting(b.pending, ctx.action.id);
      (b.(log := b.log + Copies(ctx, n), pending := Without(b.pending, ctx.action.id)),
       Copies(CallerAnswer(ctx, b.state), n))
  }

  /** `reset`: the whole state is replaced and pushed on the state stream. */
  function ResetTo(b: Bus, state: Value): Bus {
    b.(state := state, history := b.history + [state])
  }

  /**
   * The terminal step keeps the invariant, and it commits a new value to the
   * state stream exactly when the chain changed the state.
   */
  lemma TerminalKeepsWf(b: Bus, state: Value, action: ActionRef)
    requires Wf(b)
    ensures Wf(Terminal(b, state, action))
    ensures |Terminal(b, state, action).history| == |b.history| + (if state != b.state then 1 else 0)
  {
    var t := Terminal(b, state, action);
    var c := ActionContext(action, Dispatched, Undefined);
    AppendDispatchedOrdered(b.log, c);
    forall id ensures Count(t.log, id, true) == Count(t.log, id, false) + Waiting(t.pending, id) {
      assert t.log[..|t.log| - 1] == b.log;
      assert t.pending[..|t.pending| - 1] == b.pending;
    }
  }

  /** Resolving a result context keeps the invariant. */
  lemma ResolvedKeepsWf(b: Bus, ctx: ActionContext)
    requires Wf(b)
    ensures Wf(Resolved(b, ctx).0)
  {
    if ctx.status != Dispatched {
      var id := ctx.action.id;
      var n := Waiting(b.pending, id);
      var r := Resolved(b, ctx).0;
      AppendTerminalsOrdered(b.log, ctx, n);
      forall other ensures Count(r.log, other, true) == Count(r.log, other, false) + Waiting(r.pending, other) {
        CountConcat(b.log, Copies(ctx, n), other, true);
        CountConcat(b.log, Copies(ctx, n), other, false);
        CountCopies(ctx, n, other, true);
        CountCopies(ctx, n, other, false);
        WithoutCounts(b.pending, id, other);
      }
    }
  }

  /** Resetting keeps the invariant. */
  lemma ResetKeepsWf(b: Bus, state: Value)
    requires Wf(b)
    ensures Wf(ResetTo(b, state))
  {
  }

  /**
   * On the action log, every terminal context of an instance comes after a
   * Dispatched context of the same instance.
   */
  lemma DispatchedBeforeTerminal(b: Bus, j: nat)
    requires Wf(b) && j < |b.log| && b.log[j].status != Dispatched
    ensures exists i :: 0 <= i < j && b.log[i].status == Dispatched && b.log[i].action.id == b.log[j].action.id
  {
    var id := b.log[j].action.id;
    var pre := b.log[..j + 1];
    assert pre[..|pre| - 1] == b.log[..j];
    assert Count(pre, id, false) >= 1;
    assert Count(b.log[..j], id, true) >= 1;
    var i := CountPositive(b.log[..j], id, true);
    assert b.log[..j][i] == b.log[i];
  }

  /**
   * A listener answers once: after a terminal context for an instance is
   * resolved, nobody waits for that instance, and a second terminal context
   * for it is logged and answered no more.
   */
  lemma AnswersOnce(b: Bus, ctx: ActionContext, ctx2: ActionContext)
    requires ctx.status != Dispatched && ctx2.action.id == ctx.action.id
    ensures Waiting(Resolved(b, ctx).0.pending, ctx.action.id) == 0
    ensures Resolved(Resolved(b, ctx).0, ctx2).1 == []
    ensures Resolved(Resolved(b, ctx).0, ctx2).0.log == Resolved(b, ctx).0.log
  {
    WithoutCounts(b.pending, ctx.action.id, ctx.action.id);
  }

  /**
   * Results are matched by instance: a dispatched action is answered by a
   * terminal context exactly when it carries the same instance.
   */
  lemma AnsweredByOwnInstance(b: Bus, plugins: seq<Plugin>, action: ActionRef, ctx: ActionContext)
    requires DispatchStep(b, plugins, action).1.Some? && ctx.status != Dispatched
    ensures var (b1, awaited) := DispatchStep(b, plugins, action);
      |Resolved(b1, ctx).1| > 0 <==> ctx.action.id == awaited.value.id || Waiting(b.pending, ctx.action.id) > 0
  {
    var (b1, awaited) := DispatchStep(b, plugins, action);
    assert b1.pending[..|b1.pending| - 1] == b.pending;
  }

  /**
   * The caller's answer to a batch dispatch: the join of the single
   * dispatches' answers, settling in `order` (an answer that never arrives
   * may stand anywhere). The first that fails or completes empty decides;
   * otherwise, if all yield, the join yields the array of their values in
   * dispatch order, and if one never answers, neither does the join; an
   * empty batch completes empty.
   */
  function BatchAnswer(answers: seq<Answer>, order: seq<nat>): Answer
    requires IsOrder(order, |answers|)
  {
    if answers == [] then Completes
    else FirstNotYielding(InOrder(answers, order), answers)
  }

  /** The first of `settled` that decides, or else the array of all values of `answers`, or else no answer. */
  function FirstNotYielding(settled: seq<Answer>, answers: seq<Answer>): Answer
    decreases |settled|
  {
    if settled == [] then
      (if forall i :: 0 <= i < |answers| ==> answers[i].Yields? then Yields(Arr(Values(answers), map[])) else Pending)
    else if Decides(settled[0]) then settled[0]
    else FirstNotYielding(settled[1..], answers)
  }

  /** The values of answers that all yield. */
  function Values(answers: seq<Answer>): (r: seq<Value>)
    requires forall i :: 0 <= i < |answers| ==> answers[i].Yields?
    ensures |r| == |answers| && forall i :: 0 <= i < |r| ==> r[i] == answers[i].value
  {
    seq(|answers|, i requires 0 <= i < |answers| => answers[i].value)
  }

  /** A batch yields exactly when it is non-empty and every single dispatch yields; the values come in dispatch order, whatever the completion order. */
  lemma {:induction false} BatchYieldsIff(answers: seq<Answer>, order: seq<nat>)
    requires IsOrder(order, |answers|)
    ensures BatchAnswer(answers, order).Yields? <==>
      |answers| > 0 && forall i :: 0 <= i < |answers| ==> answers[i].Yields?
    ensures BatchAnswer(answers, order).Yields? ==>
      BatchAnswer(answers, order).value == Arr(Values(answers), map[])
  {
    if answers != [] {
      var settled := InOrder(answers, order);
      if forall i :: 0 <= i < |answers| ==> answers[i].Yields? {
        AllYieldingJoin(settled, answers);
      } else {
        var k :| 0 <= k < |answers| && !answers[k].Yields?;
        SomeNotYieldingJoin(settled, answers, k);
      }
    }
  }

  /** When every answer yields, the join yields their values. */
  lemma {:induction false} AllYieldingJoin(settled: seq<Answer>, answers: seq<Answer>)
    requires forall i :: 0 <= i < |settled| ==> settled[i].Yields?
    requires forall i :: 0 <= i < |answers| ==> answers[i].Yields?
    ensures FirstNotYielding(settled, answers) == Yields(Arr(Values(answers), map[]))
    decreases |settled|
  {
    if settled != [] {
      AllYieldingJoin(settled[1..], answers);
    }
  }

  /** When some answer does not yield, neither does the join. */
  lemma {:induction false} SomeNotYieldingJoin(settled: seq<Answer>, answers: seq<Answer>, k: nat)
    requires k < |answers| && !answers[k].Yields?
    ensures !FirstNotYielding(settled, answers).Yields?
    decreases |settled|
  {
    if settled != [] && !Decides(settled[0]) {
      SomeNotYieldingJoin(settled[1..], answers, k);
    }
  }

  /** The join never answers exactly when nothing settled decides and not every answer yields. */
  lemma {:induction false} NoAnswerJoin(settled: seq<Answer>, answers: seq<Answer>)
    ensures FirstNotYielding(settled, answers) == Pending <==>
      (forall j :: 0 <= j < |settled| ==> !Decides(settled[j])) && !(forall i :: 0 <= i < |answers| ==> answers[i].Yields?)
    decreases |settled|
  {
    if settled != [] && !Decides(settled[0]) {
      NoAnswerJoin(settled[1..], answers);
      assert forall j :: 0 < j < |settled| ==> settled[j] == settled[1..][j - 1];
    }
  }

  /**
   * A batch never answers exactly when no single dispatch fails or
   * completes empty and some single dispatch never answers, whatever the
   * completion order.
   */
  lemma BatchPendingIff(answers: seq<Answer>, order: seq<nat>)
    requires IsOrder(order, |answers|)
    ensures BatchAnswer(answers, order) == Pending <==>
      (forall i :: 0 <= i < |answers| ==> !Decides(answers[i])) && exists i :: 0 <= i < |answers| && answers[i].Pending?
  {
    if answers != [] {
      var settled := InOrder(answers, order);
      NoAnswerJoin(settled, answers);
      if exists i :: 0 <= i < |answers| && Decides(answers[i]) {
        var i :| 0 <= i < |answers| && Decides(answers[i]);
        InOrderCovers(answers, order, i);
      }
      if exists j :: 0 <= j < |settled| && Decides(settled[j]) {
        var j :| 0 <= j < |settled| && Decides(settled[j]);
        assert Decides(answers[order[j]]);
      }
    }
  }

  /** The error a failing batch reports is the first error to settle, when it settles before any empty completion. */
  lemma BatchFailureExample(e1: Value, e2: Value, v: Value)
    ensures BatchAnswer([Fails(e1), Yields(v), Fails(e2)], [1, 2, 0]) == Fails(e2)
    ensures BatchAnswer([Fails(e1), Yields(v), Fails(e2)], [0, 1, 2]) == Fails(e1)
  {
    var a := [Fails(e1), Yields(v), Fails(e2)];
    assert 0 in [1, 2, 0] && 1 in [1, 2, 0] && 2 in [1, 2, 0];
    assert 0 in [0, 1, 2] && 1 in [0, 1, 2] && 2 in [0, 1, 2];
    var s := InOrder(a, [1, 2, 0]);
    assert s[0] == Yields(v) && s[1] == Fails(e2);
    assert s[1..][0] == Fails(e2);
    assert FirstNotYielding(s[1..], a) == Fails(e2);
    assert FirstNotYielding(s, a) == Fails(e2);
    assert InOrder(a, [0, 1, 2]) == a;
  }

  /**
   * The dispatcher: the state stream's current value and every value it
   * held, the action log, and the actions whose result listeners still wait.
   */
  class Dispatcher {
    var state: Value
    var history: seq<Value>
    var log: seq<ActionContext>
    var pending: seq<ActionRef>

    /** The fields as a `Bus`. */
    function Contents(): Bus
      reads this
    {
      Bus(state, history, log, pending)
    }

    ghost predicate Valid()
      reads this
    {
      Wf(Contents())
    }

    constructor ()
      ensures Valid() && Contents() == Initial()
    {
      state := Obj(map[]);
      history := [Obj(map[])];
      log := [];
      pending := [];
      InitialWf();
    }

    /** `dispatchSingle` for one action; the action whose result the caller awaits, if the terminal step ran. */
    method DispatchSingle(action: ActionRef, plugins: seq<Plugin>) returns (awaited: Option<ActionRef>)
      requires Valid()
      modifies this
      ensures Valid()
      ensures (Contents(), awaited) == DispatchStep(old(Contents()), plugins, action)
    {
      var prev := state;
      var args := ChainArgs(plugins, prev, action);
      if args.None? {
        return None;
      }
      var (nextState, nextAction) := args.value;
      TerminalKeepsWf(Contents(), nextState, nextAction);
      if nextState != prev {
        state := nextState;
        history := history + [nextState];
      }
      pending := pending + [nextAction];
      log := log + [ActionContext(nextAction, Dispatched, Undefined)];
      awaited := Some(nextAction);
    }

    /** `dispatch` of one action or of several, one single dispatch each, in order. */
    method Dispatch(actions: seq<ActionRef>, plugins: seq<Plugin>) returns (awaited: seq<Option<ActionRef>>)
      requires Valid()
      modifies this
      ensures Valid()
      ensures (Contents(), awaited) == DispatchAll(old(Contents()), plugins, actions)
    {
      awaited := [];
      var i := 0;
      while i < |actions|
        invariant 0 <= i <= |actions|
        invariant Valid()
        invariant (Contents(), awaited) == DispatchAll(old(Contents()), plugins, actions[..i])
      {
        assert actions[..i + 1][..i] == actions[..i];
        var a := DispatchSingle(actions[i], plugins);
        awaited := awaited + [a];
        i := i + 1;
      }
      assert actions[..|actions|] == actions;
    }

    /** A result context arriving from the state registry; the answers of the listeners it fires. */
    method Resolve(ctx: ActionContext) returns (answers: seq<Answer>)
      requires Valid()
      modifies this
      ensures Valid()
      ensures (Contents(), answers) == Resolved(old(Contents()), ctx)
    {
      ResolvedKeepsWf(Contents(), ctx);
      if ctx.status == Dispatched {
        return [];
      }
      var id := ctx.action.id;
      var kept: seq<ActionRef> := [];
      var fired: nat := 0;
      var i := 0;
      while i < |pending|
        invariant 0 <= i <= |pending|
        invariant kept == Without(pending[..i], id)
        invariant fired == Waiting(pending[..i], id)
      {
        assert pending[..i + 1][..i] == pending[..i];
        if pending[i].id == id {
          fired := fired + 1;
        } else {
          kept := kept + [pending[i]];
        }
        i := i + 1;
      }
      assert pending[..|pending|] == pending;
      log := log + Copies(ctx, fired);
      pending := kept;
      answers := Copies(CallerAnswer(ctx, state), fired);
    }

    /** `reset`: replaces the whole state. */
    method Reset(newState: Value)
      requires Valid()
      modifies this
      ensures Valid()
      ensures Contents() == ResetTo(old(Contents()), newState)
    {
      ResetKeepsWf(Contents(), newState);
      state := newState;
      history := history + [newState];
    }
  }

  /** Single dispatches of `actions`, one after the other. */
  function DispatchAll(b: Bus, plugins: seq<Plugin>, actions: seq<ActionRef>): (Bus, seq<Option<ActionRef>>)
    decreases |actions|
  {
    if actions == [] then (b, [])
    else
      var (b1, awaited) := DispatchAll(b, plugins, actions[..|actions| - 1]);
      var (b2, a) := DispatchStep(b1, plugins, actions[|actions| - 1]);
      (b2, awaited + [a])
  }
  /** Dispatching only appends to the state stream: what it held before is a prefix of what it holds after. */
  lemma {:induction false} DispatchAllExtendsHistory(b: Bus, plugins: seq<Plugin>, actions: seq<ActionRef>)
    ensures b.history <= DispatchAll(b, plugins, actions).0.history
    decreases |actions|
  {
    if actions != [] {
      DispatchAllExtendsHistory(b, plugins, actions[..|actions| - 1]);
    }
  }

}
