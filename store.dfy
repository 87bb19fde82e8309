/**
 * The store facade of `store.ts`: selections over the state stream and the
 * snapshot/reset pair over the root state cell.
 *
 * A selector is a total function from a state to a `Projection`: the value
 * it returns, a TypeError it throws (reading a property of `undefined`, the
 * common case), or any other error. The states a subscriber observes are
 * the state stream's current value followed by every value committed to it
 * later; `select` maps them, swallows a TypeError into one `undefined`
 * (after which the selection is complete), rethrows any other error, and
 * drops consecutive equal values.
 */
module Store {
  import opened Json
  import opened Dispatcher
  import Symbols

  /** What a selector does with one state. */
  datatype Projection = Projected(value: Value) | TypeError | Thrown(error: Value)

  /** How a selection stands after the observed states: still open, completed, or failed. */
  datatype SelectEnd = Open | Completed | Errored(error: Value)

  /** The values a selection emits, in order, and how it ends. */
  datatype Selection = Selection(emitted: seq<Value>, end: SelectEnd)

  /** `map(selectorFn)` over the observed states. */
  function Project(observed: seq<Value>, sel: Value -> Projection): (r: seq<Projection>)
    ensures |r| == |observed|
    ensures forall i :: 0 <= i < |observed| ==> r[i] == sel(observed[i])
  {
    seq(|observed|, i requires 0 <= i < |observed| => sel(observed[i]))
  }

  /** The index of the first projection that threw; the length when none did. */
  function FirstFailure(projs: seq<Projection>): (k: nat)
    ensures k <= |projs|
    ensures forall i :: 0 <= i < k ==> projs[i].Projected?
    ensures k < |projs| ==> !projs[k].Projected?
  {
    if projs == [] || !projs[0].Projected? then 0 else 1 + FirstFailure(projs[1..])
  }

  /**
   * `catchError` after the map: the projected values up to the first
   * failure; a TypeError is replaced by a single `undefined` and the
   * selection completes, any other error ends it with that error.
   */
  function Caught(projs: seq<Projection>): (r: Selection)
    ensures var k := FirstFailure(projs);
      && (r.end.Open? <==> k == |projs|)
      && (r.end == Completed <==> (k < |projs| && projs[k].TypeError?))
      && (forall e :: r.end == Errored(e) <==> (k < |projs| && projs[k] == Thrown(e)))
      && |r.emitted| == (if r.end == Completed then k + 1 else k)
      && (forall i :: 0 <= i < k ==> r.emitted[i] == projs[i].value)
      && (r.end == Completed ==> r.emitted[k] == Undefined)
    decreases |projs|
  {
    if projs == [] then Selection([], Open)
    else match projs[0]
      case Projected(v) =>
        var rest := Caught(projs[1..]);
        Selection([v] + rest.emitted, rest.end)
      case TypeError => Selection([Undefined], Completed)
      case Thrown(e) => Selection([], Errored(e))
  }

  /** `distinctUntilChanged`: a value is emitted unless it equals the value emitted just before. */
  function Distinct(vs: seq<Value>): seq<Value>
    decreases |vs|
  {
    if vs == [] then []
    else
      var d := Distinct(vs[..|vs| - 1]);
      var v := vs[|vs| - 1];
      if d != [] && d[|d| - 1] == v then d else d + [v]
  }

  predicate NoAdjacentRepeats(vs: seq<Value>) {
    forall i :: 0 < i < |vs| ==> vs[i - 1] != vs[i]
  }

  /**
   * `distinctUntilChanged` never emits the same value twice in a row, emits
   * every value it receives at least once (and nothing else), starts with
   * the first value received and ends with the last.
   */
  lemma {:induction false} DistinctSpec(vs: seq<Value>)
    ensures NoAdjacentRepeats(Distinct(vs))
    ensures forall v :: v in Distinct(vs) <==> v in vs
    ensures |Distinct(vs)| <= |vs|
    ensures vs != [] ==> Distinct(vs) != [] && Distinct(vs)[0] == vs[0]
    ensures vs != [] ==> Distinct(vs)[|Distinct(vs)| - 1] == vs[|vs| - 1]
    decreases |vs|
  {
    if vs != [] {
      var pre := vs[..|vs| - 1];
      DistinctSpec(pre);
      assert vs == pre + [vs[|vs| - 1]];
      if pre == [] {
        assert Distinct(vs) == [vs[0]];
      }
    }
  }

  /** A sequence without consecutive repeats passes `distinctUntilChanged` unchanged. */
  lemma {:induction false} DistinctKeepsNonRepeating(vs: seq<Value>)
    requires NoAdjacentRepeats(vs)
    ensures Distinct(vs) == vs
    decreases |vs|
  {
    if vs != [] {
      var pre := vs[..|vs| - 1];
      assert NoAdjacentRepeats(pre) by {
        forall i | 0 < i < |pre| ensures pre[i - 1] != pre[i] {
          assert pre[i - 1] == vs[i - 1] && pre[i] == vs[i];
        }
      }
      DistinctKeepsNonRepeating(pre);
      if pre != [] {
        assert pre[|pre| - 1] == vs[|vs| - 2];
      }
      assert pre + [vs[|vs| - 1]] == vs;
    }
  }

  /** Applying `distinctUntilChanged` twice is the same as once. */
  lemma DistinctIdempotent(vs: seq<Value>)
    ensures Distinct(Distinct(vs)) == Distinct(vs)
  {
    DistinctSpec(vs);
    DistinctKeepsNonRepeating(Distinct(vs));
  }

  /** `select`: map, catch, then drop consecutive duplicates, over the observed states. */
  function Select(observed: seq<Value>, sel: Value -> Projection): Selection {
    var c := Caught(Project(observed, sel));
    Selection(Distinct(c.emitted), c.end)
  }

  /** `selectOnce`: `select` with `take(1)`, which completes on the first value. */
  function SelectOnce(observed: seq<Value>, sel: Value -> Projection): (r: Selection)
    ensures |r.emitted| <= 1
  {
    var s := Select(observed, sel);
    if s.emitted == [] then s else Selection(s.emitted[..1], Completed)
  }

  /** `selectSnapshot`: the selector applied to the current state; nothing is swallowed. */
  function SelectSnapshot(current: Value, sel: Value -> Projection): Projection {
    sel(current)
  }

  /**
   * Subscribing to a selection first yields the snapshot selection of the
   * current state when that projection succeeds, and `selectOnce` yields
   * only that value and completes.
   */
  lemma SelectStartsWithSnapshot(current: Value, later: seq<Value>, sel: Value -> Projection)
    requires SelectSnapshot(current, sel).Projected?
    ensures Select([current] + later, sel).emitted != []
    ensures Select([current] + later, sel).emitted[0] == SelectSnapshot(current, sel).value
    ensures SelectOnce([current] + later, sel) == Selection([SelectSnapshot(current, sel).value], Completed)
  {
    var c := Caught(Project([current] + later, sel));
    DistinctSpec(c.emitted);
  }

  /**
   * `selectOnce` is settled by the current state alone: it emits the
   * current projection and completes, emits `undefined` and completes on a
   * TypeError, or fails with any other error without emitting; later states
   * are never looked at.
   */
  lemma SelectOnceSettledByCurrent(current: Value, later: seq<Value>, sel: Value -> Projection)
    ensures SelectOnce([current] + later, sel) == match sel(current)
      case Projected(v) => Selection([v], Completed)
      case TypeError => Selection([Undefined], Completed)
      case Thrown(e) => Selection([], Errored(e))
  {
    var c := Caught(Project([current] + later, sel));
    DistinctSpec(c.emitted);
  }

  /**
   * A TypeError on the current state makes `select` emit `undefined` and
   * complete, whatever states follow, while `selectSnapshot` hands the
   * TypeError to its caller.
   */
  lemma TypeErrorSwallowedBySelectOnly(current: Value, later: seq<Value>, sel: Value -> Projection)
    requires sel(current) == TypeError
    ensures Select([current] + later, sel) == Selection([Undefined], Completed)
    ensures SelectSnapshot(current, sel) == TypeError
  {
    var c := Caught(Project([current] + later, sel));
    assert c.emitted == [Undefined];
    assert Distinct([Undefined]) == [Undefined] by {
      assert [Undefined][..0] == [];
    }
  }

  /**
   * A selection fails with an error exactly when the first projection that
   * throws throws that error and it is not a TypeError; then every
   * state before it has been projected.
   */
  lemma SelectRethrows(observed: seq<Value>, sel: Value -> Projection, e: Value)
    ensures Select(observed, sel).end == Errored(e) <==>
      exists k :: 0 <= k < |observed| && sel(observed[k]) == Thrown(e) &&
        forall i :: 0 <= i < k ==> sel(observed[i]).Projected?
  {
    var projs := Project(observed, sel);
    var k := FirstFailure(projs);
    if Select(observed, sel).end == Errored(e) {
      assert sel(observed[k]) == Thrown(e);
    }
    if exists k' :: 0 <= k' < |observed| && sel(observed[k']) == Thrown(e) &&
        forall i :: 0 <= i < k' ==> sel(observed[i]).Projected? {
      var k' :| 0 <= k' < |observed| && sel(observed[k']) == Thrown(e) &&
        forall i :: 0 <= i < k' ==> sel(observed[i]).Projected?;
      assert projs[k'] == Thrown(e);
      assert k' == k;
    }
  }

  /**
   * While no projection throws, a selection emits exactly the projected
   * values with consecutive repeats dropped, and stays open.
   */
  lemma SelectWithoutErrors(observed: seq<Value>, sel: Value -> Projection)
    requires forall i :: 0 <= i < |observed| ==> sel(observed[i]).Projected?
    ensures Select(observed, sel).end == Open
    ensures Select(observed, sel).emitted ==
      Distinct(seq(|observed|, i requires 0 <= i < |observed| => sel(observed[i]).value))
  {
    var projs := Project(observed, sel);
    assert FirstFailure(projs) == |observed|;
    var c := Caught(projs);
    assert c.emitted == seq(|observed|, i requires 0 <= i < |observed| => sel(observed[i]).value);
  }

  /**
   * What a subscriber arriving at `b` observes after the current state (the
   * `later` of `Store.Subscribe`) is what the dispatches that follow append
   * to the state stream: together they are the stream from the
   * subscription on.
   */
  lemma SubscriberObservesCommits(b: Bus, plugins: seq<Plugin>, actions: seq<Symbols.ActionRef>)
    requires |b.history| >= 1
    ensures var h := DispatchAll(b, plugins, actions).0.history;
      |b.history| <= |h| && b.history[|b.history| - 1..] + h[|b.history|..] == h[|b.history| - 1..]
  {
    DispatchAllExtendsHistory(b, plugins, actions);
  }

  /**
   * The store: a facade over the root state operations, which here are the
   * dispatcher's state cell and state stream.
   */
  class Store {
    const ops: Dispatcher

    constructor (ops: Dispatcher)
      ensures this.ops == ops
    {
      this.ops := ops;
    }

    /** `snapshot`: the root state, which is also the state stream's current value. */
    method Snapshot() returns (s: Value)
      requires ops.Valid()
      ensures s == ops.state && s == ops.history[|ops.history| - 1]
    {
      s := ops.state;
    }

    /** `reset`: the whole root state is replaced and committed to the state stream. */
    method Reset(state: Value)
      requires ops.Valid()
      modifies ops
      ensures ops.Valid()
      ensures ops.Contents() == ResetTo(old(ops.Contents()), state)
      ensures ops.state == state && ops.history == old(ops.history) + [state]
    {
      ops.Reset(state);
    }

    /** `selectSnapshot` on the current root state. */
    method SelectNow(sel: Value -> Projection) returns (r: Projection)
      requires ops.Valid()
      ensures r == SelectSnapshot(ops.history[|ops.history| - 1], sel)
    {
      r := sel(ops.state);
    }

    /**
     * `select` for a subscriber arriving now: it observes the current state,
     * then the states committed after it, given as `later`.
     */
    method Subscribe(sel: Value -> Projection, later: seq<Value>) returns (r: Selection)
      requires ops.Valid()
      ensures r == Select(ops.history[|ops.history| - 1..] + later, sel)
    {
      assert ops.history[|ops.history| - 1..] == [ops.state];
      r := Select([ops.state] + later, sel);
    }
  }
}
