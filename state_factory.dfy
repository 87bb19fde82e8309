/**
 * The state registry of `internal/state-factory.ts`: it registers state
 * classes in dependency order, assigns each its full path, builds the
 * composite initial state, and runs the handlers of every registered state
 * when an action is dispatched, turning their joint outcome into the
 * action's final status.
 *
 * The dependency graph, its topological order and the full parent paths are
 * computed by helpers that are not part of this model: they arrive here as
 * the sequence of `Visit`s the registration loop walks.
 */
module StateFactory {
  import opened Wrappers
  import opened Json
  import opened Strings
  import opened Symbols
  import opened Utils
  import opened Completion

  /**
   * One step of the registration loop: the state's name, the metadata its
   * class carries (`null` when the class was not decorated as a state), and
   * its full dotted path.
   */
  datatype Visit = Visit(name: string, meta: StateMeta?, depth: string)

  /** A registered state. The state instance the injector provides is not modelled. */
  datatype MappedStore = MappedStore(name: string, depth: string, defaults: Value, actions: ActionsMap)

  /** What the registration loop reads off one decorated class. */
  datatype StateDecl = StateDecl(name: string, depth: string, defaults: Value, actions: ActionsMap)

  /**
   * How registration fails: a class in the order carries no state metadata,
   * or writing the added states' defaults into the composite state throws.
   */
  datatype FactoryError = NotDecorated | DefaultsThrew(error: JsError)

  /** The result of `addAndReturnDefaults`: the composite defaults and the newly added states. */
  datatype Added = Added(defaults: Value, states: seq<MappedStore>)

  /**
   * The fresh copy of a state's declared defaults: arrays are copied by
   * spreading (which keeps the elements only), objects by object spread,
   * `undefined` becomes `{}`, anything else is kept as is.
   */
  function NormaliseDefaults(d: Value): (r: Value)
    ensures !r.Undefined?
    ensures d.Obj? || (!d.IsContainer() && !d.Undefined?) ==> r == d
    ensures d.Arr? ==> r.Arr? && r.items == d.items && r.props == map[]
  {
    match d
    case Arr(_, _) => ArraySpread(d)
    case Obj(_) => ObjectSpread(d)
    case Undefined => Obj(map[])
    case _ => d
  }

  /** Normalising twice is normalising once. */
  lemma NormaliseIdempotent(d: Value)
    ensures NormaliseDefaults(NormaliseDefaults(d)) == NormaliseDefaults(d)
  {
  }

  /** The registered state built from one declaration. */
  function ToStore(d: StateDecl): MappedStore {
    MappedStore(d.name, d.depth, NormaliseDefaults(d.defaults), d.actions)
  }

  /** The names already registered. */
  function Names(ss: seq<MappedStore>): set<string> {
    set s | s in ss :: s.name
  }

  /**
   * The states one registration adds, in visiting order: every declaration
   * whose name is not among the states registered before the call. The
   * check looks only at those earlier states, not at the ones added by the
   * same call.
   */
  function NewStores(existing: seq<MappedStore>, decls: seq<StateDecl>): seq<MappedStore>
    decreases |decls|
  {
    if decls == [] then []
    else
      var prev := NewStores(existing, decls[..|decls| - 1]);
      var d := decls[|decls| - 1];
      if d.name in Names(existing) then prev else prev + [ToStore(d)]
  }

  /** One more declaration adds its state unless its name was registered before. */
  lemma NewStoresStep(existing: seq<MappedStore>, decls: seq<StateDecl>, d: StateDecl)
    ensures NewStores(existing, decls + [d]) ==
      NewStores(existing, decls) + (if d.name in Names(existing) then [] else [ToStore(d)])
  {
    assert (decls + [d])[..|decls|] == decls;
  }

  /**
   * A state is added exactly when it is built from a declaration whose name
   * was not registered before the call.
   */
  lemma {:induction false} NewStoresMembers(existing: seq<MappedStore>, decls: seq<StateDecl>, s: MappedStore)
    ensures s in NewStores(existing, decls) <==>
      exists d :: d in decls && d.name !in Names(existing) && s == ToStore(d)
    decreases |decls|
  {
    if decls != [] {
      var pre := decls[..|decls| - 1];
      var d := decls[|decls| - 1];
      assert decls == pre + [d];
      NewStoresMembers(existing, pre, s);
    }
  }

  /** Nothing is added when every declared name is already registered. */
  lemma {:induction false} NewStoresNone(existing: seq<MappedStore>, decls: seq<StateDecl>)
    requires forall d :: d in decls ==> d.name in Names(existing)
    ensures NewStores(existing, decls) == []
    decreases |decls|
  {
    if decls != [] {
      var pre := decls[..|decls| - 1];
      assert decls[|decls| - 1] in decls;
      assert forall d :: d in pre ==> d in decls;
      NewStoresNone(existing, pre);
    }
  }

  /** Registration keeps the visiting order: the states added for `a + b` are those for `a`, then those for `b`. */
  lemma {:induction false} NewStoresConcat(existing: seq<MappedStore>, a: seq<StateDecl>, b: seq<StateDecl>)
    ensures NewStores(existing, a + b) == NewStores(existing, a) + NewStores(existing, b)
    decreases |b|
  {
    if b == [] {
      assert a + b == a;
    } else {
      var b' := b[..|b| - 1];
      assert (a + b)[..|a + b| - 1] == a + b';
      assert (a + b)[|a + b| - 1] == b[|b| - 1];
      NewStoresConcat(existing, a, b');
    }
  }

  /** Registering the same declarations a second time adds nothing. */
  lemma AddTwiceAddsNothing(existing: seq<MappedStore>, decls: seq<StateDecl>)
    ensures NewStores(existing + NewStores(existing, decls), decls) == []
  {
    var once := NewStores(existing, decls);
    forall d | d in decls ensures d.name in Names(existing + once) {
      if d.name in Names(existing) {
        var e :| e in existing && e.name == d.name;
        assert e in existing + once;
      } else {
        NewStoresMembers(existing, decls, ToStore(d));
        assert ToStore(d) in existing + once;
      }
    }
    NewStoresNone(existing + once, decls);
  }

  /** No two states share a name. */
  predicate UniqueNames(ss: seq<MappedStore>) {
    forall i, j :: 0 <= i < j < |ss| ==> ss[i].name != ss[j].name
  }

  /** No two declarations share a name (the dependency graph is keyed by name). */
  predicate UniqueDeclNames(ds: seq<StateDecl>) {
    forall i, j :: 0 <= i < j < |ds| ==> ds[i].name != ds[j].name
  }

  /** Registration keeps the registry free of duplicate names. */
  lemma {:induction false} RegistrationKeepsNamesUnique(existing: seq<MappedStore>, decls: seq<StateDecl>)
    requires UniqueNames(existing) && UniqueDeclNames(decls)
    ensures UniqueNames(existing + NewStores(existing, decls))
    decreases |decls|
  {
    if decls != [] {
      var pre := decls[..|decls| - 1];
      var d := decls[|decls| - 1];
      RegistrationKeepsNamesUnique(existing, pre);
      if d.name !in Names(existing) {
        var prev := NewStores(existing, pre);
        var all := existing + prev + [ToStore(d)];
        forall i | 0 <= i < |existing + prev| ensures all[i].name != d.name {
          if i < |existing| {
            assert existing[i] in existing;
          } else {
            var s := prev[i - |existing|];
            assert s in prev;
            NewStoresMembers(existing, pre, s);
            var d' :| d' in pre && d'.name !in Names(existing) && s == ToStore(d');
            var j :| 0 <= j < |pre| && pre[j] == d';
            assert decls[j] == d' && decls[|decls| - 1] == d;
          }
        }
        assert existing + NewStores(existing, decls) == all;
      }
    }
  }

  /** The metadata objects of the decorated classes among `vs`. */
  function MetasOf(vs: seq<Visit>): set<StateMeta> {
    set v | v in vs && v.meta != null :: v.meta
  }

  /** How many visits, from the start, belong to decorated classes. */
  function Decorated(vs: seq<Visit>): (r: nat)
    ensures r <= |vs|
    ensures forall j :: 0 <= j < r ==> vs[j].meta != null
    ensures r < |vs| ==> vs[r].meta == null
    decreases |vs|
  {
    if vs == [] || vs[0].meta == null then 0 else 1 + Decorated(vs[1..])
  }

  /** The declarations the registration loop reads, in visiting order. */
  function Decls(vs: seq<Visit>): seq<StateDecl>
    requires forall j :: 0 <= j < |vs| ==> vs[j].meta != null
    reads MetasOf(vs)`defaults, MetasOf(vs)`actions
    decreases |vs|
  {
    if vs == [] then []
    else
      var last := vs[|vs| - 1];
      assert MetasOf(vs[..|vs| - 1]) <= MetasOf(vs) by {
        forall m | m in MetasOf(vs[..|vs| - 1]) ensures m in MetasOf(vs) {
          var v :| v in vs[..|vs| - 1] && v.meta != null && v.meta == m;
        }
      }
      assert last in vs;
      Decls(vs[..|vs| - 1]) + [StateDecl(last.name, last.depth, last.meta.defaults, last.meta.actions)]
  }

  /** Reading one more visit appends its declaration. */
  lemma DeclsStep(vs: seq<Visit>, k: nat)
    requires k < |vs| && forall j :: 0 <= j <= k ==> vs[j].meta != null
    ensures Decls(vs[..k + 1]) == Decls(vs[..k]) + [StateDecl(vs[k].name, vs[k].depth, vs[k].meta.defaults, vs[k].meta.actions)]
  {
    assert vs[..k + 1][..k] == vs[..k];
  }

  /** The path the last visit of `m` among `vs` assigns, if any visits it. */
  function LastDepth(vs: seq<Visit>, m: StateMeta): Option<string>
    decreases |vs|
  {
    if vs == [] then None
    else if vs[|vs| - 1].meta == m then Some(vs[|vs| - 1].depth)
    else LastDepth(vs[..|vs| - 1], m)
  }

  /**
   * After the first `k` visits, each metadata object among `vs` holds the
   * depth of its last visit so far, or its path from `before` when none
   * has reached it yet.
   */
  ghost predicate PathsAfter(vs: seq<Visit>, k: nat, before: map<StateMeta, Option<string>>)
    requires k <= |vs|
    reads MetasOf(vs)`path
  {
    forall m :: m in MetasOf(vs) ==>
      m in before && m.path == (if LastDepth(vs[..k], m).Some? then LastDepth(vs[..k], m) else before[m])
  }

  /**
   * The path a visit sequence leaves on a metadata object is the depth of
   * its last visit, and there is none when no visit reaches it.
   */
  lemma {:induction false} LastDepthIsLast(vs: seq<Visit>, m: StateMeta)
    ensures LastDepth(vs, m).None? <==> forall j :: 0 <= j < |vs| ==> vs[j].meta != m
    ensures LastDepth(vs, m).Some? ==>
      (exists j :: 0 <= j < |vs| && vs[j].meta == m &&
        vs[j].depth == LastDepth(vs, m).value && (forall k :: j < k < |vs| ==> vs[k].meta != m))
    decreases |vs|
  {
    if vs != [] && vs[|vs| - 1].meta != m {
      var pre := vs[..|vs| - 1];
      LastDepthIsLast(pre, m);
      assert forall j :: 0 <= j < |pre| ==> pre[j] == vs[j];
    }
  }

  /** Visiting one more class changes the last depth of its metadata only. */
  lemma LastDepthStep(vs: seq<Visit>, i: nat, m: StateMeta)
    requires i < |vs| && vs[i].meta != null
    ensures LastDepth(vs[..i + 1], m) == if m == vs[i].meta then Some(vs[i].depth) else LastDepth(vs[..i], m)
  {
    assert vs[..i + 1][..i] == vs[..i];
  }

  /**
   * The composite initial state: starting from `{}`, each added state's
   * defaults are written at its path, in registration order; the first
   * write that throws ends the fold with its error.
   */
  function CompositeDefaults(stores: seq<MappedStore>): (r: Result<Value, JsError>)
    ensures r.Ok? ==> r.value.Obj?
    decreases |stores|
  {
    if stores == [] then Ok(Obj(map[]))
    else
      var prev := CompositeDefaults(stores[..|stores| - 1]);
      if prev.Err? then prev
      else SetValue(prev.value, stores[|stores| - 1].depth, stores[|stores| - 1].defaults)
  }

  /** One fold step on an object accumulator is a plain nested write. */
  lemma CompositeStep(stores: seq<MappedStore>)
    requires stores != [] && CompositeDefaults(stores[..|stores| - 1]).Ok?
    ensures CompositeDefaults(stores) ==
      SetPath(CompositeDefaults(stores[..|stores| - 1]).value, Split(stores[|stores| - 1].depth, '.'), stores[|stores| - 1].defaults)
  {
    var prev := CompositeDefaults(stores[..|stores| - 1]).value;
    var last := stores[|stores| - 1];
    SetValueOnObject(prev, last.depth, last.defaults);
  }

  /** Once a write has thrown, the fold's result is that error, whatever follows. */
  lemma {:induction false} CompositeErrPersists(stores: seq<MappedStore>, i: nat)
    requires i <= |stores| && CompositeDefaults(stores[..i]).Err?
    ensures CompositeDefaults(stores) == CompositeDefaults(stores[..i])
    decreases |stores|
  {
    if i < |stores| {
      var pre := stores[..|stores| - 1];
      assert pre[..i] == stores[..i];
      CompositeErrPersists(pre, i);
    } else {
      assert stores[..i] == stores;
    }
  }

  /** Defaults without arrays compose, without throwing, to a state without arrays. */
  lemma {:induction false} CompositeNoArrays(stores: seq<MappedStore>)
    requires forall j :: 0 <= j < |stores| ==> NoArrays(stores[j].defaults)
    ensures CompositeDefaults(stores).Ok? && NoArrays(CompositeDefaults(stores).value)
    decreases |stores|
  {
    if stores != [] {
      var pre := stores[..|stores| - 1];
      CompositeNoArrays(pre);
      CompositeStep(stores);
      SetPathNoArrays(CompositeDefaults(pre).value, Split(stores[|stores| - 1].depth, '.'), stores[|stores| - 1].defaults);
    }
  }

  /** Neither path is a prefix of the other: the two states live in disjoint subtrees. */
  predicate PathsApart(p: seq<string>, q: seq<string>) {
    !(p <= q) && !(q <= p)
  }

  /** Two paths apart leave each other at some depth. */
  lemma {:induction false} ApartDiverges(p: seq<string>, q: seq<string>) returns (d: nat)
    requires PathsApart(p, q)
    ensures DivergesAt(p, q, d)
    decreases |p|
  {
    if p[0] != q[0] {
      d := 0;
    } else {
      assert p == [p[0]] + p[1..];
      assert q == [q[0]] + q[1..];
      assert PathsApart(p[1..], q[1..]);
      var d' := ApartDiverges(p[1..], q[1..]);
      d := d' + 1;
      assert p[..d] == [p[0]] + p[1..][..d'];
      assert q[..d] == [q[0]] + q[1..][..d'];
    }
  }

  /**
   * A write along `pl` into an object without arrays leaves a path `p` that
   * leaves it at depth `d` readable as before, and still through objects.
   */
  lemma ApartWriteKeepsPath(acc: Value, pl: seq<string>, v: Value, p: seq<string>, d: nat)
    requires acc.Obj? && NoArrays(acc) && |pl| >= 1 && DivergesAt(p, pl, d)
    requires ObjectsAlong(acc, p, |p| - 1)
    ensures SetPath(acc, pl, v).Ok?
    ensures GetPath(SetPath(acc, pl, v).value, p) == GetPath(acc, p)
    ensures ObjectsAlong(SetPath(acc, pl, v).value, p, |p| - 1)
  {
    ObjectsLengthFree(acc, pl);
    SetPathFrame(acc, pl, v, p, d);
    forall m | 0 <= m <= |p| - 1 ensures GetPath(SetPath(acc, pl, v).value, p[..m]).Obj? {
      if m <= d {
        ApartPrefixShared(acc, pl, v, p, d, m);
      } else {
        ApartPrefixKept(acc, pl, v, p, d, m);
      }
    }
  }

  /** One prefix of `p` shared with the written path, for `ApartWriteKeepsPath`. */
  lemma ApartPrefixShared(acc: Value, pl: seq<string>, v: Value, p: seq<string>, d: nat, m: nat)
    requires acc.Obj? && NoArrays(acc) && |pl| >= 1 && DivergesAt(p, pl, d) && m <= d
    ensures SetPath(acc, pl, v).Ok? && GetPath(SetPath(acc, pl, v).value, p[..m]).Obj?
  {
    OwnPathObjects(acc, pl, v);
    assert p[..m] == pl[..m] by { assert p[..d][..m] == pl[..d][..m]; }
  }

  /** One prefix of `p` below the divergence depth, for `ApartWriteKeepsPath`. */
  lemma ApartPrefixKept(acc: Value, pl: seq<string>, v: Value, p: seq<string>, d: nat, m: nat)
    requires acc.Obj? && |pl| >= 1 && DivergesAt(p, pl, d) && d < m <= |p| - 1
    requires ObjectsAlong(acc, p, |p| - 1)
    ensures SetPath(acc, pl, v).Ok? ==> GetPath(SetPath(acc, pl, v).value, p[..m]).Obj?
  {
    var q := p[..m];
    assert q[..d] == p[..d] && q[d] == p[d];
    assert ObjectsAlong(acc, q, d) by {
      forall j | 0 <= j <= d ensures GetPath(acc, q[..j]).Obj? {
        assert q[..j] == p[..j];
      }
    }
    SetPathFrame(acc, pl, v, q, d);
    assert GetPath(acc, q).Obj?;
  }

  /**
   * The invariant behind `CompositeReadBack`: after the fold, state `i`'s
   * path reads its defaults and runs through objects only.
   */
  lemma {:induction false} CompositeKeeps(stores: seq<MappedStore>, i: nat)
    requires i < |stores|
    requires forall j :: 0 <= j < |stores| ==> NoArrays(stores[j].defaults)
    requires forall j :: i < j < |stores| ==> PathsApart(Split(stores[i].depth, '.'), Split(stores[j].depth, '.'))
    ensures CompositeDefaults(stores).Ok?
    ensures GetPath(CompositeDefaults(stores).value, Split(stores[i].depth, '.')) == stores[i].defaults
    ensures ObjectsAlong(CompositeDefaults(stores).value, Split(stores[i].depth, '.'), |Split(stores[i].depth, '.')| - 1)
    decreases |stores|
  {
    var pre := stores[..|stores| - 1];
    var last := stores[|stores| - 1];
    var p := Split(stores[i].depth, '.');
    CompositeNoArrays(pre);
    var acc := CompositeDefaults(pre).value;
    CompositeStep(stores);
    var pl := Split(last.depth, '.');
    assert CompositeDefaults(stores) == SetPath(acc, pl, last.defaults);
    if i == |stores| - 1 {
      ObjectsLengthFree(acc, p);
      OwnPathObjects(acc, p, last.defaults);
    } else {
      CompositeKeeps(pre, i);
      var d := ApartDiverges(p, pl);
      ApartWriteKeepsPath(acc, pl, last.defaults, p, d);
      assert GetPath(SetPath(acc, pl, last.defaults).value, p) == GetPath(acc, p) == stores[i].defaults;
    }
  }

  /**
   * Reading the composite defaults at a state's path gives that state's
   * defaults, provided no state added after it lives on or below its path.
   */
  lemma CompositeReadBack(stores: seq<MappedStore>, i: nat)
    requires i < |stores|
    requires forall j :: 0 <= j < |stores| ==> NoArrays(stores[j].defaults)
    requires forall j :: i < j < |stores| ==> PathsApart(Split(stores[i].depth, '.'), Split(stores[j].depth, '.'))
    ensures CompositeDefaults(stores).Ok? && GetValue(CompositeDefaults(stores).value, stores[i].depth) == stores[i].defaults
  {
    CompositeKeeps(stores, i);
  }

  /** The path `a`, split. */
  lemma SplitA()
    ensures Split("a", '.') == ["a"]
  {
    assert Join(["a"], '.') == "a";
    SplitJoin(["a"], '.');
  }

  /** The path `a.b`, split. */
  lemma SplitAB()
    ensures Split("a.b", '.') == ["a", "b"]
  {
    assert "a.b" == "a" + "." + "b";
    SplitPair("a", "b", '.');
  }

  /**
   * A parent state `a` with defaults `{x: 1}`, then its child at `a.b` with
   * defaults `{y: 2}`: the child's defaults land inside the parent's.
   */
  lemma NestedDefaultsExample()
    ensures CompositeDefaults([
      MappedStore("a", "a", Obj(map["x" := Num(1)]), map[]),
      MappedStore("b", "a.b", Obj(map["y" := Num(2)]), map[])])
      == Ok(Obj(map["a" := Obj(map["x" := Num(1), "b" := Obj(map["y" := Num(2)])])]))
  {
    var x := Obj(map["x" := Num(1)]);
    var y := Obj(map["y" := Num(2)]);
    var s1 := MappedStore("a", "a", x, map[]);
    var s2 := MappedStore("b", "a.b", y, map[]);
    var stores := [s1, s2];
    SplitA();
    SplitAB();
    assert [s1, s2][..1] == [s1];
    assert [s1][..0] == [];
    CompositeStep([s1]);
    var c1 := Obj(map["a" := x]);
    assert CompositeDefaults([s1]).value == c1;
    CompositeStep(stores);
    assert CompositeDefaults(stores) == SetPath(c1, ["a", "b"], y);
    assert ["a", "b"][1..] == ["b"];
    assert SetPath(x, ["b"], y).value == Obj(map["x" := Num(1), "b" := y]);
    assert SetPath(c1, ["a", "b"], y).value == Obj(map["a" := Obj(map["x" := Num(1), "b" := y])]);
  }

  /** A handler to run: the state it belongs to and its registration. */
  datatype HandlerCall = HandlerCall(state: string, handler: HandlerMeta)

  /** How a stream returned by a handler ends on its own, if it ever does. */
  datatype StreamEnd = Completed | Threw(error: Value) | Never

  /**
   * What a handler returned when called with the state context and the
   * action. `Stream` stands for a Promise or an Observable: the number of
   * values it emits before its natural end, that end, and `cutAt`, which is
   * `Some(k)` when an action of the same type was dispatched after its
   * `k`-th value and before its end. `Raised` is a synchronous throw; any
   * other return value is `Plain`.
   */
  datatype HandlerReturn =
    | Plain
    | Stream(emitted: nat, end: StreamEnd, cutAt: Option<nat>)
    | Raised(error: Value)
  {
    /** A stream is cut only after values it has actually emitted. */
    predicate WellFormed() {
      Stream? && cutAt.Some? ==> cutAt.value <= emitted
    }
  }

  /** The returns a handler can actually produce. */
  type Return = r: HandlerReturn | r.WellFormed() witness Plain

  /**
   * How one handler's wrapped result settles inside the join; `Unsettled`
   * is a stream that never ends.
   */
  datatype Outcome = Emitted | EmptyCompletion | Failed(error: Value) | Unsettled

  /**
   * The wrapping of one handler's result: a plain value becomes a single
   * emission, a synchronous throw an error; a stream under
   * `cancelUncompleted` stops at the next dispatch of the same type and then
   * counts as emitted only if it emitted before; otherwise the stream runs
   * to its own end.
   */
  function Shape(ret: Return, options: ActionOptions): (r: Outcome)
    ensures ret.Plain? ==> r == Emitted
    ensures ret.Raised? ==> r == Failed(ret.error)
    ensures r.Failed? <==> ret.Raised? || (ret.Stream? && ret.end.Threw? && !(options.cancelUncompleted && ret.cutAt.Some?))
    ensures r == Unsettled <==> ret.Stream? && ret.end.Never? && !(options.cancelUncompleted && ret.cutAt.Some?)
    ensures ret.Stream? && !(options.cancelUncompleted && ret.cutAt.Some?) && ret.end.Completed? ==>
      (r == Emitted <==> ret.emitted > 0)
    ensures ret.Stream? && r == Emitted ==> ret.emitted > 0
  {
    match ret
    case Plain => Emitted
    case Raised(e) => Failed(e)
    case Stream(n, end, cut) =>
      if options.cancelUncompleted && cut.Some? then
        (if cut.value > 0 then Emitted else EmptyCompletion)
      else
        (match end
         case Completed => if n > 0 then Emitted else EmptyCompletion
         case Threw(e) => Failed(e)
         case Never => Unsettled)
  }

  /** The handlers one state runs for `key`, in registration order. */
  function CallsOf(s: MappedStore, key: string): (r: seq<HandlerCall>)
    ensures |r| == |HandlersAt(s.actions, key)|
    ensures forall j :: 0 <= j < |r| ==> r[j] == HandlerCall(s.name, HandlersAt(s.actions, key)[j])
  {
    seq(|HandlersAt(s.actions, key)|, j requires 0 <= j < |HandlersAt(s.actions, key)| =>
      HandlerCall(s.name, HandlersAt(s.actions, key)[j]))
  }

  /** Every handler of every registered state for `key`: states in registry order, each state's handlers in order. */
  function Handlers(states: seq<MappedStore>, key: string): seq<HandlerCall>
    decreases |states|
  {
    if states == [] then []
    else Handlers(states[..|states| - 1], key) + CallsOf(states[|states| - 1], key)
  }

  /** A handler runs exactly when some registered state registered it for the action's type. */
  lemma {:induction false} HandlersMembership(states: seq<MappedStore>, key: string, c: HandlerCall)
    ensures c in Handlers(states, key) <==>
      exists s :: s in states && c.state == s.name && c.handler in HandlersAt(s.actions, key)
    decreases |states|
  {
    if states != [] {
      var pre := states[..|states| - 1];
      var last := states[|states| - 1];
      HandlersMembership(pre, key, c);
      assert states == pre + [last];
      if c in CallsOf(last, key) {
        var j :| 0 <= j < |CallsOf(last, key)| && CallsOf(last, key)[j] == c;
        assert c.handler == HandlersAt(last.actions, key)[j];
      }
      if c.state == last.name && c.handler in HandlersAt(last.actions, key) {
        var j :| 0 <= j < |HandlersAt(last.actions, key)| && HandlersAt(last.actions, key)[j] == c.handler;
        assert CallsOf(last, key)[j] == c;
      }
    }
  }

  /** Handlers keep registry order: those of `a + b` are those of `a`, then those of `b`. */
  lemma {:induction false} HandlersConcat(a: seq<MappedStore>, b: seq<MappedStore>, key: string)
    ensures Handlers(a + b, key) == Handlers(a, key) + Handlers(b, key)
    decreases |b|
  {
    if b == [] {
      assert a + b == a;
    } else {
      var b' := b[..|b| - 1];
      var last := b[|b| - 1];
      assert (a + b)[..|a + b| - 1] == a + b';
      assert (a + b)[|a + b| - 1] == last;
      assert Handlers(a + b, key) == Handlers(a + b', key) + CallsOf(last, key);
      HandlersConcat(a, b', key);
    }
  }

  /** The wrapped results of `calls`, in handler order. */
  function Shaped(calls: seq<HandlerCall>, call: HandlerCall -> Return): (r: seq<Outcome>)
    ensures |r| == |calls|
    ensures forall j :: 0 <= j < |calls| ==> r[j] == Shape(call(calls[j]), calls[j].handler.options)
  {
    seq(|calls|, j requires 0 <= j < |calls| => Shape(call(calls[j]), calls[j].handler.options))
  }

  /** Wrapping keeps handler order: the results for `a + b` are those for `a`, then those for `b`. */
  lemma ShapedConcat(a: seq<HandlerCall>, b: seq<HandlerCall>, call: HandlerCall -> Return)
    ensures Shaped(a + b, call) == Shaped(a, call) + Shaped(b, call)
  {
  }

  /** What the join waits for: the wrapped results, or a single emission when no handler runs. */
  function Invoked(calls: seq<HandlerCall>, call: HandlerCall -> Return): (r: seq<Outcome>)
    ensures |r| >= 1
  {
    if calls == [] then [Emitted] else Shaped(calls, call)
  }

  /** Whether a result settles without emitting: it decides the join as soon as it settles. */
  predicate Decisive(o: Outcome) {
    o.EmptyCompletion? || o.Failed?
  }

  /** How many results, in completion order, come before the first that settles without emitting. */
  function SettledPrefix(completed: seq<Outcome>): (r: nat)
    ensures r <= |completed|
    ensures forall j :: 0 <= j < r ==> !Decisive(completed[j])
    ensures r < |completed| ==> Decisive(completed[r])
    decreases |completed|
  {
    if completed == [] || Decisive(completed[0]) then 0 else 1 + SettledPrefix(completed[1..])
  }

  /**
   * The join of the results, given in the order they settle (a result that
   * never settles may stand anywhere): the first one that ends without
   * emitting or with an error decides; otherwise the join emits once all
   * have emitted, and never settles while one of them never does; an empty
   * join completes without emitting.
   */
  function ForkJoin(completed: seq<Outcome>): Outcome
    decreases |completed|
  {
    if completed == [] then EmptyCompletion
    else if Decisive(completed[0]) || |completed| == 1 then completed[0]
    else
      var rest := ForkJoin(completed[1..]);
      if completed[0] == Unsettled && rest == Emitted then Unsettled else rest
  }

  /** The join is decided by the first result that settles without emitting, if there is one. */
  lemma {:induction false} ForkJoinFirstSettled(completed: seq<Outcome>)
    ensures ForkJoin(completed) ==
      if completed == [] then EmptyCompletion
      else if SettledPrefix(completed) < |completed| then completed[SettledPrefix(completed)]
      else if Unsettled in completed then Unsettled
      else Emitted
    decreases |completed|
  {
    if completed != [] && !Decisive(completed[0]) && |completed| > 1 {
      ForkJoinFirstSettled(completed[1..]);
      assert SettledPrefix(completed) == 1 + SettledPrefix(completed[1..]);
      assert completed == [completed[0]] + completed[1..];
    }
  }

  /**
   * The action's final context, once the join settles: an emission gives
   * Successful, completion without emission gives Canceled, an error gives
   * Errored with that error. A join that never settles gives none.
   */
  function ResultContext(action: ActionRef, completed: seq<Outcome>): (r: Option<ActionContext>)
    ensures r.None? <==> ForkJoin(completed) == Unsettled
    ensures r.Some? ==> r.value.action == action && r.value.status != Dispatched
  {
    match ForkJoin(completed)
    case Emitted => Some(ActionContext(action, Successful, Undefined))
    case EmptyCompletion => Some(ActionContext(action, Canceled, Undefined))
    case Failed(e) => Some(ActionContext(action, Errored, e))
    case Unsettled => None
  }

  /** The status of the action's result context, if it gets one. */
  function StatusOf(r: Option<ActionContext>): Option<Status> {
    if r.Some? then Some(r.value.status) else None
  }

  /** Successful exactly when at least one result settles and every one emits. */
  lemma SuccessfulIff(action: ActionRef, completed: seq<Outcome>)
    ensures StatusOf(ResultContext(action, completed)) == Some(Successful) <==>
      |completed| > 0 && forall j :: 0 <= j < |completed| ==> completed[j] == Emitted
  {
    ForkJoinFirstSettled(completed);
  }

  /** Errored exactly when the first result to settle without emitting failed, and the error is that result's. */
  lemma ErroredIff(action: ActionRef, completed: seq<Outcome>)
    ensures var k := SettledPrefix(completed);
      StatusOf(ResultContext(action, completed)) == Some(Errored) <==> k < |completed| && completed[k].Failed?
    ensures var k := SettledPrefix(completed);
      k < |completed| && completed[k].Failed? ==> ResultContext(action, completed).value.error == completed[k].error
  {
    ForkJoinFirstSettled(completed);
  }

  /** Canceled exactly when nothing is joined or the first result to settle without emitting completed empty. */
  lemma CanceledIff(action: ActionRef, completed: seq<Outcome>)
    ensures var k := SettledPrefix(completed);
      StatusOf(ResultContext(action, completed)) == Some(Canceled) <==>
        completed == [] || (k < |completed| && completed[k] == EmptyCompletion)
  {
    ForkJoinFirstSettled(completed);
  }

  /**
   * No result context at all exactly when no result settles without
   * emitting and some result never settles.
   */
  lemma NoResultIff(action: ActionRef, completed: seq<Outcome>)
    ensures ResultContext(action, completed).None? <==>
      (forall j :: 0 <= j < |completed| ==> !Decisive(completed[j])) && Unsettled in completed
  {
    ForkJoinFirstSettled(completed);
  }

  /** Whether the action succeeds does not depend on the order in which its handlers settle. */
  lemma SuccessIndependentOfOrder(action: ActionRef, outcomes: seq<Outcome>, order: seq<nat>)
    requires IsOrder(order, |outcomes|)
    ensures StatusOf(ResultContext(action, InOrder(outcomes, order))) == Some(Successful) <==>
      |outcomes| > 0 && forall j :: 0 <= j < |outcomes| ==> outcomes[j] == Emitted
  {
    var c := InOrder(outcomes, order);
    SuccessfulIff(action, c);
    if |c| > 0 && forall j :: 0 <= j < |c| ==> c[j] == Emitted {
      forall k | 0 <= k < |outcomes| ensures outcomes[k] == Emitted {
        InOrderCovers(outcomes, order, k);
      }
    }
  }

  /** Whether the action gets a result context at all does not depend on the order either. */
  lemma NoResultIndependentOfOrder(action: ActionRef, outcomes: seq<Outcome>, order: seq<nat>)
    requires IsOrder(order, |outcomes|)
    ensures ResultContext(action, InOrder(outcomes, order)).None? <==>
      (forall j :: 0 <= j < |outcomes| ==> !Decisive(outcomes[j])) && Unsettled in outcomes
  {
    var c := InOrder(outcomes, order);
    NoResultIff(action, c);
    if Unsettled in outcomes {
      var k :| 0 <= k < |outcomes| && outcomes[k] == Unsettled;
      InOrderCovers(outcomes, order, k);
    }
    if Unsettled in c {
      var j :| 0 <= j < |c| && c[j] == Unsettled;
      assert outcomes[order[j]] == Unsettled;
    }
    if exists k :: 0 <= k < |outcomes| && Decisive(outcomes[k]) {
      var k :| 0 <= k < |outcomes| && Decisive(outcomes[k]);
      InOrderCovers(outcomes, order, k);
    }
  }

  /**
   * Which of several non-emitting results decides does depend on the order:
   * an empty completion settling before an error cancels the action, the
   * other way round errors it.
   */
  lemma FailureDependsOnOrder(action: ActionRef, e: Value)
    ensures StatusOf(ResultContext(action, [EmptyCompletion, Failed(e)])) == Some(Canceled)
    ensures ResultContext(action, [Failed(e), EmptyCompletion]) == Some(ActionContext(action, Errored, e))
  {
  }

  /** With no handler for its type, a dispatched action succeeds. */
  lemma NoHandlerSucceeds(action: ActionRef, call: HandlerCall -> Return)
    ensures StatusOf(ResultContext(action, Invoked([], call))) == Some(Successful)
  {
  }

  /** If every handler returns a plain value, the action succeeds whatever the completion order. */
  lemma PlainHandlersSucceed(action: ActionRef, calls: seq<HandlerCall>, call: HandlerCall -> Return, order: seq<nat>)
    requires forall c :: c in calls ==> call(c).Plain?
    requires IsOrder(order, |Invoked(calls, call)|)
    ensures StatusOf(ResultContext(action, InOrder(Invoked(calls, call), order))) == Some(Successful)
  {
    var o := Invoked(calls, call);
    forall j | 0 <= j < |o| ensures o[j] == Emitted {
      if calls != [] {
        assert calls[j] in calls;
      }
    }
    SuccessIndependentOfOrder(action, o, order);
  }

  /** A handler that throws synchronously, alone for its type, errors the action with its error. */
  lemma ThrowingHandlerErrors(action: ActionRef, c: HandlerCall, call: HandlerCall -> Return)
    requires call(c).Raised?
    ensures ResultContext(action, Invoked([c], call)) == Some(ActionContext(action, Errored, call(c).error))
  {
    assert Invoked([c], call) == [Failed(call(c).error)];
  }

  /**
   * A handler whose stream never ends and is not cut, alone for its type,
   * leaves the action without a result context.
   */
  lemma NeverEndingHandlerBlocks(action: ActionRef, c: HandlerCall, call: HandlerCall -> Return)
    requires call(c).Stream? && call(c).end.Never?
    requires !(c.handler.options.cancelUncompleted && call(c).cutAt.Some?)
    ensures ResultContext(action, Invoked([c], call)).None?
  {
    assert Invoked([c], call) == [Unsettled];
  }

  /**
   * The registry: the states added so far, whether the action handlers are
   * connected, and how many subscriptions to the action stream it holds.
   */
  class StateFactory {
    var states: seq<MappedStore>
    var connected: bool
    var subscriptions: nat

    /** The handlers are connected through exactly one subscription, or none. */
    ghost predicate Valid()
      reads this
    {
      subscriptions == (if connected then 1 else 0)
    }

    constructor ()
      ensures Valid() && states == [] && !connected
    {
      states := [];
      connected := false;
      subscriptions := 0;
    }

    /**
     * `add`: walks the visits in order. Each decorated class gets its path
     * assigned (the last visit wins) and, unless a state of that name was
     * registered before the call, a fresh registration; the first
     * undecorated class aborts the call, leaving the registry as it was
     * but the paths assigned before it in place.
     */
    method Add(visits: seq<Visit>) returns (r: Result<seq<MappedStore>, FactoryError>)
      modifies this, MetasOf(visits)
      ensures connected == old(connected) && subscriptions == old(subscriptions)
      ensures forall m :: m in MetasOf(visits) ==> m.actions == old(m.actions) && m.defaults == old(m.defaults)
      ensures forall m :: m in MetasOf(visits) ==>
        m.path == (if LastDepth(visits[..Decorated(visits)], m).Some?
                   then LastDepth(visits[..Decorated(visits)], m) else old(m.path))
      ensures Decorated(visits) < |visits| ==> r == Err(NotDecorated) && states == old(states)
      ensures Decorated(visits) == |visits| ==>
        r == Ok(NewStores(old(states), old(Decls(visits)))) && states == old(states) + r.value
    {
      ghost var before := map m | m in MetasOf(visits) :: m.path;
      var k, added := VisitAll(visits, states, before);
      if k < |visits| {
        r := Err(NotDecorated);
        return;
      }
      states := states + added;
      r := Ok(added);
    }

    /**
     * The loop of `add`: assigns the paths and collects the registrations,
     * stopping at the first undecorated class; `k` is where it stopped.
     */
    static method VisitAll(visits: seq<Visit>, existing: seq<MappedStore>, ghost before: map<StateMeta, Option<string>>)
      returns (k: nat, added: seq<MappedStore>)
      requires PathsAfter(visits, 0, before)
      modifies MetasOf(visits)`path
      ensures k == Decorated(visits)
      ensures PathsAfter(visits, k, before)
      ensures k == |visits| ==> added == NewStores(existing, old(Decls(visits)))
    {
      added := [];
      ghost var decls: seq<StateDecl> := [];
      k := 0;
      while k < |visits|
        invariant 0 <= k <= Decorated(visits)
        invariant PathsAfter(visits, k, before)
        invariant decls == old(Decls(visits[..k]))
        invariant added == NewStores(existing, decls)
      {
        var v := visits[k];
        if v.meta == null {
          return;
        }
        var d := StateDecl(v.name, v.depth, v.meta.defaults, v.meta.actions);
        assert visits[..k + 1][..k] == visits[..k];
        assert old(Decls(visits[..k + 1])) == decls + [d];
        AssignPath(visits, k, before);
        added := Register(existing, added, decls, d);
        decls := decls + [d];
        k := k + 1;
      }
      assert visits[..|visits|] == visits;
    }

    /** One step of the loop of `add`: a declaration is registered unless its name was registered before the call. */
    static method Register(existing: seq<MappedStore>, added: seq<MappedStore>, ghost decls: seq<StateDecl>, d: StateDecl)
      returns (r: seq<MappedStore>)
      requires added == NewStores(existing, decls)
      ensures r == NewStores(existing, decls + [d])
    {
      NewStoresStep(existing, decls, d);
      r := added;
      if d.name !in Names(existing) {
        r := r + [ToStore(d)];
      }
    }

    /** One step of the loop of `add`: the visited class's metadata takes the visit's depth as its path. */
    static method AssignPath(visits: seq<Visit>, k: nat, ghost before: map<StateMeta, Option<string>>)
      requires k < |visits| && visits[k].meta != null
      requires PathsAfter(visits, k, before)
      modifies visits[k].meta`path
      ensures visits[k].meta.path == Some(visits[k].depth)
      ensures PathsAfter(visits, k + 1, before)
    {
      var meta := visits[k].meta;
      meta.path := Some(visits[k].depth);
      forall m | m in MetasOf(visits)
        ensures m in before && m.path == (if LastDepth(visits[..k + 1], m).Some? then LastDepth(visits[..k + 1], m) else before[m])
      {
        LastDepthStep(visits, k, m);
      }
    }

    /**
     * `addAndReturnDefaults`: nothing for a missing class list; otherwise
     * the outcome of `Add`, with the composite defaults of the added states.
     * When composing the defaults throws, the states stay registered (`add`
     * has already run) and the error is the outcome.
     */
    method AddAndReturnDefaults(classes: Option<seq<Visit>>) returns (r: Option<Result<Added, FactoryError>>)
      modifies this, if classes.Some? then MetasOf(classes.value) else {}
      ensures connected == old(connected) && subscriptions == old(subscriptions)
      ensures classes.None? ==> r.None? && states == old(states)
      ensures classes.Some? ==> r.Some?
      ensures classes.Some? && Decorated(classes.value) < |classes.value| ==>
        r.value == Err(NotDecorated) && states == old(states)
      ensures classes.Some? && Decorated(classes.value) == |classes.value| ==>
        var added := NewStores(old(states), old(Decls(classes.value)));
        && states == old(states) + added
        && (CompositeDefaults(added).Ok? ==> r.value == Ok(Added(CompositeDefaults(added).value, added)))
        && (CompositeDefaults(added).Err? ==> r.value == Err(DefaultsThrew(CompositeDefaults(added).error)))
    {
      if classes.None? {
        return None;
      }
      var added := Add(classes.value);
      match added
      case Err(e) => r := Some(Err(e));
      case Ok(ss) =>
        var defaults := ComposeDefaults(ss);
        match defaults
        case Ok(d) => r := Some(Ok(Added(d, ss)));
        case Err(e) => r := Some(Err(DefaultsThrew(e)));
    }

    /** The `reduce` of `setValue` over the added states, starting from `{}`; a throwing write ends it. */
    static method ComposeDefaults(ss: seq<MappedStore>) returns (defaults: Result<Value, JsError>)
      ensures defaults == CompositeDefaults(ss)
    {
      defaults := Ok(Obj(map[]));
      var i := 0;
      while i < |ss|
        invariant 0 <= i <= |ss|
        invariant defaults == CompositeDefaults(ss[..i]) && defaults.Ok?
      {
        assert ss[..i + 1][..i] == ss[..i];
        defaults := SetValue(defaults.value, ss[i].depth, ss[i].defaults);
        if defaults.Err? {
          CompositeErrPersists(ss, i + 1);
          return;
        }
        i := i + 1;
      }
      assert ss[..|ss|] == ss;
    }

    /**
     * `connectActionHandlers`: subscribes to the action stream once; later
     * calls change nothing.
     */
    method ConnectActionHandlers()
      requires Valid()
      modifies this
      ensures Valid() && connected && subscriptions == 1
      ensures states == old(states)
    {
      if connected {
        return;
      }
      subscriptions := subscriptions + 1;
      connected := true;
    }

    /**
     * `invokeActions`: calls every handler of every registered state for
     * the action's type, in registry order, and wraps each result.
     */
    method InvokeActions(action: ActionRef, call: HandlerCall -> Return)
      returns (calls: seq<HandlerCall>, outcomes: seq<Outcome>)
      ensures calls == Handlers(states, TypeKey(ActionTypeOf(action)))
      ensures outcomes == Invoked(calls, call)
    {
      var key := TypeKey(ActionTypeOf(action));
      calls := [];
      outcomes := [];
      var i := 0;
      while i < |states|
        invariant 0 <= i <= |states|
        invariant calls == Handlers(states[..i], key)
        invariant outcomes == Shaped(calls, call)
      {
        var cs, os := RunHandlers(states[i], key, call);
        ShapedConcat(calls, cs, call);
        assert states[..i + 1][..i] == states[..i];
        calls := calls + cs;
        outcomes := outcomes + os;
        i := i + 1;
      }
      assert states[..|states|] == states;
      if outcomes == [] {
        outcomes := [Emitted];
      }
    }

    /** The inner loop of `invokeActions`: one state's handlers for `key`, called and wrapped in order. */
    static method RunHandlers(s: MappedStore, key: string, call: HandlerCall -> Return)
      returns (calls: seq<HandlerCall>, outcomes: seq<Outcome>)
      ensures calls == CallsOf(s, key)
      ensures outcomes == Shaped(calls, call)
    {
      var metas := HandlersAt(s.actions, key);
      calls := [];
      outcomes := [];
      var j := 0;
      while j < |metas|
        invariant 0 <= j <= |metas|
        invariant calls == CallsOf(s, key)[..j]
        invariant outcomes == Shaped(calls, call)
      {
        var c := HandlerCall(s.name, metas[j]);
        ShapedConcat(calls, [c], call);
        calls := calls + [c];
        outcomes := outcomes + [Shape(call(c), metas[j].options)];
        j := j + 1;
      }
    }

    /**
     * One context arriving on the action stream: once connected, a
     * dispatched action runs its handlers and, once they settle in the
     * given order, yields its result context (none while the join never
     * settles); anything else yields none.
     */
    method HandleContext(ctx: ActionContext, call: HandlerCall -> Return, order: seq<nat>)
      returns (result: Option<ActionContext>)
      requires connected && ctx.status == Dispatched ==>
        IsOrder(order, |Invoked(Handlers(states, TypeKey(ActionTypeOf(ctx.action))), call)|)
      ensures !(connected && ctx.status == Dispatched) ==> result.None?
      ensures connected && ctx.status == Dispatched ==>
        result == ResultContext(ctx.action,
          InOrder(Invoked(Handlers(states, TypeKey(ActionTypeOf(ctx.action))), call), order))
    {
      if !connected || ctx.status != Dispatched {
        return None;
      }
      var calls, outcomes := InvokeActions(ctx.action, call);
      result := ResultContext(ctx.action, InOrder(outcomes, order));
    }
  }
}
