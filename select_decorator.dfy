/**
 * The `Select` property decorator of `decorators/select.ts`: the selector
 * it derives from its arguments and the property key, the check it makes
 * on the decorated target, and the getter it installs, which creates the
 * selection on first access through the connected store and caches it in
 * the instance's `__<key>__selector` field.
 */
module SelectDecorator {
  import opened Wrappers
  import opened Json
  import opened Strings

  /**
   * The first argument of the decorator. `Absent` is `undefined` or
   * `null`; a state class carries its assigned path as it stands when the
   * property is first read (no metadata and no path are the same here).
   */
  datatype SelectorArg =
    | Absent
    | Name(s: string)
    | Fn(id: nat)
    | StateClass(id: nat, path: Option<string>)

  /** What a selection is made from: a property-path getter, or the argument itself. */
  datatype Selector = PathGetter(segments: seq<string>) | Given(arg: SelectorArg)

  /** A selection returned by `store.select`: which store made it, and from which selector. */
  datatype Selection = Selecting(store: nat, selector: Selector)

  datatype SelectError =
    /** The target already holds a truthy `__<key>__selector` property. */
    | SelectorPropertyTaken(fnName: string)
    /** The property was read before any store was connected. */
    | NotConnected

  /** A decorated property: its key, its cache field and the selector arguments. */
  datatype Decorated = Decorated(key: string, fnName: string, arg: SelectorArg, paths: seq<string>)

  /** `'__' + propertyKey + '__selector'`. */
  function SelectorFnName(key: string): string {
    "__" + key + "__selector"
  }

  /** `String.prototype.lastIndexOf` for one character; `-1` when it does not occur. */
  function LastIndexOf(s: string, c: char): (r: int)
    ensures -1 <= r < |s|
    ensures r >= 0 ==> s[r] == c
    ensures forall j :: r < j < |s| ==> s[j] != c
    decreases |s|
  {
    if s == [] then -1
    else if s[|s| - 1] == c then |s| - 1
    else LastIndexOf(s[..|s| - 1], c)
  }

  /**
   * `String.prototype.substring`: both bounds are clamped to the string,
   * and swapped when the start is after the end.
   */
  function Substring(s: string, start: int, end: int): (r: string)
    ensures |r| <= |s|
  {
    var a := if start < 0 then 0 else if start > |s| then |s| else start;
    var b := if end < 0 then 0 else if end > |s| then |s| else end;
    if a <= b then s[a..b] else s[b..a]
  }

  /** The selector name of an argument-less `Select` on property `key`. */
  function DefaultName(key: string): string {
    if LastIndexOf(key, '$') == |key| - 1 then Substring(key, 0, |key| - 1) else key
  }

  /**
   * The default name is the key with one trailing `$` removed, and the key
   * unchanged otherwise; the empty key stays empty.
   */
  lemma DefaultNameDropsTrailingDollar(key: string)
    ensures DefaultName(key) == if |key| > 0 && key[|key| - 1] == '$' then key[..|key| - 1] else key
  {
    if key != [] && key[|key| - 1] != '$' {
      assert LastIndexOf(key, '$') != |key| - 1;
    }
  }

  /** Only one `$` goes: `foo$$` names `foo$`. */
  lemma DefaultNameOfDollarKey(name: string)
    ensures DefaultName(name + "$") == name
  {
    DefaultNameDropsTrailingDollar(name + "$");
    assert (name + "$")[..|name|] == name;
  }

  /** A falsy first argument (`undefined`, `null` or `''`) is replaced by the default name. */
  function Resolved(arg: SelectorArg, key: string): (r: SelectorArg)
    ensures r != Absent
    ensures arg != Absent && arg != Name("") ==> r == arg
  {
    if arg == Absent || arg == Name("") then Name(DefaultName(key)) else arg
  }

  /**
   * `createSelector`: a string with extra paths uses them as further
   * segments, unsplit; a string alone is split on `'.'`; a state class
   * with a non-empty path reads along that path; anything else is the
   * selector itself.
   */
  function CreateSelector(arg: SelectorArg, paths: seq<string>): Selector {
    match arg
    case Name(s) => PathGetter(if |paths| > 0 then [s] + paths else Split(s, '.'))
    case StateClass(_, path) =>
      if path.Some? && path.value != "" then PathGetter(Split(path.value, '.')) else Given(arg)
    case _ => Given(arg)
  }

  /**
   * The segments of a string selector: with extra paths, the string and
   * the paths as given; without, segments that join back to the string.
   */
  lemma StringSelectorSegments(s: string, paths: seq<string>)
    ensures CreateSelector(Name(s), paths).PathGetter?
    ensures |paths| > 0 ==> CreateSelector(Name(s), paths).segments == [s] + paths
    ensures |paths| == 0 ==> Join(CreateSelector(Name(s), paths).segments, '.') == s
  {
    JoinSplit(s, '.');
  }

  /** A state class reads along its own path, split into the same segments a string of it would give. */
  lemma StateClassLikeItsPath(id: nat, path: string)
    requires path != ""
    ensures CreateSelector(StateClass(id, Some(path)), []) == CreateSelector(Name(path), [])
  {
  }

  /** A state class with no path yet, or a selector function, is passed to `select` unchanged. */
  lemma UnresolvedIsGiven(arg: SelectorArg, paths: seq<string>)
    requires arg.Fn? || (arg.StateClass? && (arg.path.None? || arg.path == Some("")))
    ensures CreateSelector(arg, paths) == Given(arg)
  {
  }

  /**
   * The decorator body: it refuses a target whose `__<key>__selector`
   * property is truthy, and otherwise describes the property it installs.
   */
  function Decorate(target: map<string, Value>, key: string, arg: SelectorArg, paths: seq<string>): (r: Result<Decorated, SelectError>)
    ensures r.Err? <==> (SelectorFnName(key) in target && Truthy(target[SelectorFnName(key)]))
    ensures r.Err? ==> r.error == SelectorPropertyTaken(SelectorFnName(key))
    ensures r.Ok? ==> r.value.key == key && r.value.fnName == SelectorFnName(key) && r.value.paths == paths
    ensures r.Ok? ==> r.value.arg == Resolved(arg, key)
  {
    var fnName := SelectorFnName(key);
    if fnName in target && Truthy(target[fnName]) then Err(SelectorPropertyTaken(fnName))
    else Ok(Decorated(key, fnName, Resolved(arg, key), paths))
  }

  /**
   * One read of a decorated property, on the instance's selector fields
   * `cache`: the cached selection if there is one (a selection is always
   * truthy); otherwise a new one from the connected store, which is
   * cached, or an error when no store is connected.
   */
  function Read(cache: map<string, Selection>, d: Decorated, store: Option<nat>): (Result<Selection, SelectError>, map<string, Selection>) {
    if d.fnName in cache then (Ok(cache[d.fnName]), cache)
    else if store.None? then (Err(NotConnected), cache)
    else
      var s := Selecting(store.value, CreateSelector(d.arg, d.paths));
      (Ok(s), cache[d.fnName := s])
  }

  /**
   * After a successful read, every later read returns the same selection,
   * whatever store is connected by then, and changes nothing.
   */
  lemma ReadIsMemoised(cache: map<string, Selection>, d: Decorated, store: Option<nat>, later: Option<nat>)
    requires Read(cache, d, store).0.Ok?
    ensures var (r1, c1) := Read(cache, d, store);
      Read(c1, d, later) == (r1, c1)
  {
  }

  /** Reading fails exactly when nothing is cached yet and no store is connected, and then changes nothing. */
  lemma ReadFailsIff(cache: map<string, Selection>, d: Decorated, store: Option<nat>)
    ensures Read(cache, d, store).0.Err? <==> (d.fnName !in cache && store.None?)
    ensures Read(cache, d, store).0.Err? ==> Read(cache, d, store) == (Err(NotConnected), cache)
  {
  }

  /** A first read through a connected store selects with the selector the arguments describe. */
  lemma FirstReadSelects(cache: map<string, Selection>, d: Decorated, store: nat)
    requires d.fnName !in cache
    ensures Read(cache, d, Some(store)).0 == Ok(Selecting(store, CreateSelector(d.arg, d.paths)))
    ensures Read(cache, d, Some(store)).1.Keys == cache.Keys + {d.fnName}
  {
  }

  /** An instance of a class with `Select`-decorated properties: its `__<key>__selector` fields. */
  class Host {
    var selectors: map<string, Selection>

    constructor ()
      ensures selectors == map[]
    {
      selectors := map[];
    }

    /** The installed getter of property `d.key`, with `store` the currently connected store. */
    method Get(d: Decorated, store: Option<nat>) returns (r: Result<Selection, SelectError>)
      modifies this
      ensures (r, selectors) == Read(old(selectors), d, store)
    {
      if d.fnName in selectors {
        return Ok(selectors[d.fnName]);
      }
      if store.None? {
        return Err(NotConnected);
      }
      var s := Selecting(store.value, CreateSelector(d.arg, d.paths));
      selectors := selectors[d.fnName := s];
      r := Ok(s);
    }
  }
}
