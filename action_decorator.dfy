/**
 * The `Action` method decorator of `decorators/action.ts`: it records, for
 * every action class it is given, one handler entry under the class's
 * static type in the state class's metadata.
 */
module ActionDecorator {
  import opened Wrappers
  import opened Symbols

  /** An action class as the decorator sees it: its name and its static `type`. */
  datatype ActionClass = ActionClass(name: string, staticType: Option<string>)

  /** The decorator's argument: one action class or a list of them. */
  datatype OneOrMany<T> = One(item: T) | Many(items: seq<T>)

  /** A single argument is treated as a one-element list. */
  function AsList<T>(x: OneOrMany<T>): seq<T> {
    match x
    case One(item) => [item]
    case Many(items) => items
  }

  /**
   * What the decorator throws: the error for a class whose static `type` is
   * missing or empty, or the TypeError of calling `push` on an inherited
   * member of the handler map (a type such as `toString` that has no list
   * of its own reads as a truthy member that is not a list, so no list is
   * created for it).
   */
  datatype DecoratorError = MissingStaticType(className: string) | PushNotAFunction(actionType: string)

  predicate HasType(c: ActionClass) {
    c.staticType.Some? && c.staticType.value != ""
  }

  /** The decorator can append an entry for `c` to the handler map `m`. */
  predicate Accepted(m: ActionsMap, c: ActionClass) {
    HasType(c) && (c.staticType.value in InheritedKeys ==> c.staticType.value in m)
  }

  /** The error the decorator throws at a class it cannot register. */
  function Rejection(c: ActionClass): DecoratorError {
    if HasType(c) then PushNotAFunction(c.staticType.value) else MissingStaticType(c.name)
  }

  /** `options || {}`: an absent options object reads as no option set. */
  function OptionsOrDefault(options: Option<ActionOptions>): ActionOptions {
    match options
    case Some(o) => o
    case None => ActionOptions(cancelUncompleted := false)
  }

  /** The handler lists after the decorator ran, and the error it threw, if any. */
  datatype Registration = Registration(actions: ActionsMap, failure: Option<DecoratorError>)

  /**
   * The decorator's loop over `classes`, stated on the prefix processed so
   * far: each typed class appends one entry at the end of its type's list
   * (created empty when absent); the first untyped class, or the first
   * whose type reads an inherited member, stops the loop with an error,
   * and what was appended before stays appended.
   */
  function Register(m: ActionsMap, classes: seq<ActionClass>, fn: string, options: ActionOptions): Registration
    decreases |classes|
  {
    if classes == [] then Registration(m, None)
    else Step(Register(m, classes[..|classes| - 1], fn, options), classes[|classes| - 1], fn, options)
  }

  /** One turn of the decorator's loop, for the class `c`. */
  function Step(prev: Registration, c: ActionClass, fn: string, options: ActionOptions): Registration {
    if prev.failure.Some? then prev
    else if !HasType(c) then Registration(prev.actions, Some(MissingStaticType(c.name)))
    else if c.staticType.value !in prev.actions && c.staticType.value in InheritedKeys then
      Registration(prev.actions, Some(PushNotAFunction(c.staticType.value)))
    else
      var t := c.staticType.value;
      Registration(prev.actions[t := HandlersAt(prev.actions, t) + [HandlerMeta(fn, options, t)]], None)
  }

  /** Registering one more class is one more turn of the loop. */
  lemma RegisterSnoc(m: ActionsMap, classes: seq<ActionClass>, k: nat, fn: string, options: ActionOptions)
    requires k < |classes|
    ensures Register(m, classes[..k + 1], fn, options) == Step(Register(m, classes[..k], fn, options), classes[k], fn, options)
  {
    assert classes[..k + 1][..k] == classes[..k];
  }

  /** How many of `classes` have the static type `t`. */
  function CountType(classes: seq<ActionClass>, t: string): nat
    decreases |classes|
  {
    if classes == [] then 0
    else CountType(classes[..|classes| - 1], t) + (if classes[|classes| - 1].staticType == Some(t) then 1 else 0)
  }

  function Repeat<T>(x: T, n: nat): seq<T> {
    seq(n, _ => x)
  }

  /** The decorator never creates a list under an inherited name: such a name has one after it exactly when it had one before. */
  lemma {:induction false} RegisterKeepsInherited(m: ActionsMap, classes: seq<ActionClass>, fn: string, options: ActionOptions, t: string)
    requires t in InheritedKeys
    ensures t in Register(m, classes, fn, options).actions <==> t in m
    decreases |classes|
  {
    if classes != [] {
      RegisterKeepsInherited(m, classes[..|classes| - 1], fn, options, t);
    }
  }

  /**
   * The decorator throws exactly when one of the classes has no usable
   * static type, or has a type that reads an inherited member of `m`.
   */
  lemma {:induction false} RegisterFailsIff(m: ActionsMap, classes: seq<ActionClass>, fn: string, options: ActionOptions)
    ensures Register(m, classes, fn, options).failure.None? <==> forall i :: 0 <= i < |classes| ==> Accepted(m, classes[i])
    decreases |classes|
  {
    if classes != [] {
      var p := classes[..|classes| - 1];
      var c := classes[|classes| - 1];
      RegisterFailsIff(m, p, fn, options);
      assert forall i :: 0 <= i < |p| ==> p[i] == classes[i];
      if HasType(c) && c.staticType.value in InheritedKeys {
        RegisterKeepsInherited(m, p, fn, options, c.staticType.value);
      }
    }
  }

  /** A class whose type is `toString` throws when no list of that name exists. */
  lemma InheritedTypeThrows(fn: string, options: ActionOptions)
    ensures Register(map[], [ActionClass("ToString", Some("toString"))], fn, options).failure
         == Some(PushNotAFunction("toString"))
  {
    assert [ActionClass("ToString", Some("toString"))][..0] == [];
  }

  /**
   * Without an error, each type's list is its old list followed by one entry
   * `{fn, options, type}` per class of that type, in order; a type that no
   * class names keeps its list, or stays absent.
   */
  lemma {:induction false} RegisterAppends(m: ActionsMap, classes: seq<ActionClass>, fn: string, options: ActionOptions, t: string)
    requires Register(m, classes, fn, options).failure.None?
    ensures HandlersAt(Register(m, classes, fn, options).actions, t) == HandlersAt(m, t) + Repeat(HandlerMeta(fn, options, t), CountType(classes, t))
    ensures t in Register(m, classes, fn, options).actions <==> t in m || CountType(classes, t) > 0
    decreases |classes|
  {
    if classes == [] {
      assert HandlersAt(m, t) + Repeat(HandlerMeta(fn, options, t), 0) == HandlersAt(m, t);
    } else {
      var p := classes[..|classes| - 1];
      RegisterAppends(m, p, fn, options, t);
      var n := CountType(p, t);
      var h := HandlerMeta(fn, options, t);
      if classes[|classes| - 1].staticType == Some(t) {
        assert Repeat(h, n) + [h] == Repeat(h, n + 1);
        assert HandlersAt(m, t) + Repeat(h, n) + [h] == HandlersAt(m, t) + Repeat(h, n + 1);
      }
    }
  }

  /**
   * On an error at the first class `k` that cannot be registered, the lists
   * are those that registering `classes[..k]` gives: nothing is rolled back.
   */
  lemma {:induction false} RegisterKeepsPartial(m: ActionsMap, classes: seq<ActionClass>, fn: string, options: ActionOptions, k: nat)
    requires k < |classes| && !Accepted(m, classes[k]) && forall i :: 0 <= i < k ==> Accepted(m, classes[i])
    ensures Register(m, classes, fn, options) == Registration(Register(m, classes[..k], fn, options).actions, Some(Rejection(classes[k])))
    ensures Register(m, classes[..k], fn, options).failure.None?
    decreases |classes|
  {
    RegisterFailsIff(m, classes[..k], fn, options);
    if |classes| == k + 1 {
      assert classes[..|classes| - 1] == classes[..k];
      if HasType(classes[k]) {
        RegisterKeepsInherited(m, classes[..k], fn, options, classes[k].staticType.value);
      }
    } else {
      var p := classes[..|classes| - 1];
      assert p[..k] == classes[..k];
      RegisterKeepsPartial(m, p, fn, options, k);
    }
  }

  /**
   * The decorator body: `meta.actions` becomes what `Register` says and the
   * error, if any, is returned in place of being thrown. Nothing but the
   * handler lists changes.
   */
  method Action(meta: StateMeta, actions: OneOrMany<ActionClass>, options: Option<ActionOptions>, methodName: string)
    returns (failure: Option<DecoratorError>)
    modifies meta`actions
    ensures Registration(meta.actions, failure) == Register(old(meta.actions), AsList(actions), methodName, OptionsOrDefault(options))
    ensures meta.defaults == old(meta.defaults) && meta.path == old(meta.path)
  {
    var list := AsList(actions);
    var opts := OptionsOrDefault(options);
    ghost var m0 := meta.actions;
    var i := 0;
    while i < |list|
      invariant 0 <= i <= |list|
      invariant Register(m0, list[..i], methodName, opts) == Registration(meta.actions, None)
    {
      RegisterSnoc(m0, list, i, methodName, opts);
      var action := list[i];
      if !(action.staticType.Some? && action.staticType.value != "") {
        RegisterTail(m0, list, i, methodName, opts);
        return Some(MissingStaticType(action.name));
      }
      var t := action.staticType.value;
      ghost var before := meta.actions;
      if t !in meta.actions {
        if t in InheritedKeys {
          RegisterTail(m0, list, i, methodName, opts);
          return Some(PushNotAFunction(t));
        }
        meta.actions := meta.actions[t := []];
      }
      meta.actions := meta.actions[t := meta.actions[t] + [HandlerMeta(methodName, opts, t)]];
      assert meta.actions == before[t := HandlersAt(before, t) + [HandlerMeta(methodName, opts, t)]];
      i := i + 1;
    }
    assert list[..i] == list;
    return None;
  }

  /** Once a prefix has failed, the rest of the list does not change the outcome. */
  lemma {:induction false} RegisterTail(m: ActionsMap, classes: seq<ActionClass>, k: nat, fn: string, options: ActionOptions)
    requires k < |classes| && Register(m, classes[..k + 1], fn, options).failure.Some?
    ensures Register(m, classes, fn, options) == Register(m, classes[..k + 1], fn, options)
    decreases |classes| - k
  {
    if |classes| == k + 1 {
      assert classes[..k + 1] == classes;
    } else {
      var p := classes[..|classes| - 1];
      assert p[..k + 1] == classes[..k + 1];
      RegisterTail(m, p, k, fn, options);
    }
  }
}
