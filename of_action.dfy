/**
 * The action filters of `operators/of-action.ts`. Each filter keeps the
 * contexts of the action stream whose action resolves to an allowed type
 * (and, for the status filters, whose status is the filter's), and passes
 * on their bare actions in order.
 *
 * The allowed types are collected into a plain `{}` record. Looking a type
 * up in such a record also finds the members every object inherits, so a
 * type named like one of them passes every filter; `PassesAsWritten` keeps
 * that behaviour, `Passes` is the evidently intended lookup that the rest
 * of this module uses.
 */
module OfAction {
  import opened Wrappers
  import opened Symbols
  import opened Utils
  import Json

  /** `createAllowedMap`: the keys set to `true`, one per resolved type of the arguments. */
  function AllowedKeys(types: seq<ActionRef>): set<string>
    decreases |types|
  {
    if types == [] then {}
    else AllowedKeys(types[..|types| - 1]) + {TypeKey(ActionTypeOf(types[|types| - 1]))}
  }

  /** A key is allowed exactly when some argument resolves to it. */
  lemma {:induction false} AllowedKeysMembers(types: seq<ActionRef>, key: string)
    ensures key in AllowedKeys(types) <==> exists t :: t in types && TypeKey(ActionTypeOf(t)) == key
    decreases |types|
  {
    if types != [] {
      var pre := types[..|types| - 1];
      AllowedKeysMembers(pre, key);
      assert types == pre + [types[|types| - 1]];
    }
  }

  /**
   * The allowed set depends only on the resolved types of the arguments, so
   * passing an action class or an instance of it is the same.
   */
  lemma {:induction false} AllowedKeysByType(types1: seq<ActionRef>, types2: seq<ActionRef>)
    requires |types1| == |types2|
    requires forall i :: 0 <= i < |types1| ==> ActionTypeOf(types1[i]) == ActionTypeOf(types2[i])
    ensures AllowedKeys(types1) == AllowedKeys(types2)
    decreases |types1|
  {
    if types1 != [] {
      AllowedKeysByType(types1[..|types1| - 1], types2[..|types2| - 1]);
    }
  }

  /** A class and an instance of it, in the same position, allow the same contexts. */
  lemma ClassOrInstance(types: seq<ActionRef>, i: nat, t: string, classId: nat, instance: ActionRef)
    requires i < |types| && t != ""
    requires instance.classType == Some(t)
    ensures AllowedKeys(types[i := ActionRef(classId, None, Some(t))]) == AllowedKeys(types[i := instance])
  {
    ClassMatchesInstance(t, classId, instance);
    AllowedKeysByType(types[i := ActionRef(classId, None, Some(t))], types[i := instance]);
  }

  /**
   * `filterStatus` as written: the lookup in the record also succeeds for
   * inherited member names; with a status, the context's status must
   * equal it as well.
   */
  predicate PassesAsWritten(allowed: set<string>, status: Option<Status>, ctx: ActionContext) {
    var key := TypeKey(ActionTypeOf(ctx.action));
    (key in allowed || key in InheritedKeys) && (status.None? || ctx.status == status.value)
  }

  /** `filterStatus` with the lookup it evidently intends: only the allowed types pass. */
  predicate Passes(allowed: set<string>, status: Option<Status>, ctx: ActionContext) {
    TypeKey(ActionTypeOf(ctx.action)) in allowed && (status.None? || ctx.status == status.value)
  }

  /** `ofActionOperator` as written: filter the contexts with the inherited-name lookup, then keep their actions. */
  function OperatorAsWritten(types: seq<ActionRef>, status: Option<Status>, ctxs: seq<ActionContext>): seq<ActionRef>
    decreases |ctxs|
  {
    if ctxs == [] then []
    else
      (if PassesAsWritten(AllowedKeys(types), status, ctxs[0]) then [ctxs[0].action] else [])
      + OperatorAsWritten(types, status, ctxs[1..])
  }

  /** Away from the inherited names, the as-written filter and the intended one agree. */
  lemma {:induction false} AsWrittenDiffersOnlyOnInheritedNames(types: seq<ActionRef>, status: Option<Status>, ctxs: seq<ActionContext>)
    ensures (forall ctx :: ctx in ctxs ==> TypeKey(ActionTypeOf(ctx.action)) !in InheritedKeys) ==>
      OperatorAsWritten(types, status, ctxs) == Operator(types, status, ctxs)
    decreases |ctxs|
  {
    if ctxs != [] {
      AsWrittenDiffersOnlyOnInheritedNames(types, status, ctxs[1..]);
    }
  }

  /**
   * An action whose type is an inherited member name passes `ofAction`
   * with no allowed type at all as written, and does not pass the
   * intended filter.
   */
  lemma InheritedNamePassesAsWritten(id: nat)
    ensures var ctx := ActionContext(ActionRef(id, Some("toString"), None), Dispatched, Json.Undefined);
      OperatorAsWritten([], None, [ctx]) == [ctx.action] && Operator([], None, [ctx]) == []
  {
    var ctx := ActionContext(ActionRef(id, Some("toString"), None), Dispatched, Json.Undefined);
    assert [ctx][1..] == [];
    assert TypeKey(ActionTypeOf(ctx.action)) == "toString";
    FilteredSingle({}, None, ctx);
  }

  /** The filter step of `ofActionOperator` over an allowed set: keep passing contexts, then their actions. */
  function Filtered(allowed: set<string>, status: Option<Status>, ctxs: seq<ActionContext>): seq<ActionRef>
    decreases |ctxs|
  {
    if ctxs == [] then []
    else
      (if Passes(allowed, status, ctxs[0]) then [ctxs[0].action] else [])
      + Filtered(allowed, status, ctxs[1..])
  }

  /** `ofActionOperator`: the allowed set is built once from the arguments, then the stream is filtered. */
  function Operator(types: seq<ActionRef>, status: Option<Status>, ctxs: seq<ActionContext>): seq<ActionRef> {
    Filtered(AllowedKeys(types), status, ctxs)
  }

  /** One context is passed on alone or dropped. */
  lemma FilteredSingle(allowed: set<string>, status: Option<Status>, ctx: ActionContext)
    ensures Filtered(allowed, status, [ctx]) == if Passes(allowed, status, ctx) then [ctx.action] else []
  {
    assert [ctx][1..] == [];
  }

  /** The filters keep input order: the output for `a + b` is the output for `a`, then for `b`. */
  lemma {:induction false} FilteredConcat(allowed: set<string>, status: Option<Status>, a: seq<ActionContext>, b: seq<ActionContext>)
    ensures Filtered(allowed, status, a + b) == Filtered(allowed, status, a) + Filtered(allowed, status, b)
    decreases |a|
  {
    if a == [] {
      assert a + b == b;
    } else {
      var rest := a[1..];
      assert a == [a[0]] + rest;
      assert a + b == [a[0]] + (rest + b);
      FilteredCons(allowed, status, a[0], rest + b);
      FilteredCons(allowed, status, a[0], rest);
      FilteredConcat(allowed, status, rest, b);
      var head := if Passes(allowed, status, a[0]) then [a[0].action] else [];
      var fr, fb := Filtered(allowed, status, rest), Filtered(allowed, status, b);
      assert head + (fr + fb) == (head + fr) + fb;
    }
  }

  /** The first context is passed on or dropped, then the rest are filtered. */
  lemma FilteredCons(allowed: set<string>, status: Option<Status>, c: ActionContext, rest: seq<ActionContext>)
    ensures Filtered(allowed, status, [c] + rest) ==
      (if Passes(allowed, status, c) then [c.action] else []) + Filtered(allowed, status, rest)
  {
    assert ([c] + rest)[0] == c && ([c] + rest)[1..] == rest;
  }

  /**
   * An action is passed on exactly when some context carrying it resolves
   * to an allowed type and, for a status filter, has that status.
   */
  lemma {:induction false} FilteredMembers(allowed: set<string>, status: Option<Status>, ctxs: seq<ActionContext>, a: ActionRef)
    ensures a in Filtered(allowed, status, ctxs) <==>
      exists ctx :: ctx in ctxs && ctx.action == a && Passes(allowed, status, ctx)
    decreases |ctxs|
  {
    if ctxs != [] {
      FilteredMembers(allowed, status, ctxs[1..], a);
      assert ctxs == [ctxs[0]] + ctxs[1..];
    }
  }

  /** Stated on the arguments: an action passes exactly when an argument resolves to its type. */
  lemma OperatorMembers(types: seq<ActionRef>, status: Option<Status>, ctxs: seq<ActionContext>, a: ActionRef)
    ensures a in Operator(types, status, ctxs) <==>
      (exists ctx :: ctx in ctxs && ctx.action == a && (status.None? || ctx.status == status.value))
      && (exists t :: t in types && TypeKey(ActionTypeOf(t)) == TypeKey(ActionTypeOf(a)))
  {
    AllowedKeysMembers(types, TypeKey(ActionTypeOf(a)));
    FilteredMembers(AllowedKeys(types), status, ctxs, a);
  }

  /** With no allowed type, nothing passes. */
  lemma {:induction false} NothingAllowedPassesNothing(status: Option<Status>, ctxs: seq<ActionContext>)
    ensures Operator([], status, ctxs) == []
    decreases |ctxs|
  {
    if ctxs != [] {
      NothingAllowedPassesNothing(status, ctxs[1..]);
    }
  }

  /** `ofAction`: every status. */
  function OfAction(types: seq<ActionRef>, ctxs: seq<ActionContext>): seq<ActionRef> {
    Operator(types, None, ctxs)
  }

  /** `ofActionDispatched`. */
  function OfActionDispatched(types: seq<ActionRef>, ctxs: seq<ActionContext>): seq<ActionRef> {
    Operator(types, Some(Dispatched), ctxs)
  }

  /** `ofActionSuccessful`. */
  function OfActionSuccessful(types: seq<ActionRef>, ctxs: seq<ActionContext>): seq<ActionRef> {
    Operator(types, Some(Successful), ctxs)
  }

  /** `ofActionCanceled`. */
  function OfActionCanceled(types: seq<ActionRef>, ctxs: seq<ActionContext>): seq<ActionRef> {
    Operator(types, Some(Canceled), ctxs)
  }

  /** `ofActionErrored`. */
  function OfActionErrored(types: seq<ActionRef>, ctxs: seq<ActionContext>): seq<ActionRef> {
    Operator(types, Some(Errored), ctxs)
  }

  /**
   * Context by context, `ofAction` passes exactly what one of the four
   * status filters passes, and the status filters never overlap.
   */
  lemma OfActionIsUnionOfStatuses(types: seq<ActionRef>, ctx: ActionContext)
    ensures OfAction(types, [ctx]) ==
      OfActionDispatched(types, [ctx]) + OfActionSuccessful(types, [ctx]) +
      OfActionCanceled(types, [ctx]) + OfActionErrored(types, [ctx])
    ensures |OfActionDispatched(types, [ctx]) + OfActionSuccessful(types, [ctx]) +
      OfActionCanceled(types, [ctx]) + OfActionErrored(types, [ctx])| <= 1
  {
    var allowed := AllowedKeys(types);
    FilteredSingle(allowed, None, ctx);
    FilteredSingle(allowed, Some(Dispatched), ctx);
    FilteredSingle(allowed, Some(Successful), ctx);
    FilteredSingle(allowed, Some(Canceled), ctx);
    FilteredSingle(allowed, Some(Errored), ctx);
  }

  /** A status filter passes a subsequence of what `ofAction` passes: it only drops contexts. */
  lemma {:induction false} StatusFilterNarrows(types: seq<ActionRef>, s: Status, ctxs: seq<ActionContext>)
    ensures |Operator(types, Some(s), ctxs)| <= |OfAction(types, ctxs)|
    ensures forall a :: a in Operator(types, Some(s), ctxs) ==> a in OfAction(types, ctxs)
    decreases |ctxs|
  {
    if ctxs != [] {
      StatusFilterNarrows(types, s, ctxs[1..]);
    }
  }
}
