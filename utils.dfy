/**
 * The helpers of `utils/utils.ts`: resolving an action's type, matching two
 * actions by type, and the copy-on-write nested write `setValue` with its
 * reader `getValue`. A dotted property path is taken apart with
 * `split('.')`; the functions here work on the resulting segments.
 */
module Utils {
  import opened Wrappers
  import opened Json
  import opened Strings
  import opened Symbols

  /** `getActionTypeFromInstanceOrClass`: a truthy `constructor.type` wins over the own `type`. */
  function ActionTypeOf(a: ActionRef): Option<string> {
    if a.classType.Some? && a.classType.value != "" then a.classType else a.ownType
  }

  /** The handler table key for an action type; a missing type looks up `"undefined"`. */
  function TypeKey(t: Option<string>): string {
    match t
    case Some(s) => s
    case None => "undefined"
  }

  /** `actionMatcher(a1)`: a test that another action resolves to the same type. */
  function ActionMatcher(a1: ActionRef): ActionRef -> bool {
    var type1 := ActionTypeOf(a1);
    a2 => type1 == ActionTypeOf(a2)
  }

  /**
   * An action class with a non-empty static type and any instance of it
   * resolve to that type, whatever `type` field the instance carries itself,
   * so the matcher built from either accepts the other.
   */
  lemma ClassMatchesInstance(t: string, classId: nat, instance: ActionRef)
    requires t != "" && instance.classType == Some(t)
    ensures ActionTypeOf(ActionRef(classId, None, Some(t))) == Some(t) == ActionTypeOf(instance)
    ensures ActionMatcher(ActionRef(classId, None, Some(t)))(instance)
    ensures ActionMatcher(instance)(ActionRef(classId, None, Some(t)))
  {
  }

  /** The matcher compares resolved types, so it is an equivalence between actions. */
  lemma MatcherIsEquivalence(a: ActionRef, b: ActionRef, c: ActionRef)
    ensures ActionMatcher(a)(a)
    ensures ActionMatcher(a)(b) <==> ActionMatcher(b)(a)
    ensures ActionMatcher(a)(b) && ActionMatcher(b)(c) ==> ActionMatcher(a)(c)
  {
  }

  /** `Array.isArray(x) ? [...x] : {...x}`: the fresh container setValue puts on the path. */
  function CopyChild(x: Value): (r: Value)
    ensures r.IsContainer() && (r.Arr? <==> x.Arr?)
  {
    if x.Arr? then ArraySpread(x) else ObjectSpread(x)
  }

  /**
   * No container the write along `segs` reaches is an array written at
   * `length`: the containers are `acc` and, below it, the copies the
   * write puts on the path.
   */
  predicate LengthFree(acc: Value, segs: seq<string>)
    requires acc.IsContainer() && |segs| >= 1
    decreases |segs|
  {
    !(acc.Arr? && segs[0] == "length") &&
    (|segs| > 1 ==> LengthFree(CopyChild(Prop(acc, segs[0])), segs[1..]))
  }

  /**
   * The `reduce` of `setValue` from the container `acc` along `segs`: every
   * segment but the last replaces its child by a fresh copy and descends
   * into it, the last one receives `v`. Because each container written is a
   * fresh copy, the in-place writes of the source are the same as building
   * the result bottom-up here, and a RangeError from any of the writes is
   * the error of the whole write. Away from array lengths the write cannot
   * fail and `v` reads back along `segs`.
   */
  function SetPath(acc: Value, segs: seq<string>, v: Value): (r: Result<Value, JsError>)
    requires acc.IsContainer() && |segs| >= 1
    ensures r.Ok? ==> r.value.Obj? == acc.Obj? && r.value.Arr? == acc.Arr?
    ensures LengthFree(acc, segs) ==> r.Ok? && GetPath(r.value, segs) == v
    ensures r.Ok? && !(acc.Arr? && segs[0] == "length") ==>
      forall k :: k != segs[0] && (acc.Obj? || k != "length") ==> Prop(r.value, k) == Prop(acc, k)
    ensures r.Ok? && |segs| > 1 ==>
      Prop(r.value, segs[0]).IsContainer() && (Prop(r.value, segs[0]).Arr? <==> Prop(acc, segs[0]).Arr?)
    decreases |segs|
  {
    if |segs| == 1 then Put(acc, segs[0], v)
    else
      var child := SetPath(CopyChild(Prop(acc, segs[0])), segs[1..], v);
      if child.Err? then child else Put(acc, segs[0], child.value)
  }

  /** A path without a `length` segment writes no array length. */
  lemma {:induction false} NoLengthSegment(acc: Value, segs: seq<string>)
    requires acc.IsContainer() && |segs| >= 1
    requires forall j :: 0 <= j < |segs| ==> segs[j] != "length"
    ensures LengthFree(acc, segs)
    decreases |segs|
  {
    if |segs| > 1 {
      NoLengthSegment(CopyChild(Prop(acc, segs[0])), segs[1..]);
    }
  }

  /**
   * A `length` segment below an array is written with the fresh object
   * copied for it, which is not a number, so the write throws.
   */
  lemma IntermediateLengthThrows(acc: Value, segs: seq<string>, v: Value)
    requires acc.Arr? && |segs| >= 2 && segs[0] == "length"
    ensures SetPath(acc, segs, v).Err?
  {
    var child := SetPath(CopyChild(Prop(acc, segs[0])), segs[1..], v);
    if child.Ok? {
      assert child.value.Obj?;
    }
  }

  /**
   * The `reduce` of `getValue`: `acc && acc[part]` for each segment, so the
   * walk stops at the first falsy value and yields that value.
   */
  function GetPath(v: Value, segs: seq<string>): Value
    decreases |segs|
  {
    if segs == [] || !Truthy(v) then v else GetPath(Prop(v, segs[0]), segs[1..])
  }

  /**
   * `setValue(obj, prop, val)`: a shallow copy of `obj` with `val` written at
   * the dotted path `prop`, every container on the way copied, or the
   * RangeError of an invalid array length written on the way. The result
   * is an object; when no array length is written, `getValue` at the same
   * path reads `val` back; every other top-level property reads as it did
   * in `obj`.
   */
  function SetValue(obj: Value, prop: string, val: Value): (r: Result<Value, JsError>)
    ensures r.Ok? ==> r.value.Obj?
    ensures LengthFree(ObjectSpread(obj), Split(prop, '.')) ==> r.Ok? && GetValue(r.value, prop) == val
    ensures r.Ok? ==> forall k :: k != Split(prop, '.')[0] && obj.IsReadable() && (obj.Obj? || k != "length") ==>
      Prop(r.value, k) == Prop(obj, k)
  {
    var r := SetPath(ObjectSpread(obj), Split(prop, '.'), val);
    assert r.Ok? ==> forall k :: k != Split(prop, '.')[0] && obj.IsReadable() && (obj.Obj? || k != "length") ==>
      Prop(r.value, k) == Prop(obj, k) by {
      if r.Ok? {
        forall k | k != Split(prop, '.')[0] && obj.IsReadable() && (obj.Obj? || k != "length") {
          ObjectSpreadKeepsProps(obj, k);
        }
      }
    }
    r
  }

  /** A dotted path without a `length` segment is always written, and reads back. */
  lemma SetValueWithoutLength(obj: Value, prop: string, val: Value)
    requires forall j :: 0 <= j < |Split(prop, '.')| ==> Split(prop, '.')[j] != "length"
    ensures SetValue(obj, prop, val).Ok? && GetValue(SetValue(obj, prop, val).value, prop) == val
  {
    NoLengthSegment(ObjectSpread(obj), Split(prop, '.'));
  }

  /** On an object, the spread is the object itself, so `setValue` is the nested write along the split path. */
  lemma SetValueOnObject(obj: Value, prop: string, val: Value)
    requires obj.Obj?
    ensures SetValue(obj, prop, val) == SetPath(obj, Split(prop, '.'), val)
  {
    assert ObjectSpread(obj) == obj;
  }

  /** `getValue(obj, prop)`. */
  function GetValue(obj: Value, prop: string): Value {
    GetPath(obj, Split(prop, '.'))
  }

  /** Walking `a + b` is walking `a`, then `b` from where it ended. */
  lemma {:induction false} GetPathConcat(v: Value, a: seq<string>, b: seq<string>)
    ensures GetPath(v, a + b) == GetPath(GetPath(v, a), b)
    decreases |a|
  {
    if a == [] {
      assert a + b == b;
    } else if !Truthy(v) {
      FalsyStops(v, b);
    } else {
      assert (a + b)[1..] == a[1..] + b;
      GetPathConcat(Prop(v, a[0]), a[1..], b);
    }
  }

  /** A falsy value is returned by every further walk. */
  lemma FalsyStops(v: Value, segs: seq<string>)
    requires !Truthy(v)
    ensures GetPath(v, segs) == v
  {
  }

  /**
   * `getValue` stops at the first falsy intermediate: once the walk along
   * the first `j` segments has reached a falsy value, that value is the result.
   */
  lemma GetPathStopsAtFalsy(v: Value, segs: seq<string>, j: nat)
    requires j <= |segs| && !Truthy(GetPath(v, segs[..j]))
    ensures GetPath(v, segs) == GetPath(v, segs[..j])
  {
    assert segs == segs[..j] + segs[j..];
    GetPathConcat(v, segs[..j], segs[j..]);
    FalsyStops(GetPath(v, segs[..j]), segs[j..]);
  }

  /** A missing key (`undefined`) is what `getValue` yields for a path through it. */
  lemma GetValueMissingKey(obj: Value, prop: string)
    requires obj.Obj? && |Split(prop, '.')| >= 2 && Split(prop, '.')[0] !in obj.fields
    ensures GetValue(obj, prop) == Undefined
  {
    var segs := Split(prop, '.');
    assert segs[..1] == [segs[0]];
    GetPathStopsAtFalsy(obj, segs, 1);
  }

  /** Every value on the path `q`, up to and including depth `i`, is an object. */
  ghost predicate ObjectsAlong(v: Value, q: seq<string>, i: nat)
    requires i <= |q|
  {
    forall j :: 0 <= j <= i ==> GetPath(v, q[..j]).Obj?
  }

  /** `q` leaves the path `segs` at depth `i`: it agrees with it before and differs there. */
  predicate DivergesAt(q: seq<string>, segs: seq<string>, i: nat) {
    i < |q| && i < |segs| && q[..i] == segs[..i] && q[i] != segs[i]
  }

  /** Walking one step from a truthy value. */
  lemma StepIn(v: Value, q: seq<string>, j: nat)
    requires Truthy(v) && 0 < j <= |q|
    ensures GetPath(v, q[..j]) == GetPath(Prop(v, q[0]), q[1..][..j - 1])
  {
    assert q[..j][1..] == q[1..][..j - 1];
  }

  /**
   * Frame of the nested write: a path that leaves the written path at depth
   * `i`, through objects only, reads the same after the write as before.
   */
  lemma {:induction false} SetPathFrame(acc: Value, segs: seq<string>, v: Value, q: seq<string>, i: nat)
    requires acc.Obj? && |segs| >= 1 && DivergesAt(q, segs, i) && ObjectsAlong(acc, q, i)
    ensures SetPath(acc, segs, v).Ok? ==> GetPath(SetPath(acc, segs, v).value, q) == GetPath(acc, q)
    decreases i
  {
    var r := SetPath(acc, segs, v);
    if r.Ok? {
      if i == 0 {
        assert Prop(r.value, q[0]) == Prop(acc, q[0]);
      } else {
        DivergesTail(q, segs, i);
        ObjectsAlongTail(acc, q, i);
        var child := Prop(acc, q[0]);
        assert CopyChild(child) == child;
        var c := SetPath(child, segs[1..], v);
        assert c.Ok? && Prop(r.value, q[0]) == c.value;
        SetPathFrame(child, segs[1..], v, q[1..], i - 1);
      }
    }
  }

  /** Past a common first segment, the rest of `q` leaves the rest of `segs` one level lower. */
  lemma DivergesTail(q: seq<string>, segs: seq<string>, i: nat)
    requires DivergesAt(q, segs, i) && i > 0
    ensures q[0] == segs[0] && DivergesAt(q[1..], segs[1..], i - 1)
  {
    assert q[0] == q[..i][0] && segs[0] == segs[..i][0];
    assert q[1..][..i - 1] == q[..i][1..] && segs[1..][..i - 1] == segs[..i][1..];
  }

  /** Objects along `q` to depth `i` are objects along its rest from the first child. */
  lemma ObjectsAlongTail(acc: Value, q: seq<string>, i: nat)
    requires acc.Obj? && 0 < i < |q| && ObjectsAlong(acc, q, i)
    ensures Prop(acc, q[0]).Obj? && ObjectsAlong(Prop(acc, q[0]), q[1..], i - 1)
  {
    StepIn(acc, q, 1);
    assert q[1..][..0] == [];
    assert GetPath(acc, q[..1]).Obj?;
    forall j | 0 <= j <= i - 1 ensures GetPath(Prop(acc, q[0]), q[1..][..j]).Obj? {
      StepIn(acc, q, j + 1);
    }
  }

  /** The same frame for `setValue` on an object root, stated on the split paths. */
  lemma SetValueFrame(obj: Value, prop: string, val: Value, q: seq<string>, i: nat)
    requires DivergesAt(q, Split(prop, '.'), i) && ObjectsAlong(obj, q, i)
    ensures SetValue(obj, prop, val).Ok? ==> GetPath(SetValue(obj, prop, val).value, q) == GetPath(obj, q)
  {
    assert q[..0] == [];
    SetPathFrame(obj, Split(prop, '.'), val, q, i);
  }

  /**
   * A missing (or non-string primitive) intermediate becomes a fresh object
   * holding only the next segment.
   */
  lemma MissingIntermediateBecomesObject(acc: Value, segs: seq<string>, v: Value)
    requires acc.IsContainer() && |segs| >= 2
    requires !Prop(acc, segs[0]).IsContainer() && !Prop(acc, segs[0]).Str?
    ensures SetPath(acc, segs, v).Ok? ==> Prop(SetPath(acc, segs, v).value, segs[0]).Obj?
    ensures SetPath(acc, segs, v).Ok? ==> Prop(SetPath(acc, segs, v).value, segs[0]).fields.Keys == {segs[1]}
  {
    var r := SetPath(acc, segs, v);
    if r.Ok? {
      var child := SetPath(Obj(map[]), segs[1..], v);
      assert child.Ok? && Prop(r.value, segs[0]) == child.value;
    }
  }

  /** An array intermediate is copied as an array with the same elements. */
  lemma ArrayIntermediateStaysArray(acc: Value, segs: seq<string>, v: Value)
    requires acc.IsContainer() && |segs| >= 2 && Prop(acc, segs[0]).Arr?
    ensures SetPath(acc, segs, v).Ok? ==>
      Ok(Prop(SetPath(acc, segs, v).value, segs[0])) == SetPath(Arr(Prop(acc, segs[0]).items, map[]), segs[1..], v)
  {
  }

  /** In an object without arrays every container on a write's path is an object, so no length is written. */
  lemma {:induction false} ObjectsLengthFree(acc: Value, segs: seq<string>)
    requires acc.Obj? && NoArrays(acc) && |segs| >= 1
    ensures LengthFree(acc, segs)
    decreases |segs|
  {
    if |segs| > 1 {
      var child := Prop(acc, segs[0]);
      ObjectSpreadNoArrays(child);
      ObjectsLengthFree(CopyChild(child), segs[1..]);
    }
  }

  /** Writing a value without arrays into an object without arrays succeeds and keeps it free of arrays. */
  lemma {:induction false} SetPathNoArrays(acc: Value, segs: seq<string>, v: Value)
    requires acc.Obj? && NoArrays(acc) && NoArrays(v) && |segs| >= 1
    ensures SetPath(acc, segs, v).Ok? && NoArrays(SetPath(acc, segs, v).value)
    decreases |segs|
  {
    ObjectsLengthFree(acc, segs);
    if |segs| > 1 {
      var child := Prop(acc, segs[0]);
      ObjectSpreadNoArrays(child);
      SetPathNoArrays(CopyChild(child), segs[1..], v);
    }
  }

  /**
   * In an object without arrays, every container the write leaves on its
   * own path, above the written value, is an object.
   */
  lemma {:induction false} OwnPathObjects(acc: Value, segs: seq<string>, v: Value)
    requires acc.Obj? && NoArrays(acc) && |segs| >= 1
    ensures SetPath(acc, segs, v).Ok? && ObjectsAlong(SetPath(acc, segs, v).value, segs, |segs| - 1)
    decreases |segs|
  {
    ObjectsLengthFree(acc, segs);
    var r := SetPath(acc, segs, v).value;
    assert segs[..0] == [];
    if |segs| > 1 {
      var child := Prop(acc, segs[0]);
      ObjectSpreadNoArrays(child);
      var copy := CopyChild(child);
      OwnPathObjects(copy, segs[1..], v);
      assert Prop(r, segs[0]) == SetPath(copy, segs[1..], v).value;
      forall j | 0 < j <= |segs| - 1 ensures GetPath(r, segs[..j]).Obj? {
        StepIn(r, segs, j);
      }
    }
  }

  /** The path of the documentation example, split. */
  lemma SplitDocPath()
    ensures Split("foo.bar.eat", '.') == ["foo", "bar", "eat"]
  {
    var segs := ["foo", "bar", "eat"];
    assert Join(segs[2..], '.') == "eat";
    assert Join(segs[1..], '.') == "bar.eat";
    assert Join(segs, '.') == "foo.bar.eat";
    assert forall j :: 0 <= j < |segs| ==> Free(segs[j], '.');
    SplitJoin(segs, '.');
  }

  /** The write below the top of the documentation example. */
  lemma DocExampleInner()
    ensures SetPath(Obj(map["bar" := Obj(map["eat" := Bool(false)])]), ["bar", "eat"], Bool(true))
         == Ok(Obj(map["bar" := Obj(map["eat" := Bool(true)])]))
  {
    var eat := Obj(map["eat" := Bool(false)]);
    var bar := Obj(map["bar" := eat]);
    assert SetPath(eat, ["eat"], Bool(true)).value == Obj(map["eat" := Bool(true)]);
    assert ["bar", "eat"][1..] == ["eat"];
    assert CopyChild(Prop(bar, "bar")) == eat;
    assert SetPath(bar, ["bar", "eat"], Bool(true)).value == Obj(map["bar" := Obj(map["eat" := Bool(true)])]);
  }

  /** The whole write of the documentation example, on the split path. */
  lemma DocExampleOuter()
    ensures SetPath(Obj(map["foo" := Obj(map["bar" := Obj(map["eat" := Bool(false)])])]), ["foo", "bar", "eat"], Bool(true))
         == Ok(Obj(map["foo" := Obj(map["bar" := Obj(map["eat" := Bool(true)])])]))
  {
    var bar := Obj(map["bar" := Obj(map["eat" := Bool(false)])]);
    var foo := Obj(map["foo" := bar]);
    DocExampleInner();
    assert ["foo", "bar", "eat"][1..] == ["bar", "eat"];
    assert CopyChild(Prop(foo, "foo")) == bar;
    assert SetPath(foo, ["foo", "bar", "eat"], Bool(true)).value
        == Obj(map["foo" := Obj(map["bar" := Obj(map["eat" := Bool(true)])])]);
  }

  /** The example of the source's documentation comment. */
  lemma SetValueDocExample()
    ensures SetValue(Obj(map["foo" := Obj(map["bar" := Obj(map["eat" := Bool(false)])])]), "foo.bar.eat", Bool(true))
         == Ok(Obj(map["foo" := Obj(map["bar" := Obj(map["eat" := Bool(true)])])]))
  {
    var foo := Obj(map["foo" := Obj(map["bar" := Obj(map["eat" := Bool(false)])])]);
    assert SetValue(foo, "foo.bar.eat", Bool(true)) == SetPath(ObjectSpread(foo), Split("foo.bar.eat", '.'), Bool(true));
    assert ObjectSpread(foo) == foo;
    SplitDocPath();
    DocExampleOuter();
  }

  /** The path `a.length`, split. */
  lemma SplitLengthPath()
    ensures Split("a.length", '.') == ["a", "length"]
  {
    assert "a.length" == "a" + "." + "length";
    SplitPair("a", "length", '.');
  }

  /** The array `[1, 2, 3]` with its `length` set to 1. */
  lemma TruncateToOne()
    ensures SetPath(Arr([Num(1), Num(2), Num(3)], map[]), ["length"], Num(1)) == Ok(Arr([Num(1)], map[]))
  {
    var items := [Num(1), Num(2), Num(3)];
    assert Index("length").None? by { assert !IsDigit("length"[0]); }
    assert ArrayLength(Num(1)) == Some(1);
    assert Resized(items, 1) == [Num(1)];
    assert SetPath(Arr(items, map[]), ["length"], Num(1)).value == Arr([Num(1)], map[]);
  }

  /** The truncating write of `length`, on the split path. */
  lemma TruncateAlongPath()
    ensures SetPath(Obj(map["a" := Arr([Num(1), Num(2), Num(3)], map[])]), ["a", "length"], Num(1))
         == Ok(Obj(map["a" := Arr([Num(1)], map[])]))
  {
    var a := Arr([Num(1), Num(2), Num(3)], map[]);
    var obj := Obj(map["a" := a]);
    assert CopyChild(Prop(obj, "a")) == a;
    assert ["a", "length"][1..] == ["length"];
    TruncateToOne();
    assert SetPath(obj, ["a", "length"], Num(1)).value == Obj(map["a" := Arr([Num(1)], map[])]);
  }

  /** Writing 1 to the `length` of a three-element array truncates it to its first element. */
  lemma LengthWriteTruncates()
    ensures SetValue(Obj(map["a" := Arr([Num(1), Num(2), Num(3)], map[])]), "a.length", Num(1))
         == Ok(Obj(map["a" := Arr([Num(1)], map[])]))
  {
    var obj := Obj(map["a" := Arr([Num(1), Num(2), Num(3)], map[])]);
    assert SetValue(obj, "a.length", Num(1)) == SetPath(ObjectSpread(obj), Split("a.length", '.'), Num(1));
    assert ObjectSpread(obj) == obj;
    SplitLengthPath();
    TruncateAlongPath();
  }

  /** A length that is not a numeral, written on the split path. */
  lemma InvalidLengthAlongPath()
    ensures SetPath(Obj(map["a" := Arr([Num(1)], map[])]), ["a", "length"], Str("x")) == Err(InvalidArrayLength)
  {
    var a := Arr([Num(1)], map[]);
    var obj := Obj(map["a" := a]);
    assert CopyChild(Prop(obj, "a")) == a;
    assert ["a", "length"][1..] == ["length"];
    assert Index("length").None? by { assert !IsDigit("length"[0]); }
    assert !AllDigits("x") by { assert !IsDigit("x"[0]); }
    assert ArrayLength(Str("x")).None?;
    assert SetPath(a, ["length"], Str("x")) == Err(InvalidArrayLength);
  }

  /** Writing a string that is not a numeral to an array's `length` throws. */
  lemma InvalidLengthThrows()
    ensures SetValue(Obj(map["a" := Arr([Num(1)], map[])]), "a.length", Str("x")) == Err(InvalidArrayLength)
  {
    var obj := Obj(map["a" := Arr([Num(1)], map[])]);
    assert SetValue(obj, "a.length", Str("x")) == SetPath(ObjectSpread(obj), Split("a.length", '.'), Str("x"));
    assert ObjectSpread(obj) == obj;
    SplitLengthPath();
    InvalidLengthAlongPath();
  }
}
