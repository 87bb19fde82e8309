/**
 * The JavaScript values the store keeps in its state tree, with the few
 * language operations the store's code relies on: truthiness, reading and
 * writing a property, and the two spread copies `{...v}` and `[...a]`.
 *
 * Numbers are integers (floating point is not modelled). An array keeps its
 * indexed elements in `items` and any other named property in `props`, as a
 * JavaScript array does; a hole left by a write past the end reads back as
 * `undefined`.
 */
module Json {
  import opened Wrappers

  datatype Value =
    | Undefined
    | Null
    | Bool(b: bool)
    | Num(n: int)
    | Str(s: string)
    | Arr(items: seq<Value>, props: map<string, Value>)
    | Obj(fields: map<string, Value>)
  {
    /** Object and array values: the only values whose properties can be written. */
    predicate IsContainer() { Arr? || Obj? }

    /** Reading any property of `undefined` or `null` throws a TypeError. */
    predicate IsReadable() { !Undefined? && !Null? }
  }

  /** JavaScript truthiness: `undefined`, `null`, `false`, `0` and `""` are falsy. */
  predicate Truthy(v: Value) {
    match v
    case Undefined => false
    case Null => false
    case Bool(b) => b
    case Num(n) => n != 0
    case Str(s) => s != ""
    case Arr(_, _) => true
    case Obj(_) => true
  }

  predicate IsDigit(c: char) { '0' <= c <= '9' }

  /** The decimal spelling of `n`, as `String(n)` gives it. */
  function Decimal(n: nat): (r: string)
    decreases n
  {
    if n < 10 then [(48 + n) as char] else Decimal(n / 10) + [(48 + n % 10) as char]
  }

  /** The number a string of decimal digits spells. */
  function DigitsValue(k: string): nat
    requires AllDigits(k)
  {
    if k == [] then 0
    else
      assert IsDigit(k[|k| - 1]);
      DigitsValue(k[..|k| - 1]) * 10 + (k[|k| - 1] as int - 48)
  }

  /**
   * The array index a property name denotes: a canonical decimal numeral
   * ("0", "7", "12" but not "", "07" or "1a"). Every other name is an
   * ordinary named property.
   */
  function Index(k: string): Option<nat> {
    if k == [] || (k[0] == '0' && |k| > 1) || exists i :: 0 <= i < |k| && !IsDigit(k[i]) then None
    else Some(DigitsValue(k))
  }

  lemma {:induction false} DecimalShape(n: nat)
    ensures |Decimal(n)| >= 1
    ensures forall i :: 0 <= i < |Decimal(n)| ==> IsDigit(Decimal(n)[i])
    ensures Decimal(n)[0] == '0' ==> n == 0
    ensures DigitsValue(Decimal(n)) == n
    decreases n
  {
    if n >= 10 {
      DecimalShape(n / 10);
      var d := Decimal(n);
      assert d[..|d| - 1] == Decimal(n / 10);
    }
  }

  /** Spelling a number and reading it back as an index gives the number. */
  lemma IndexOfDecimal(n: nat)
    ensures Index(Decimal(n)) == Some(n)
  {
    DecimalShape(n);
  }

  /** A digit string without a leading zero spells at least one. */
  lemma {:induction false} NoLeadingZeroPositive(k: string)
    requires k != [] && k[0] != '0'
    requires forall i :: 0 <= i < |k| ==> IsDigit(k[i])
    ensures DigitsValue(k) >= 1
    decreases |k|
  {
    if |k| > 1 {
      NoLeadingZeroPositive(k[..|k| - 1]);
    }
  }

  /** An index name is the decimal spelling of the index it denotes. */
  lemma {:induction false} DecimalOfIndex(k: string)
    requires Index(k).Some?
    ensures Decimal(Index(k).value) == k
    decreases |k|
  {
    if |k| > 1 {
      var p := k[..|k| - 1];
      assert forall i :: 0 <= i < |p| ==> IsDigit(p[i]) by {
        forall i | 0 <= i < |p| ensures IsDigit(p[i]) { assert p[i] == k[i]; }
      }
      NoLeadingZeroPositive(p);
      assert Index(p) == Some(DigitsValue(p));
      DecimalOfIndex(p);
      assert k == p + [k[|k| - 1]];
    }
  }

  /** Two names denoting the same index are the same name. */
  lemma IndexInjective()
    ensures forall k1, k2 :: Index(k1).Some? && Index(k1) == Index(k2) ==> k1 == k2
  {
    forall k1, k2 | Index(k1).Some? && Index(k1) == Index(k2) ensures k1 == k2 {
      DecimalOfIndex(k1);
      DecimalOfIndex(k2);
    }
  }

  lemma DecimalInjective()
    ensures forall m: nat, n: nat :: Decimal(m) == Decimal(n) ==> m == n
  {
    forall m: nat, n: nat | Decimal(m) == Decimal(n) ensures m == n {
      IndexOfDecimal(m);
      IndexOfDecimal(n);
    }
  }

  /** The properties `{...v}` gives an indexed sequence: "0", "1", ... */
  function IndexEntries(vs: seq<Value>): map<string, Value> {
    DecimalInjective();
    map i | 0 <= i < |vs| :: Decimal(i) := vs[i]
  }

  /** One-character strings, as indexing a string yields them. */
  function Chars(s: string): seq<Value> {
    seq(|s|, i requires 0 <= i < |s| => Str([s[i]]))
  }

  /**
   * `v[k]` for a value that is neither `undefined` nor `null`. Members that
   * objects, numbers and booleans inherit from their prototypes are not
   * modelled and read as `undefined`.
   */
  function Prop(v: Value, k: string): Value
    requires v.IsReadable()
  {
    match v
    case Obj(f) => if k in f then f[k] else Undefined
    case Arr(items, props) =>
      (match Index(k)
       case Some(i) => if i < |items| then items[i] else Undefined
       case None => if k == "length" then Num(|items|) else if k in props then props[k] else Undefined)
    case Str(s) =>
      (match Index(k)
       case Some(i) => if i < |s| then Str([s[i]]) else Undefined
       case None => if k == "length" then Num(|s|) else Undefined)
    case _ => Undefined
  }

  /** Elements after writing `v` at index `i`; a write past the end leaves holes. */
  function StoreAt(items: seq<Value>, i: nat, v: Value): (r: seq<Value>)
    ensures |r| == if i < |items| then |items| else i + 1
    ensures r[i] == v
    ensures forall j :: 0 <= j < |r| && j != i ==> r[j] == if j < |items| then items[j] else Undefined
  {
    if i < |items| then items[i := v] else items + seq(i - |items|, _ => Undefined) + [v]
  }

  /** The RangeError ("Invalid array length") that writing a bad `length` to an array throws. */
  datatype JsError = InvalidArrayLength

  predicate AllDigits(s: string) {
    forall i :: 0 <= i < |s| ==> IsDigit(s[i])
  }

  /**
   * `Number(s)` for the strings whose number is a whole one written in
   * plain decimal: the empty string is `0`, and one optional `-` may lead.
   * `None` is `NaN`.
   */
  function StringToNumber(s: string): Option<int> {
    if AllDigits(s) then Some(DigitsValue(s))
    else if s[0] == '-' && |s| > 1 && AllDigits(s[1..]) then Some(-(DigitsValue(s[1..]) as int))
    else None
  }

  /**
   * `Number(v)`, with `None` for `NaN`. An array converts through its
   * string: `[]` and `[undefined]` are `0`, a one-element array is its
   * element's string read as a number, and two or more elements (which
   * join with a comma) are `NaN`. A plain object's string is
   * `"[object Object]"`, which is `NaN`.
   */
  function ToNumber(v: Value): Option<int> {
    match v
    case Undefined => None
    case Null => Some(0)
    case Bool(b) => Some(if b then 1 else 0)
    case Num(n) => Some(n)
    case Str(s) => StringToNumber(s)
    case Obj(_) => None
    case Arr(items, _) =>
      if |items| == 0 then Some(0)
      else if |items| > 1 then None
      else
        assert items[0] in items;
        match items[0]
        case Undefined => Some(0)
        case Null => Some(0)
        case Bool(_) => None
        case Obj(_) => None
        case _ => ToNumber(items[0])
  }

  /** One more than the largest array length. */
  const LengthLimit: nat := 0x1_0000_0000

  /**
   * The length `a.length = v` sets: the number `v` converts to, when that
   * is a whole number from `0` to `2^32 - 1`. Anything else is `None`,
   * and then the write throws.
   */
  function ArrayLength(v: Value): (r: Option<nat>)
    ensures r.Some? <==> ToNumber(v).Some? && 0 <= ToNumber(v).value < LengthLimit
    ensures r.Some? ==> r.value == ToNumber(v).value
  {
    match ToNumber(v)
    case Some(n) => if 0 <= n < LengthLimit then Some(n) else None
    case None => None
  }

  /** The elements after setting the length to `n`: cut off past `n`, or padded with holes. */
  function Resized(items: seq<Value>, n: nat): (r: seq<Value>)
    ensures |r| == n
    ensures forall i :: 0 <= i < n ==> r[i] == if i < |items| then items[i] else Undefined
  {
    if n <= |items| then items[..n] else items + seq(n - |items|, _ => Undefined)
  }

  /**
   * The container after `c[k] = v`. Writing an array's `length` resizes
   * it: elements at or past the new length are gone, and a number that is
   * not a valid length throws a RangeError. Any other write reads back
   * `v` at `k`, and every other property reads as before (except the
   * `length` of an array, which a write past the end grows).
   */
  function Put(c: Value, k: string, v: Value): (r: Result<Value, JsError>)
    requires c.IsContainer()
    ensures r.Err? <==> c.Arr? && k == "length" && ArrayLength(v).None?
    ensures r.Ok? ==> r.value.Obj? == c.Obj? && r.value.Arr? == c.Arr?
    ensures r.Ok? && !(c.Arr? && k == "length") ==> Prop(r.value, k) == v
    ensures r.Ok? && !(c.Arr? && k == "length") ==>
      forall k' :: k' != k && (c.Obj? || k' != "length") ==> Prop(r.value, k') == Prop(c, k')
    ensures r.Ok? && c.Arr? && k == "length" ==>
      var n := ArrayLength(v).value;
      && Prop(r.value, "length") == Num(n)
      && (forall k' :: Index(k').Some? ==> Prop(r.value, k') == if Index(k').value < n then Prop(c, k') else Undefined)
      && (forall k' :: Index(k').None? && k' != "length" ==> Prop(r.value, k') == Prop(c, k'))
  {
    IndexInjective();
    match c
    case Obj(f) => Ok(Obj(f[k := v]))
    case Arr(items, props) =>
      match Index(k)
      case Some(i) => Ok(Arr(StoreAt(items, i, v), props))
      case None =>
        if k != "length" then Ok(Arr(items, props[k := v]))
        else if ArrayLength(v).None? then Err(InvalidArrayLength)
        else Ok(Arr(Resized(items, ArrayLength(v).value), props))
  }

  /** The named (non-index) properties of an array; its `length` is not enumerable. */
  function NamedProps(props: map<string, Value>): map<string, Value> {
    map k | k in props && Index(k).None? && k != "length" :: props[k]
  }

  /**
   * `{...v}`: a fresh object holding the own enumerable properties of `v`.
   * A string spreads into its characters; `undefined`, `null`, numbers and
   * booleans spread into `{}`.
   */
  function ObjectSpread(v: Value): (r: Value)
    ensures r.Obj?
  {
    match v
    case Obj(f) => Obj(f)
    case Arr(items, props) => Obj(IndexEntries(items) + NamedProps(props))
    case Str(s) => Obj(IndexEntries(Chars(s)))
    case _ => Obj(map[])
  }

  /** `[...a]` for an array `a`: its elements in a fresh array, without named properties. */
  function ArraySpread(a: Value): (r: Value)
    requires a.Arr?
    ensures r.Arr? && r.items == a.items && r.props == map[]
  {
    Arr(a.items, map[])
  }

  /** Reading an index property of `IndexEntries(vs)` finds the element. */
  lemma IndexEntriesAt(vs: seq<Value>, k: string)
    ensures k in IndexEntries(vs) <==> (Index(k).Some? && Index(k).value < |vs|)
    ensures k in IndexEntries(vs) ==> IndexEntries(vs)[k] == vs[Index(k).value]
  {
    if Index(k).Some? && Index(k).value < |vs| {
      DecimalOfIndex(k);
      assert Decimal(Index(k).value) in IndexEntries(vs);
    }
    if k in IndexEntries(vs) {
      var i :| 0 <= i < |vs| && Decimal(i) == k;
      IndexOfDecimal(i);
      DecimalInjective();
      assert IndexEntries(vs)[Decimal(i)] == vs[i];
    }
  }

  /**
   * `{...v}` keeps every property `v` can be read at, except the `length`
   * of an array or string, which an object does not have.
   */
  lemma ObjectSpreadKeepsProps(v: Value, k: string)
    requires v.IsReadable()
    requires v.Obj? || k != "length"
    ensures Prop(ObjectSpread(v), k) == Prop(v, k)
  {
    match v
    case Obj(_) =>
    case Arr(items, props) =>
      IndexEntriesAt(items, k);
    case Str(s) =>
      IndexEntriesAt(Chars(s), k);
    case _ =>
  }

  /** A value with no array anywhere inside it. */
  ghost predicate NoArrays(v: Value) {
    match v
    case Arr(_, _) => false
    case Obj(f) => forall k :: k in f ==> NoArrays(f[k])
    case _ => true
  }

  /** Spreading a value without arrays gives an object without arrays. */
  lemma ObjectSpreadNoArrays(v: Value)
    requires NoArrays(v)
    ensures NoArrays(ObjectSpread(v))
  {
    if v.Str? {
      var m := IndexEntries(Chars(v.s));
      forall k | k in m ensures NoArrays(m[k]) {
        IndexEntriesAt(Chars(v.s), k);
      }
    }
  }
}
