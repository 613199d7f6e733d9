/** The JavaScript values that the client puts into query objects and error bodies, and plain
    objects as the ordered list of their own properties, with the object spread `{...a, ...b}`. */
module Js {
  import opened Numbers

  /** A primitive JavaScript value (numbers restricted to integers). */
  datatype Value = Undefined | Null | Bool(b: bool) | Num(n: int) | Str(s: string)

  /** JavaScript truthiness: `undefined`, `null`, `false`, `0` and `''` are falsy. */
  predicate Truthy(v: Value) {
    match v
    case Undefined => false
    case Null => false
    case Bool(b) => b
    case Num(n) => n != 0
    case Str(s) => s != ""
  }

  /** `String(v)`, which is also `v.toString()` for the values that have that method. */
  function ToString(v: Value): string {
    match v
    case Undefined => "undefined"
    case Null => "null"
    case Bool(b) => if b then "true" else "false"
    case Num(n) => IntToString(n)
    case Str(s) => s
  }

  /** A truthy value never prints as the empty string. */
  lemma TruthyToStringNonEmpty(v: Value)
    requires Truthy(v)
    ensures ToString(v) != ""
  {
  }

  /** One own property of a plain object whose values have type `V`. */
  datatype Entry<V> = Entry(key: string, value: V)

  /** A plain object: its own properties in property order (insertion order for non-index keys). */
  type Props<V> = seq<Entry<V>>

  /** An object whose properties hold primitive values, such as a query object. */
  type Object = Props<Value>

  function Keys<V>(o: Props<V>): (ks: seq<string>)
    ensures |ks| == |o|
    ensures forall i :: 0 <= i < |o| ==> ks[i] == o[i].key
  {
    if o == [] then [] else [o[0].key] + Keys(o[1..])
  }

  /** A well-formed object names each property once. */
  predicate KeysDistinct<V>(o: Props<V>) {
    forall i, j :: 0 <= i < j < |o| ==> o[i].key != o[j].key
  }

  /** The value of property `k`, or `absent` when the object has no such property. */
  function Find<V>(o: Props<V>, k: string, absent: V): (v: V)
    ensures k !in Keys(o) ==> v == absent
    ensures o != [] && o[0].key == k ==> v == o[0].value
  {
    if o == [] then absent
    else if o[0].key == k then o[0].value
    else Find(o[1..], k, absent)
  }

  /** Property access `o[k]`: a missing property reads as `undefined`. */
  function Get(o: Object, k: string): Value {
    Find(o, k, Undefined)
  }

  /** Each property of `base` takes the value `over` gives it, if `over` has that key. */
  function Override<V>(base: Props<V>, over: Props<V>): (r: Props<V>)
    ensures Keys(r) == Keys(base)
  {
    if base == [] then []
    else
      var e := base[0];
      [Entry(e.key, Find(over, e.key, e.value))] + Override(base[1..], over)
  }

  /** The properties of `over` whose keys `base` does not have, in their order. */
  function Fresh<V>(over: Props<V>, base: Props<V>): (r: Props<V>)
    ensures forall k :: k in Keys(r) <==> k in Keys(over) && k !in Keys(base)
  {
    if over == [] then []
    else
      var rest := Fresh(over[1..], base);
      if over[0].key in Keys(base) then rest else [over[0]] + rest
  }

  /** `{...base, ...over}`: properties of `base` keep their place and take the value `over`
      gives them; properties only `over` has follow, in their order in `over`. */
  function Spread<V>(base: Props<V>, over: Props<V>): Props<V> {
    Override(base, over) + Fresh(over, base)
  }

  /** A present property's value does not depend on the fallback for a missing one. */
  lemma {:induction false} FindDefault<V>(o: Props<V>, k: string, a1: V, a2: V)
    requires k in Keys(o)
    ensures Find(o, k, a1) == Find(o, k, a2)
  {
    if o[0].key != k {
      assert Keys(o) == [o[0].key] + Keys(o[1..]);
      FindDefault(o[1..], k, a1, a2);
    }
  }

  lemma {:induction false} FindConcat<V>(a: Props<V>, b: Props<V>, k: string, absent: V)
    ensures Find(a + b, k, absent) == if k in Keys(a) then Find(a, k, absent) else Find(b, k, absent)
  {
    if a != [] {
      assert (a + b)[0] == a[0];
      assert (a + b)[1..] == a[1..] + b;
      assert Keys(a) == [a[0].key] + Keys(a[1..]);
      FindConcat(a[1..], b, k, absent);
    } else {
      assert a + b == b;
    }
  }

  lemma {:induction false} KeysConcat<V>(a: Props<V>, b: Props<V>)
    ensures Keys(a + b) == Keys(a) + Keys(b)
  {
    if a != [] {
      assert (a + b)[1..] == a[1..] + b;
      KeysConcat(a[1..], b);
    }
  }

  lemma {:induction false} FindOverride<V>(base: Props<V>, over: Props<V>, k: string, absent: V)
    requires k in Keys(base)
    ensures Find(Override(base, over), k, absent) == Find(over, k, Find(base, k, absent))
  {
    if base[0].key != k {
      assert Keys(base) == [base[0].key] + Keys(base[1..]);
      FindOverride(base[1..], over, k, absent);
    }
  }

  lemma {:induction false} FindFresh<V>(over: Props<V>, base: Props<V>, k: string, absent: V)
    requires k !in Keys(base)
    ensures Find(Fresh(over, base), k, absent) == Find(over, k, absent)
  {
    if over != [] {
      FindFresh(over[1..], base, k, absent);
    }
  }

  /** Which properties of `over` are fresh depends only on the keys of `base`. */
  lemma {:induction false} FreshSameKeys<V>(over: Props<V>, b1: Props<V>, b2: Props<V>)
    requires Keys(b1) == Keys(b2)
    ensures Fresh(over, b1) == Fresh(over, b2)
  {
    if over != [] {
      FreshSameKeys(over[1..], b1, b2);
    }
  }

  /** Reading a property of the spread object: `over` wins wherever it has the key. */
  lemma FindSpread<V>(base: Props<V>, over: Props<V>, k: string, absent: V)
    ensures Find(Spread(base, over), k, absent)
            == if k in Keys(over) then Find(over, k, absent) else Find(base, k, absent)
    ensures k in Keys(Spread(base, over)) <==> k in Keys(base) || k in Keys(over)
  {
    FindConcat(Override(base, over), Fresh(over, base), k, absent);
    KeysConcat(Override(base, over), Fresh(over, base));
    if k in Keys(base) {
      FindOverride(base, over, k, absent);
      if k in Keys(over) {
        FindDefault(over, k, Find(base, k, absent), absent);
      }
    } else {
      FindFresh(over, base, k, absent);
    }
  }

  /** The spread object lists the keys of `base` first, in their order. */
  lemma SpreadKeepsBaseOrder<V>(base: Props<V>, over: Props<V>)
    ensures Keys(Spread(base, over))[..|base|] == Keys(base)
  {
    KeysConcat(Override(base, over), Fresh(over, base));
  }

  lemma {:induction false} FreshDistinct<V>(over: Props<V>, base: Props<V>)
    requires KeysDistinct(over)
    ensures KeysDistinct(Fresh(over, base))
  {
    if over != [] {
      FreshDistinct(over[1..], base);
      var rest := Fresh(over[1..], base);
      if over[0].key !in Keys(base) {
        assert over[0].key !in Keys(over[1..]);
        assert over[0].key !in Keys(rest);
      }
    }
  }

  /** Spreading two well-formed objects gives a well-formed object. */
  lemma SpreadDistinct<V>(base: Props<V>, over: Props<V>)
    requires KeysDistinct(base) && KeysDistinct(over)
    ensures KeysDistinct(Spread(base, over))
  {
    var a: Props<V>, b: Props<V> := Override(base, over), Fresh(over, base);
    FreshDistinct(over, base);
    KeysConcat(a, b);
    forall i, j | 0 <= i < j < |a + b|
      ensures (a + b)[i].key != (a + b)[j].key
    {
      if j >= |a| && i < |a| {
        assert (a + b)[i].key == Keys(a)[i] == Keys(base)[i];
        assert (a + b)[j].key in Keys(b);
      }
    }
  }
}
