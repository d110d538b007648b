/** The small part of JavaScript's value model that the minifier's decisions
    depend on: truthiness, `typeof x === 'object'`, property lookup and
    `Object.entries`. Configuration records and dynamically imported plugin
    modules are values of this type. */
module JsValues {

  /** A property key: a string, or the well-known symbol `Symbol.toStringTag`,
      the only symbol the code reads. */
  datatype Key = Name(name: string) | ToStringTag

  /** A JavaScript value. Objects keep their own properties in insertion
      order; a function object is known only by an identity. Numbers are
      integers in this model. */
  datatype Value =
    | Undefined
    | Null
    | Bool(b: bool)
    | Num(n: int)
    | Str(s: string)
    | Arr(items: seq<Value>)
    | Obj(props: seq<(Key, Value)>)
    | Func(id: nat)

  /** The outcome of a call that may throw: the value it returns, or the
      message of what it threw. */
  datatype Thrown<+T> = Ok(value: T) | Throws(message: string)

  /** JavaScript truthiness: `false`, `0`, `''`, `null` and `undefined` are
      falsy; every object, array and function is truthy. */
  predicate Truthy(v: Value)
  {
    match v
    case Undefined => false
    case Null => false
    case Bool(b) => b
    case Num(n) => n != 0
    case Str(s) => s != ""
    case Arr(_) => true
    case Obj(_) => true
    case Func(_) => true
  }

  /** `typeof v === 'object' && v !== null`: arrays are objects too,
      functions are not. */
  predicate IsObject(v: Value)
  {
    v.Arr? || v.Obj?
  }

  /** The value stored under `k` in a property list: the first entry with
      that key, or `undefined` (see `LookupFindsFirst` and `LookupAbsent`). */
  function Lookup(props: seq<(Key, Value)>, k: Key): Value
  {
    LookupFrom(props, k, 0)
  }

  /** `Lookup` restricted to the entries from index `from` on. */
  function LookupFrom(props: seq<(Key, Value)>, k: Key, from: nat): Value
    requires from <= |props|
    decreases |props| - from
  {
    if from == |props| then Undefined
    else if props[from].0 == k then props[from].1
    else LookupFrom(props, k, from + 1)
  }

  /** The first entry carrying the key decides the lookup. */
  lemma {:induction false} LookupFindsFirst(props: seq<(Key, Value)>, k: Key, i: nat)
    requires i < |props| && props[i].0 == k
    requires forall j :: 0 <= j < i ==> props[j].0 != k
    ensures Lookup(props, k) == props[i].1
  {
    LookupFromFindsFirst(props, k, 0, i);
  }

  lemma {:induction false} LookupFromFindsFirst(props: seq<(Key, Value)>, k: Key, from: nat, i: nat)
    requires from <= i < |props| && props[i].0 == k
    requires forall j :: from <= j < i ==> props[j].0 != k
    ensures LookupFrom(props, k, from) == props[i].1
    decreases i - from
  {
    if from < i {
      LookupFromFindsFirst(props, k, from + 1, i);
    }
  }

  /** A key that no entry carries reads as `undefined`. */
  lemma {:induction false} LookupAbsent(props: seq<(Key, Value)>, k: Key)
    requires forall j :: 0 <= j < |props| ==> props[j].0 != k
    ensures Lookup(props, k) == Undefined
  {
    LookupFromAbsent(props, k, 0);
  }

  lemma {:induction false} LookupFromAbsent(props: seq<(Key, Value)>, k: Key, from: nat)
    requires from <= |props|
    requires forall j :: from <= j < |props| ==> props[j].0 != k
    ensures LookupFrom(props, k, from) == Undefined
    decreases |props| - from
  {
    if from < |props| {
      LookupFromAbsent(props, k, from + 1);
    }
  }

  /** Property access `v[k]`: objects are searched, every other value has
      no own properties here. */
  function Get(v: Value, k: Key): Value
  {
    if v.Obj? then Lookup(v.props, k) else Undefined
  }

  /** Property access by a string name, `v.name` / `v['name']`. */
  function Field(v: Value, name: string): Value
  {
    Get(v, Name(name))
  }

  /** `Object.entries(v)`: the string-keyed own properties in order; symbol
      keys are never listed. */
  function Entries(v: Value): seq<(string, Value)>
  {
    if v.Obj? then NamedProps(v.props) else []
  }

  /** The entries of a property list whose key is a string, in order. */
  function NamedProps(props: seq<(Key, Value)>): seq<(string, Value)>
  {
    if |props| == 0 then []
    else
      match props[0].0
      case Name(n) => [(n, props[0].1)] + NamedProps(props[1..])
      case ToStringTag => NamedProps(props[1..])
  }

  /** When every key is a string, `Object.entries` lists every property,
      in order. */
  lemma {:induction false} NamedPropsAllNamed(props: seq<(Key, Value)>)
    requires forall i :: 0 <= i < |props| ==> props[i].0.Name?
    ensures |NamedProps(props)| == |props|
    ensures forall i :: 0 <= i < |props| ==> NamedProps(props)[i] == (props[i].0.name, props[i].1)
  {
    if |props| > 0 {
      NamedPropsAllNamed(props[1..]);
    }
  }

  /** The names of a list of entries, in order. */
  function Names(es: seq<(string, Value)>): (r: seq<string>)
    ensures |r| == |es|
    ensures forall i :: 0 <= i < |es| ==> r[i] == es[i].0
  {
    if |es| == 0 then [] else [es[0].0] + Names(es[1..])
  }
}
