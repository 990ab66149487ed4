/** Shared value types: optional values, results, and the JSON-like values that
    the system passes around in dictionaries (listing records, configuration,
    stored memories, request parameters). */
module Common {

  datatype Option<+T> = None | Some(value: T)

  datatype Result<+T, +E> = Ok(value: T) | Err(error: E)

  /** A JSON-like value. Python's `None` is `JNull`; floating-point numbers
      are not represented. */
  datatype Json =
    | JNull
    | JBool(b: bool)
    | JInt(i: int)
    | JStr(s: string)
    | JList(items: seq<Json>)
    | JObj(fields: map<string, Json>)

  /** Python truthiness of a JSON-like value (`if value:`). */
  predicate Truthy(j: Json)
  {
    match j
    case JNull => false
    case JBool(b) => b
    case JInt(i) => i != 0
    case JStr(s) => s != ""
    case JList(xs) => xs != []
    case JObj(m) => m != map[]
  }

  /** Python's `a or b`: the first operand when it is truthy, the second otherwise. */
  function Or(a: Json, b: Json): (r: Json)
    ensures Truthy(a) ==> r == a
    ensures !Truthy(a) ==> r == b
  {
    if Truthy(a) then a else b
  }

  /** Python's `d.get(k)`: the value under `k`, or `None` when the key is absent. */
  function Get(d: map<string, Json>, k: string): (r: Json)
    ensures k in d ==> r == d[k]
    ensures k !in d ==> r == JNull
  {
    if k in d then d[k] else JNull
  }

  /** A list of strings as a JSON list. */
  function StrList(xs: seq<string>): (r: Json)
    ensures r.JList? && |r.items| == |xs|
    ensures forall i :: 0 <= i < |xs| ==> r.items[i] == JStr(xs[i])
  {
    JList(seq(|xs|, i requires 0 <= i < |xs| => JStr(xs[i])))
  }

  function Min(a: int, b: int): int
  {
    if a <= b then a else b
  }

  /** A sequence without repetitions has as many elements as its set. */
  lemma {:induction false} DistinctCard<T>(xs: seq<T>)
    requires forall p, q :: 0 <= p < q < |xs| ==> xs[p] != xs[q]
    ensures |set k | k in xs| == |xs|
    decreases |xs|
  {
    if xs != [] {
      var init := xs[..|xs| - 1];
      DistinctCard(init);
      assert (set k | k in xs) == (set k | k in init) + {xs[|xs| - 1]};
    }
  }

  /** The values of a sequence of lookups in order, or the error of the
      first that fails (`CollectFirstError`). */
  function Collect<T, E>(rs: seq<Result<T, E>>): (r: Result<seq<T>, E>)
    ensures r.Ok? <==> forall j :: 0 <= j < |rs| ==> rs[j].Ok?
    ensures r.Ok? ==> |r.value| == |rs| && forall j :: 0 <= j < |rs| ==> rs[j] == Ok(r.value[j])
    decreases |rs|
  {
    if rs == [] then Ok([])
    else
      var init := Collect(rs[..|rs| - 1]);
      var last := rs[|rs| - 1];
      if init.Err? then init
      else if last.Err? then Err(last.error)
      else Ok(init.value + [last.value])
  }

  lemma {:induction false} CollectFirstError<T, E>(rs: seq<Result<T, E>>, k: nat)
    requires k < |rs| && rs[k].Err? && forall j :: 0 <= j < k ==> rs[j].Ok?
    ensures Collect(rs) == Err(rs[k].error)
    decreases |rs|
  {
    var init := rs[..|rs| - 1];
    if k < |rs| - 1 {
      assert init[k] == rs[k];
      CollectFirstError(init, k);
    } else {
      assert Collect(init).Ok?;
    }
  }

  /** Lookups that all succeed collect to their values. */
  lemma CollectValue<T, E>(rs: seq<Result<T, E>>, vs: seq<T>)
    requires |vs| == |rs| && forall j :: 0 <= j < |rs| ==> rs[j] == Ok(vs[j])
    ensures Collect(rs) == Ok(vs)
  {
    var r := Collect(rs);
    assert r.Ok?;
    assert forall j :: 0 <= j < |rs| ==> r.value[j] == vs[j];
    assert r.value == vs;
  }
}
