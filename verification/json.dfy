/** Decoded JSON values and the handful of Python operations the extraction code
    applies to them (`v[k]`, `v[i]`, `len(v)`, `v.items()`), each returning the
    exception Python would raise instead of a value when the shape is wrong. */
module Json {
  import opened Wrappers
  import Strings

  /** A JSON object is an association list in insertion order: Python dicts
      iterate in that order and the extraction code depends on it. */
  datatype JValue =
    | JNull
    | JBool(b: bool)
    | JNum(n: real)
    | JStr(s: string)
    | JArr(items: seq<JValue>)
    | JObj(fields: seq<(string, JValue)>)

  type Fields = seq<(string, JValue)>

  /** The exceptions the extraction code can raise on a malformed document. */
  datatype Error =
    | KeyError(key: string)
    | TypeError
    | AttributeError
    | IndexError
    | ZeroDivisionError
    | DecodeError

  function Keys(fields: Fields): (ks: seq<string>)
    ensures |ks| == |fields|
    ensures forall i :: 0 <= i < |fields| ==> ks[i] == fields[i].0
  {
    seq(|fields|, i requires 0 <= i < |fields| => fields[i].0)
  }

  /** No string occurs twice. */
  ghost predicate Distinct(ks: seq<string>) {
    forall i, j :: 0 <= i < j < |ks| ==> ks[i] != ks[j]
  }

  /** A Python dict never holds a key twice. */
  ghost predicate DistinctKeys(fields: Fields) {
    Distinct(Keys(fields))
  }

  /** `d[k]` on a dict: the value of the last binding of `k`, which is what a
      JSON decoder keeps for a repeated key. */
  function Lookup(fields: Fields, k: string): (r: Option<JValue>)
    ensures r.None? <==> k !in Keys(fields)
    ensures r.Some? ==> exists i :: 0 <= i < |fields| && fields[i] == (k, r.value)
    decreases |fields|
  {
    if |fields| == 0 then None
    else if fields[|fields| - 1].0 == k then Some(fields[|fields| - 1].1)
    else
      assert Keys(fields) == Keys(fields[..|fields| - 1]) + [fields[|fields| - 1].0];
      Lookup(fields[..|fields| - 1], k)
  }

  /** Without repeated keys the lookup finds the one binding there is. */
  lemma {:induction false} LookupDistinct(fields: Fields, i: nat)
    requires DistinctKeys(fields)
    requires i < |fields|
    ensures Lookup(fields, fields[i].0) == Some(fields[i].1)
    decreases |fields|
  {
    if i < |fields| - 1 {
      LookupDistinct(fields[..|fields| - 1], i);
    }
  }

  /** Python's `v[k]` with a string subscript. */
  function Get(v: JValue, k: string): (r: Result<JValue, Error>)
    ensures r.Success? <==> v.JObj? && k in Keys(v.fields)
    ensures r.Success? ==> r.value == Lookup(v.fields, k).value
    ensures v.JObj? && k !in Keys(v.fields) ==> r == Failure(KeyError(k))
  {
    match v
    case JObj(fields) =>
      (match Lookup(fields, k)
       case Some(x) => Success(x)
       case None => Failure(KeyError(k)))
    case _ => Failure(TypeError)
  }

  /** Python's `v[i]` with an integer subscript: a list or a string is indexed, a
      dict (whose keys are strings) has no integer key. */
  function Index(v: JValue, i: nat): (r: Result<JValue, Error>)
    ensures r.Success? <==> (v.JArr? && i < |v.items|) || (v.JStr? && i < |v.s|)
    ensures v.JArr? && i < |v.items| ==> r == Success(v.items[i])
    ensures v.JStr? && i < |v.s| ==> r == Success(JStr([v.s[i]]))
    ensures v.JObj? ==> r == Failure(KeyError(Strings.NatToString(i)))
  {
    match v
    case JArr(items) => if i < |items| then Success(items[i]) else Failure(IndexError)
    case JStr(s) => if i < |s| then Success(JStr([s[i]])) else Failure(IndexError)
    case JObj(_) => Failure(KeyError(Strings.NatToString(i)))
    case _ => Failure(TypeError)
  }

  /** Python's `len(v)`: defined on lists, strings and dicts only. */
  function Len(v: JValue): (r: Result<nat, Error>)
    ensures r.Success? <==> v.JArr? || v.JStr? || v.JObj?
    ensures v.JArr? ==> r == Success(|v.items|)
    ensures v.JStr? ==> r == Success(|v.s|)
    ensures v.JObj? ==> r == Success(|v.fields|)
  {
    match v
    case JArr(items) => Success(|items|)
    case JStr(s) => Success(|s|)
    case JObj(fields) => Success(|fields|)
    case _ => Failure(TypeError)
  }

  /** Python's `v.items()` (and `v.keys()`): only a dict has them. */
  function Items(v: JValue): (r: Result<Fields, Error>)
    ensures r.Success? <==> v.JObj?
    ensures v.JObj? ==> r == Success(v.fields)
  {
    match v
    case JObj(fields) => Success(fields)
    case _ => Failure(AttributeError)
  }

  /** The numeric reading of a value in Python arithmetic: `bool` is an `int`
      subclass, so `True` adds as 1; nothing else adds to a number. */
  function NumOf(v: JValue): (r: Option<real>)
    ensures r.Some? <==> v.JNum? || v.JBool?
    ensures v.JNum? ==> r == Some(v.n)
  {
    match v
    case JNum(n) => Some(n)
    case JBool(b) => Some(if b then 1.0 else 0.0)
    case _ => None
  }
}
