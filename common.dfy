/** Values shared by every module: Python's `None`, raised exceptions,
    the outcome of a call into an external collaborator, and the JSON-like
    dictionaries the scripts return. */
module Common {

  /** Python's `Optional[str]`-style results: `None` or a value. */
  datatype Option<+T> = None | Some(value: T)

  /** A Python call that either returns a value or raises an exception
      whose `str(e)` is `message`. */
  datatype Outcome<+T> = Return(value: T) | Raise(message: string)

  /** The outcome of an awaited browser call whose value is not used. */
  datatype Call = Returned | Raised(message: string)

  /** The JSON values the scripts put in their result dictionaries. */
  datatype Json =
    | JNull
    | JString(s: string)
    | JInt(i: int)
    | JArray(items: seq<Json>)
    | JObject(fields: map<string, Json>)

  /** A Python `dict` with string keys. */
  type Dict = map<string, Json>

  /** `json.dumps` view of an `Optional[str]`: `None` becomes `null`. */
  function OptionJson(o: Option<string>): (j: Json)
    ensures o.None? <==> j == JNull
    ensures o.Some? ==> j == JString(o.value)
  {
    match o
    case None => JNull
    case Some(s) => JString(s)
  }

  /** The error dictionary `{"error": message}`. */
  function ErrorDict(message: string): (d: Dict)
    ensures d.Keys == {"error"} && d["error"] == JString(message)
  {
    map["error" := JString(message)]
  }

  /** A list of strings as a JSON array. */
  function StringArray(s: seq<string>): (j: Json)
    ensures j.JArray? && |j.items| == |s|
    ensures forall k :: 0 <= k < |s| ==> j.items[k] == JString(s[k])
  {
    JArray(seq(|s|, k requires 0 <= k < |s| => JString(s[k])))
  }

  /** `[f(x) for x in s]`. */
  function Map<A, B>(f: A -> B, s: seq<A>): (r: seq<B>)
    ensures |r| == |s|
    ensures forall k :: 0 <= k < |s| ==> r[k] == f(s[k])
  {
    seq(|s|, k requires 0 <= k < |s| => f(s[k]))
  }

  lemma MapConcat<A, B>(f: A -> B, a: seq<A>, b: seq<A>)
    ensures Map(f, a + b) == Map(f, a) + Map(f, b)
  {
    var l, r := Map(f, a + b), Map(f, a) + Map(f, b);
    forall k | 0 <= k < |l| ensures l[k] == r[k] {
      if k < |a| { assert (a + b)[k] == a[k]; } else { assert (a + b)[k] == b[k - |a|]; }
    }
  }

  /** Mapping two reorderings of one list gives two reorderings of one list. */
  lemma {:induction false} MapPermutation<A, B>(f: A -> B, a: seq<A>, b: seq<A>)
    requires multiset(a) == multiset(b)
    ensures multiset(Map(f, a)) == multiset(Map(f, b))
  {
    if a == [] {
      assert |b| == |multiset(b)| == 0;
    } else {
      var x := a[0];
      assert x in multiset(b);
      var i :| 0 <= i < |b| && b[i] == x;
      var rest := b[..i] + b[i + 1..];
      assert b == b[..i] + ([x] + b[i + 1..]);
      assert a == [x] + a[1..];
      assert multiset(rest) == multiset(b) - multiset{x};
      assert multiset(a[1..]) == multiset(a) - multiset{x};
      MapPermutation(f, a[1..], rest);
      MapConcat(f, [x], a[1..]);
      MapConcat(f, b[..i], [x] + b[i + 1..]);
      MapConcat(f, [x], b[i + 1..]);
      MapConcat(f, b[..i], b[i + 1..]);
    }
  }
}
