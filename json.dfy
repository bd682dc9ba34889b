/** Decoded JSON as the dashboard handles it: Python dicts keep insertion order, so an object is
    a sequence of (key, value) pairs. `d.get(k, default)` is GetOr, `d[k] = v` is Put (the value is
    replaced where the key already stands, otherwise the pair is appended). */
module Json {
  import opened Basics

  datatype Value =
    | Null
    | Bool(b: bool)
    | Int(i: int)
    | Str(s: string)
    | Array(items: seq<Value>)
    | Object(fields: seq<(string, Value)>)

  type Dict = seq<(string, Value)>

  const NA: Value := Str("N/A")

  /** Python truthiness of a decoded JSON value. */
  predicate Truthy(v: Value) {
    match v
    case Null => false
    case Bool(b) => b
    case Int(i) => i != 0
    case Str(s) => s != []
    case Array(items) => items != []
    case Object(fields) => fields != []
  }

  /** Python's `v == 0`; False == 0 holds in Python. */
  predicate EqualsZero(v: Value) {
    v == Int(0) || v == Bool(false)
  }

  function Keys(d: Dict): (ks: seq<string>)
    ensures |ks| == |d|
  {
    seq(|d|, i requires 0 <= i < |d| => d[i].0)
  }

  predicate HasKey(d: Dict, k: string) {
    k in Keys(d)
  }

  /** `d.get(k)`: the value stored under k, if any. */
  function Get(d: Dict, k: string): (r: Option<Value>)
    ensures r.Some? <==> HasKey(d, k)
    ensures r.Some? ==> (k, r.value) in d
    decreases |d|
  {
    if d == [] then None
    else
      assert Keys(d) == [d[0].0] + Keys(d[1..]);
      if d[0].0 == k then Some(d[0].1) else Get(d[1..], k)
  }

  /** The value under the key at position i, when no earlier pair has that key. */
  lemma {:induction false} GetAt(d: Dict, i: nat)
    requires i < |d| && forall j :: 0 <= j < i ==> d[j].0 != d[i].0
    ensures Get(d, d[i].0) == Some(d[i].1)
  {
    if i > 0 {
      GetAt(d[1..], i - 1);
    }
  }

  /** `d.get(k, default)`. */
  function GetOr(d: Dict, k: string, default: Value): Value {
    match Get(d, k)
    case Some(v) => v
    case None => default
  }

  /** `d[k] = v`. */
  function Put(d: Dict, k: string, v: Value): (r: Dict)
    ensures Get(r, k) == Some(v)
    ensures forall k' :: k' != k ==> Get(r, k') == Get(d, k')
    ensures Keys(r) == if HasKey(d, k) then Keys(d) else Keys(d) + [k]
    decreases |d|
  {
    if d == [] then [(k, v)]
    else if d[0].0 == k then
      var r := [(k, v)] + d[1..];
      assert r[0] == (k, v) && r[1..] == d[1..];
      KeysFirst(d);
      KeysFirst(r);
      r
    else
      var t := Put(d[1..], k, v);
      var r := [d[0]] + t;
      assert r[0] == d[0] && r[1..] == t;
      KeysFirst(d);
      KeysFirst(r);
      r
  }

  lemma KeysFirst(d: Dict)
    requires d != []
    ensures Keys(d) == [d[0].0] + Keys(d[1..])
  {
  }

  /** r keeps d's keys as its first keys. */
  predicate KeysExtend(d: Dict, r: Dict) {
    |Keys(d)| <= |Keys(r)| && Keys(r)[..|Keys(d)|] == Keys(d)
  }

  lemma PutExtends(d: Dict, k: string, v: Value)
    ensures KeysExtend(d, Put(d, k, v))
  {
  }

  lemma ExtendsTransitive(a: Dict, b: Dict, c: Dict)
    requires KeysExtend(a, b) && KeysExtend(b, c)
    ensures KeysExtend(a, c)
  {
    assert Keys(c)[..|Keys(b)|][..|Keys(a)|] == Keys(c)[..|Keys(a)|];
  }

  lemma PutOther(d: Dict, k: string, v: Value, k': string)
    requires k' != k
    ensures Get(Put(d, k, v), k') == Get(d, k')
  {
  }

  lemma PutHasKey(d: Dict, k: string, v: Value, k': string)
    ensures HasKey(Put(d, k, v), k') <==> HasKey(d, k') || k' == k
  {
    assert HasKey(Put(d, k, v), k') <==> Get(Put(d, k, v), k').Some?;
  }

  lemma HasKeyLast(d: Dict, k: string)
    requires d != []
    ensures HasKey(d, k) <==> HasKey(d[..|d| - 1], k) || d[|d| - 1].0 == k
  {
    assert Keys(d) == Keys(d[..|d| - 1]) + [d[|d| - 1].0];
  }

  lemma KeysCons(p: (string, Value), d: Dict)
    ensures Keys([p] + d) == [p.0] + Keys(d)
  {
  }

  /** The dict comprehension {key: value for key, value in d.items() if key != k}. */
  function Without(d: Dict, k: string): (r: Dict)
    ensures Get(r, k) == None
    ensures forall k' :: k' != k ==> Get(r, k') == Get(d, k')
    ensures forall p :: p in r <==> p in d && p.0 != k
    decreases |d|
  {
    if d == [] then []
    else
      var t := Without(d[1..], k);
      assert forall p :: p in d <==> p == d[0] || p in d[1..] by {
        assert d == [d[0]] + d[1..];
      }
      if d[0].0 == k then t
      else
        assert Keys([d[0]] + t) == [d[0].0] + Keys(t);
        [d[0]] + t
  }

  /** The object stored under k, or the empty object when k is absent (`d.get(k, {})`). */
  function ObjectOr(d: Dict, k: string): Dict {
    match Get(d, k)
    case Some(Object(f)) => f
    case _ => []
  }

  /** `d.get(k, {})` is a dict: k is absent or holds an object. Where Python would go on to call
      `.get` or `.items()` on anything else it raises, so the model asks for this. */
  predicate ObjectOrAbsent(d: Dict, k: string) {
    Get(d, k).None? || Get(d, k).value.Object?
  }

  /** pandas' fillna("N/A") on one row: every None becomes "N/A". */
  function FillNa(row: Dict): (r: Dict)
    ensures Keys(r) == Keys(row)
    ensures forall i :: 0 <= i < |r| ==> r[i].1 != Null && (row[i].1 != Null ==> r[i].1 == row[i].1)
  {
    seq(|row|, i requires 0 <= i < |row| => (row[i].0, if row[i].1 == Null then NA else row[i].1))
  }

  /** The value a Python dict built from these pairs, in order, holds under k: the last pair with
      key k wins. */
  function LastGet(d: Dict, k: string): (r: Option<Value>)
    ensures r.Some? <==> HasKey(d, k)
  {
    if d == [] then None
    else
      assert Keys(d) == Keys(d[..|d| - 1]) + [d[|d| - 1].0];
      if d[|d| - 1].0 == k then Some(d[|d| - 1].1) else LastGet(d[..|d| - 1], k)
  }

  /** `d.update(e)`: every pair of e is put into d, in order. */
  function Update(d: Dict, e: Dict): (r: Dict)
    ensures forall k :: Get(r, k) == if HasKey(e, k) then LastGet(e, k) else Get(d, k)
    ensures forall k :: HasKey(r, k) <==> HasKey(d, k) || HasKey(e, k)
    ensures |Keys(d)| <= |Keys(r)| && Keys(r)[..|Keys(d)|] == Keys(d)
  {
    if e == [] then d
    else
      var front, last := e[..|e| - 1], e[|e| - 1];
      assert Keys(e) == Keys(front) + [last.0];
      Put(Update(d, front), last.0, last.1)
  }

  /** One step of a loop that puts the pairs of e into d in order. */
  lemma UpdateStep(d: Dict, e: Dict, i: nat)
    requires i < |e|
    ensures Update(d, e[..i + 1]) == Put(Update(d, e[..i]), e[i].0, e[i].1)
  {
    assert e[..i + 1][..i] == e[..i];
  }

  /** Putting a key d lacks appends the pair. */
  lemma {:induction false} PutAbsent(d: Dict, k: string, v: Value)
    requires !HasKey(d, k)
    ensures Put(d, k, v) == d + [(k, v)]
    decreases |d|
  {
    if d != [] {
      KeysCons(d[0], d[1..]);
      assert d == [d[0]] + d[1..];
      PutAbsent(d[1..], k, v);
    }
  }

  lemma KeysConcat(a: Dict, b: Dict)
    ensures Keys(a + b) == Keys(a) + Keys(b)
  {
  }

  /** The last pair of fresh distinct pairs is fresh for d and the others, and the others are
      fresh and distinct. */
  lemma FreshFront(d: Dict, e: Dict, front: Dict)
    requires e != [] && front == e[..|e| - 1]
    requires NoDuplicates(Keys(e))
    requires forall i :: 0 <= i < |e| ==> !HasKey(d, e[i].0)
    ensures NoDuplicates(Keys(front))
    ensures forall i :: 0 <= i < |front| ==> !HasKey(d, front[i].0)
    ensures !HasKey(d + front, e[|e| - 1].0)
  {
    var last := e[|e| - 1];
    var ks := Keys(e);
    assert Keys(front) == ks[..|e| - 1];
    KeysConcat(d, front);
    assert last.0 == ks[|e| - 1];
    assert !HasKey(d, last.0);
  }

  /** Updating with pairs whose keys are new to d and distinct appends them. */
  lemma {:induction false} UpdateFresh(d: Dict, e: Dict)
    requires NoDuplicates(Keys(e))
    requires forall i :: 0 <= i < |e| ==> !HasKey(d, e[i].0)
    ensures Update(d, e) == d + e
    decreases |e|
  {
    if e != [] {
      var front, last := e[..|e| - 1], e[|e| - 1];
      FreshFront(d, e, front);
      UpdateFresh(d, front);
      assert Update(d, e) == Put(Update(d, front), last.0, last.1);
      PutAbsent(d + front, last.0, last.1);
      assert d + e == (d + front) + [last];
    }
  }

  /** Updating with pairs whose keys, together with d's, are all distinct appends them. */
  lemma UpdateAppends(d: Dict, e: Dict)
    requires NoDuplicates(Keys(d + e))
    ensures Update(d, e) == d + e
  {
    KeysConcat(d, e);
    var ks := Keys(d + e);
    assert Keys(e) == ks[|d|..];
    forall i | 0 <= i < |e|
      ensures !HasKey(d, e[i].0)
    {
      assert Keys(d) == ks[..|d|];
      assert e[i].0 == ks[|d| + i];
    }
    UpdateFresh(d, e);
  }

  /** `str(v) if v is not None else "N/A"` without the rendering: None becomes "N/A". */
  function NaIfNull(v: Value): Value {
    if v == Null then NA else v
  }

  /** The members of a JSON object, or none for any other value. */
  function FieldsOf(v: Value): Dict {
    if v.Object? then v.fields else []
  }
}
