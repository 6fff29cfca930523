/**
 * The script's records are Python dicts from column names to values. A dict
 * is modelled as its fields in insertion order, which is the order Python
 * iterates its keys in; `Get`, `Subscript` and `Put` are `d.get(k)`, `d[k]`
 * and `d[k] = v`.
 */
module Records {
  import opened Results
  import opened PyText
  import opened PyNumbers

  /** A value held in a dict: a str, an int, a float, a bool or None. */
  datatype Value = Str(s: string) | Int(i: int) | Float(d: Decimal) | Bool(b: bool) | NoneValue

  datatype Field = Field(key: string, value: Value)

  /** A dict: its fields in insertion order. */
  type Dict = seq<Field>

  function Keys(d: Dict): (ks: seq<string>)
    ensures |ks| == |d|
    ensures forall i :: 0 <= i < |d| ==> ks[i] == d[i].key
  {
    if d == [] then [] else [d[0].key] + Keys(d[1..])
  }

  /** Appending a field appends its key. */
  lemma KeysSnoc(d: Dict, f: Field)
    ensures Keys(d + [f]) == Keys(d) + [f.key]
  {
  }

  /** No key occurs twice, as in every Python dict. */
  predicate UniqueKeys(d: Dict) {
    forall i, j :: 0 <= i < j < |d| ==> d[i].key != d[j].key
  }

  /** The index of the field with key `k`, or `|d|` when there is none. */
  function Position(d: Dict, k: string): (i: nat)
    ensures i <= |d|
    ensures i < |d| ==> d[i].key == k
    ensures forall j :: 0 <= j < i ==> d[j].key != k
  {
    if d == [] then 0
    else if d[0].key == k then 0
    else 1 + Position(d[1..], k)
  }

  /** `d.get(k)` */
  function Get(d: Dict, k: string): Option<Value> {
    var i := Position(d, k);
    if i < |d| then Some(d[i].value) else None
  }

  /** `d.get(k)` finds a value exactly when `k` is one of the keys. */
  lemma GetKeys(d: Dict, k: string)
    ensures Get(d, k).Some? <==> k in Keys(d)
  {
  }

  /** `d[k]`, which raises KeyError when `k` is missing. */
  function Subscript(d: Dict, k: string): (r: Result<Value>)
    ensures r.Err? ==> r.error == KeyError(k)
  {
    match Get(d, k)
    case Some(v) => Ok(v)
    case None => Err(KeyError(k))
  }

  /**
   * `d[k] = v`: an existing key keeps its place and takes the new value; a
   * new key goes at the end.
   */
  function Put(d: Dict, k: string, v: Value): (r: Dict)
    ensures |r| == if k in Keys(d) then |d| else |d| + 1
  {
    var i := Position(d, k);
    if i < |d| then d[i := Field(k, v)] else d + [Field(k, v)]
  }

  /** After `d[k] = v`, looking up `k` finds `v`, and every other key finds what it found before. */
  lemma PutGet(d: Dict, k: string, v: Value)
    ensures Get(Put(d, k, v), k) == Some(v)
    ensures forall k' :: k' != k ==> Get(Put(d, k, v), k') == Get(d, k')
  {
    var r := Put(d, k, v);
    var i := Position(d, k);
    assert forall j :: 0 <= j < i ==> r[j] == d[j];
    assert r[i].key == k;
    forall k' | k' != k ensures Get(r, k') == Get(d, k') {
      PutOther(d, k, v, k');
    }
  }

  /** `d[k] = v` keeps the keys and their order, adding `k` at the end when it is new. */
  lemma PutKeys(d: Dict, k: string, v: Value)
    ensures Keys(Put(d, k, v)) == if k in Keys(d) then Keys(d) else Keys(d) + [k]
    ensures UniqueKeys(d) ==> UniqueKeys(Put(d, k, v))
  {
    var i := Position(d, k);
    var r := Put(d, k, v);
    if i < |d| {
      assert Keys(r) == Keys(d);
    } else {
      assert Keys(r) == Keys(d) + [k];
    }
  }

  lemma PutOther(d: Dict, k: string, v: Value, k': string)
    requires k' != k
    ensures Get(Put(d, k, v), k') == Get(d, k')
  {
    var r := Put(d, k, v);
    var i := Position(d, k);
    var p := Position(d, k');
    var q := Position(r, k');
    assert forall j :: 0 <= j < |d| && j != i ==> r[j] == d[j];
    assert i < |d| ==> r[i].key == k;
    assert |d| < |r| ==> r[|d|].key == k;
    if p < |d| {
      assert r[p] == d[p];
      assert q == p;
    } else {
      assert q == |r|;
    }
  }

  /** `d[k] = v` with a new key appends the field. */
  lemma PutNew(d: Dict, k: string, v: Value)
    requires k !in Keys(d)
    ensures Put(d, k, v) == d + [Field(k, v)]
  {
    assert Position(d, k) == |d|;
  }

  /** `d[k] = v` with the key of field `i` replaces that field. */
  lemma PutAt(d: Dict, i: nat, k: string, v: Value)
    requires UniqueKeys(d) && i < |d| && d[i].key == k
    ensures Put(d, k, v) == d[i := Field(k, v)]
  {
    assert Position(d, k) == i;
  }

  /** In a dict without repeated keys, looking up a field's key finds that field's value. */
  lemma GetAt(d: Dict, i: nat)
    requires UniqueKeys(d) && i < |d|
    ensures Get(d, d[i].key) == Some(d[i].value)
  {
    assert Position(d, d[i].key) == i;
  }

  /** A numeric value's number: Python compares ints, floats and bools by value. */
  function AsNumber(v: Value): Option<real> {
    match v
    case Int(i) => Some(i as real)
    case Float(d) => Some(d.Value())
    case Bool(b) => Some(if b then 1.0 else 0.0)
    case _ => None
  }

  /** Python's `a == b` on the values the script stores. */
  predicate PyEq(a: Value, b: Value) {
    match (a, b)
    case (Str(x), Str(y)) => x == y
    case (NoneValue, NoneValue) => true
    case _ => AsNumber(a).Some? && AsNumber(b).Some? && AsNumber(a).value == AsNumber(b).value
  }

  /** `str(v)` */
  function ToStr(v: Value): string {
    match v
    case Str(s) => s
    case Int(i) => IntToString(i)
    case Float(d) => FloatToString(d)
    case Bool(b) => if b then "True" else "False"
    case NoneValue => "None"
  }
}
