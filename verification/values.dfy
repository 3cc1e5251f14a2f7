/** JavaScript values as the data pipeline sees them, and plain objects
    (records) as an insertion-ordered set of keys with a value per key. */
module Values {
  import opened Strings
  import opened Numbers

  /** A JavaScript value. Number holds a finite number; NaN stands for the
      not-a-number value; Compound stands for any object or array held in a
      field, whose contents the pipeline never inspects. */
  datatype Val =
    | Str(s: string)
    | Number(n: real)
    | NaN
    | Bool(b: bool)
    | Null
    | Undef
    | Compound

  /** `v == null`: null or undefined. */
  predicate Nullish(v: Val) {
    v.Null? || v.Undef?
  }

  /** JavaScript truthiness. */
  predicate Truthy(v: Val) {
    match v
    case Str(s) => s != ""
    case Number(n) => n != 0.0
    case NaN => false
    case Bool(b) => b
    case Null => false
    case Undef => false
    case Compound => true
  }

  /** String(v). */
  function ToStr(v: Val): string {
    match v
    case Str(s) => s
    case Number(n) => NumToString(n)
    case NaN => "NaN"
    case Bool(b) => if b then "true" else "false"
    case Null => "null"
    case Undef => "undefined"
    case Compound => "[object Object]"
  }

  /** The characters String() writes for anything but a string. */
  predicate PrintChar(c: char) {
    IsDigit(c) || ('a' <= c <= 'z') || ('A' <= c <= 'Z') || c == '-' || c == '.' || c == '[' || c == ']' || c == ' '
  }

  /** String() of a value that is not a string uses only PrintChar characters. */
  lemma ToStrChars(v: Val, c: char)
    requires !v.Str? && !PrintChar(c)
    ensures c !in ToStr(v)
  {
    match v
    case Number(n) =>
      var s := NumToString(n);
      assert forall i :: 0 <= i < |s| ==> s[i] != c;
    case NaN =>
      assert forall i :: 0 <= i < 3 ==> PrintChar("NaN"[i]);
    case Bool(b) =>
      assert forall i :: 0 <= i < 4 ==> PrintChar("true"[i]);
      assert forall i :: 0 <= i < 5 ==> PrintChar("false"[i]);
    case Null =>
      assert forall i :: 0 <= i < 4 ==> PrintChar("null"[i]);
    case Undef =>
      assert forall i :: 0 <= i < 9 ==> PrintChar("undefined"[i]);
    case Compound =>
      assert forall i :: 0 <= i < 15 ==> PrintChar("[object Object]"[i]);
  }

  /** A plain object: its own keys in insertion order, and their values. */
  datatype Record = Record(keys: seq<string>, vals: map<string, Val>)

  /** Every key listed once, and exactly the listed keys carry a value. */
  ghost predicate Valid(r: Record) {
    && (forall i, j :: 0 <= i < j < |r.keys| ==> r.keys[i] != r.keys[j])
    && (forall k :: k in r.vals <==> k in r.keys)
  }

  /** `{}` */
  const Empty: Record := Record([], map[])

  /** `r[k]`: undefined when r has no such key. */
  function Get(r: Record, k: string): Val {
    if k in r.vals then r.vals[k] else Undef
  }

  /** `r[k] = v`: a new key goes to the end of the key order, an existing
      key keeps its place. */
  function Set(r: Record, k: string, v: Val): (o: Record)
    ensures Get(o, k) == v
    ensures forall j :: j != k ==> Get(o, j) == Get(r, j)
    ensures k in r.keys ==> o.keys == r.keys
    ensures k !in r.keys ==> o.keys == r.keys + [k]
  {
    Record(if k in r.keys then r.keys else r.keys + [k], r.vals[k := v])
  }

  lemma SetValid(r: Record, k: string, v: Val)
    requires Valid(r)
    ensures Valid(Set(r, k, v))
  {
  }

  /** Writing back the value a present key already holds changes nothing. */
  lemma SetSame(r: Record, k: string)
    requires k in r.keys && k in r.vals
    ensures Set(r, k, Get(r, k)) == r
  {
    assert r.vals[k := r.vals[k]] == r.vals;
  }

  /** An object literal with distinct keys: keys[i] holds vals[i]. */
  function RecordOf(keys: seq<string>, vals: seq<Val>): Record
    requires |keys| == |vals|
  {
    Record(keys, MapOf(keys, vals))
  }

  function MapOf(keys: seq<string>, vals: seq<Val>): map<string, Val>
    requires |keys| == |vals|
  {
    if |keys| == 0 then map[]
    else MapOf(keys[..|keys| - 1], vals[..|keys| - 1])[keys[|keys| - 1] := vals[|keys| - 1]]
  }

  predicate Distinct(keys: seq<string>) {
    forall i, j :: 0 <= i < j < |keys| ==> keys[i] != keys[j]
  }

  /** The literal sets exactly its keys, each to its value. */
  lemma {:induction false} MapOfGet(keys: seq<string>, vals: seq<Val>, i: int, k: string)
    requires |keys| == |vals| && Distinct(keys)
    ensures k in MapOf(keys, vals) <==> k in keys
    ensures 0 <= i < |keys| ==> keys[i] in MapOf(keys, vals) && MapOf(keys, vals)[keys[i]] == vals[i]
  {
    if |keys| > 0 {
      var n := |keys| - 1;
      MapOfGet(keys[..n], vals[..n], i, k);
      assert keys == keys[..n] + [keys[n]];
      if 0 <= i < n {
        assert keys[..n][i] == keys[i] && vals[..n][i] == vals[i];
      }
    }
  }

  lemma RecordOfFacts(keys: seq<string>, vals: seq<Val>)
    requires |keys| == |vals| && Distinct(keys)
    ensures Valid(RecordOf(keys, vals))
    ensures forall i :: 0 <= i < |keys| ==> Get(RecordOf(keys, vals), keys[i]) == vals[i]
    ensures forall k :: k !in keys ==> Get(RecordOf(keys, vals), k) == Undef
  {
    forall k {
      MapOfGet(keys, vals, 0, k);
    }
    forall i | 0 <= i < |keys| {
      MapOfGet(keys, vals, i, keys[i]);
    }
  }
}
