/** The JSON values json.loads produces, with objects kept as ordered field
    lists so that Python's insertion-ordered dict semantics (and hence the
    key order json.dumps writes) are part of the model. Parsing and
    serialising themselves are not modelled: the stages take the parser as a
    parameter. */
module Json {
  import opened Wrappers

  datatype Json =
    | JNull
    | JBool(b: bool)
    | JInt(i: int)
    | JFloat(f: real)
    | JStr(s: string)
    | JArr(items: seq<Json>)
    | JObj(fields: seq<Field>)

  datatype Field = Field(key: string, value: Json)

  /** The keys of a dict, in insertion order. */
  function Keys(fs: seq<Field>): seq<string>
  {
    if |fs| == 0 then [] else [fs[0].key] + Keys(fs[1..])
  }

  /** The i-th key is the key of the i-th field. */
  lemma {:induction false} KeysAt(fs: seq<Field>, i: int)
    requires 0 <= i < |fs|
    ensures |Keys(fs)| == |fs| && Keys(fs)[i] == fs[i].key
  {
    if i > 0 {
      KeysAt(fs[1..], i - 1);
    } else {
      KeysLength(fs[1..]);
    }
  }

  lemma {:induction false} KeysLength(fs: seq<Field>)
    ensures |Keys(fs)| == |fs|
  {
    if |fs| > 0 {
      KeysLength(fs[1..]);
    }
  }

  /** A Python dict never holds a key twice. */
  ghost predicate UniqueKeys(fs: seq<Field>) {
    forall i, j :: 0 <= i < j < |fs| ==> fs[i].key != fs[j].key
  }

  /** dict.get(k): the value stored under `k`, None when the key is absent. */
  function Get(fs: seq<Field>, k: string): (r: Option<Json>)
    ensures r.Some? <==> k in Keys(fs)
    ensures r.Some? ==> exists i :: 0 <= i < |fs| && fs[i] == Field(k, r.value) && k !in Keys(fs[..i])
    decreases |fs|
  {
    if |fs| == 0 then None
    else if fs[0].key == k then
      assert fs[..0] == [];
      Some(fs[0].value)
    else
      var r := Get(fs[1..], k);
      if r.Some? then
        var i :| 0 <= i < |fs[1..]| && fs[1..][i] == Field(k, r.value) && k !in Keys(fs[1..][..i]);
        assert fs[..i + 1][1..] == fs[1..][..i];
        assert fs[i + 1] == Field(k, r.value);
        r
      else r
  }

  /** d[k] = v: an existing key keeps its position and gets the new value,
      a new key is appended at the end (see PutKeyOrder). */
  function Put(fs: seq<Field>, k: string, v: Json): (r: seq<Field>)
    ensures Get(r, k) == Some(v)
    ensures forall k' :: k' != k ==> Get(r, k') == Get(fs, k')
    decreases |fs|
  {
    if |fs| == 0 then [Field(k, v)]
    else if fs[0].key == k then
      var r := [Field(k, v)] + fs[1..];
      assert r[1..] == fs[1..];
      r
    else
      var r := [fs[0]] + Put(fs[1..], k, v);
      assert r[1..] == Put(fs[1..], k, v);
      r
  }

  /** Assignment keeps the key order: every existing key stays where it
      was, and a new key `k` is appended after them (see PutLength). */
  lemma {:induction false} PutKeys(fs: seq<Field>, k: string, v: Json)
    ensures |Put(fs, k, v)| >= |fs|
    ensures forall i :: 0 <= i < |fs| ==> Put(fs, k, v)[i].key == fs[i].key
    decreases |fs|
  {
    if |fs| > 0 {
      var r := Put(fs, k, v);
      if fs[0].key != k {
        var rest := Put(fs[1..], k, v);
        assert r == [fs[0]] + rest;
        PutKeys(fs[1..], k, v);
        forall i | 0 < i < |fs| ensures r[i].key == fs[i].key {
          assert r[i] == rest[i - 1] && fs[i] == fs[1..][i - 1];
        }
      } else {
        assert r == [Field(k, v)] + fs[1..];
        forall i | 0 < i < |fs| ensures r[i] == fs[i] {
          assert r[i] == fs[1..][i - 1];
        }
      }
    }
  }

  /** Assignment adds exactly one field when, and only when, the key is new;
      the new field comes last. */
  lemma {:induction false} PutLength(fs: seq<Field>, k: string, v: Json)
    ensures k in Keys(fs) ==> |Put(fs, k, v)| == |fs|
    ensures k !in Keys(fs) ==> |Put(fs, k, v)| == |fs| + 1 && Put(fs, k, v)[|fs|].key == k
    decreases |fs|
  {
    if |fs| > 0 {
      if fs[0].key == k {
        assert k in Keys(fs) by { assert Keys(fs) == [fs[0].key] + Keys(fs[1..]); }
        assert Put(fs, k, v) == [Field(k, v)] + fs[1..];
      } else {
        var rest := Put(fs[1..], k, v);
        assert Put(fs, k, v) == [fs[0]] + rest;
        PutLength(fs[1..], k, v);
        assert k in Keys(fs) <==> k in Keys(fs[1..]) by { assert Keys(fs) == [fs[0].key] + Keys(fs[1..]); }
      }
    }
  }

  /** The key order after `d[k] = v`, as json.dumps would write it: the old
      keys when `k` was present, the old keys followed by `k` otherwise. */
  lemma PutKeyOrder(fs: seq<Field>, k: string, v: Json)
    ensures Keys(Put(fs, k, v)) == if k in Keys(fs) then Keys(fs) else Keys(fs) + [k]
  {
    var r := Put(fs, k, v);
    var want := if k in Keys(fs) then Keys(fs) else Keys(fs) + [k];
    PutKeys(fs, k, v);
    PutLength(fs, k, v);
    KeysLength(fs);
    KeysLength(r);
    forall i | 0 <= i < |r| ensures Keys(r)[i] == want[i] {
      KeysAt(r, i);
      if i < |fs| {
        KeysAt(fs, i);
      }
    }
  }

  /** Assigning into a dict keeps its keys distinct. */
  lemma PutKeepsKeysUnique(fs: seq<Field>, k: string, v: Json)
    requires UniqueKeys(fs)
    ensures UniqueKeys(Put(fs, k, v))
  {
    var r := Put(fs, k, v);
    PutKeys(fs, k, v);
    PutLength(fs, k, v);
    forall i, j | 0 <= i < j < |r| ensures r[i].key != r[j].key {
      if j < |fs| {
        assert r[i].key == fs[i].key && r[j].key == fs[j].key;
      } else {
        assert k !in Keys(fs) && j == |fs|;
        KeysAt(fs, i);
        assert r[i].key == Keys(fs)[i];
      }
    }
  }

  /** `d.get(k, "")` when the result is then used as a string (`.strip()` is
      called on it): None stands for the AttributeError a non-string raises. */
  function StrField(fs: seq<Field>, k: string): (r: Option<string>)
    ensures r.Some? <==> (k !in Keys(fs) || Get(fs, k).value.JStr?)
    ensures k !in Keys(fs) ==> r == Some("")
    ensures k in Keys(fs) && r.Some? ==> Get(fs, k) == Some(JStr(r.value))
  {
    match Get(fs, k)
    case None => Some("")
    case Some(JStr(s)) => Some(s)
    case Some(_) => None
  }

  /** The decoded values Python treats as false: None, False, zero, and the
      empty string, list and dict. */
  const FALSY: set<Json> := {JNull, JBool(false), JInt(0), JFloat(0.0), JStr(""), JArr([]), JObj([])}

  /** Python's truth value of a decoded JSON value. */
  predicate Truthy(v: Json)
    ensures Truthy(v) <==> v !in FALSY
  {
    match v
    case JNull => false
    case JBool(b) => b
    case JInt(i) => i != 0
    case JFloat(f) => f != 0.0
    case JStr(s) => |s| > 0
    case JArr(a) => |a| > 0
    case JObj(fs) => |fs| > 0
  }

  /** How an f-string renders a decoded value: strings verbatim, None, True and
      False by name; numbers, lists and dicts through `repr`, which stands for
      Python's str() of those values. */
  function Format(v: Json, repr: Json -> string): (r: string)
    ensures v.JStr? ==> r == v.s
  {
    match v
    case JStr(s) => s
    case JNull => "None"
    case JBool(b) => if b then "True" else "False"
    case _ => repr(v)
  }
}
