/**
 * JSON values as JavaScript holds them: what JSON.stringify reads on the
 * client and what the server's token library hands over after parsing.
 * An object is the sequence of its members in insertion order. For member
 * names that are not array indices that is the order JSON.stringify writes
 * them, and therefore part of the bytes that get signed.
 */
module Json {
  import opened Wrappers

  datatype JValue =
    | JNull
    | JBool(b: bool)
    | JNum(n: real)
    | JStr(s: string)
    | JArr(items: seq<JValue>)
    | JObj(fields: seq<Field>)

  datatype Field = Field(key: string, value: JValue)

  /** The member names of an object, in order. */
  function Keys(fields: seq<Field>): (ks: seq<string>)
    ensures |ks| == |fields|
  {
    if fields == [] then [] else [fields[0].key] + Keys(fields[1..])
  }

  predicate Distinct(ks: seq<string>) {
    forall i, j :: 0 <= i < j < |ks| ==> ks[i] != ks[j]
  }

  /** Every JavaScript object has this shape: no member name twice. */
  predicate DistinctKeys(fields: seq<Field>) {
    Distinct(Keys(fields))
  }

  /** Property read `o[key]`: the value of the first member with that name, if any. */
  function Get(fields: seq<Field>, key: string): (r: Option<JValue>)
    ensures r.Some? <==> key in Keys(fields)
    ensures r.Some? ==> Field(key, r.value) in fields
  {
    if fields == [] then None
    else if fields[0].key == key then Some(fields[0].value)
    else Get(fields[1..], key)
  }

  /**
   * Property assignment `o[key] = v`: a member that already exists keeps its
   * position and takes the new value; a new member goes last.
   */
  function Put(fields: seq<Field>, key: string, v: JValue): (r: seq<Field>)
    ensures Keys(r) == if key in Keys(fields) then Keys(fields) else Keys(fields) + [key]
    ensures Get(r, key) == Some(v)
    ensures forall k :: k != key ==> Get(r, k) == Get(fields, k)
  {
    if fields == [] then [Field(key, v)]
    else if fields[0].key == key then [Field(key, v)] + fields[1..]
    else
      var rest := Put(fields[1..], key, v);
      var r := [fields[0]] + rest;
      assert r[1..] == rest;
      assert Keys(r) == [fields[0].key] + Keys(rest);
      assert Keys(fields) == [fields[0].key] + Keys(fields[1..]);
      r
  }

  /**
   * The object literal `{...target, ...source}` as built from target: the
   * members of source are assigned one after the other, in their order.
   * The members of target stay first and in place, and no name is doubled.
   */
  function Spread(target: seq<Field>, source: seq<Field>): (r: seq<Field>)
    ensures Keys(target) <= Keys(r)
    ensures forall k :: k in Keys(r) <==> k in Keys(target) || k in Keys(source)
    ensures DistinctKeys(target) ==> DistinctKeys(r)
    decreases |source|
  {
    if source == [] then target
    else
      var next := Put(target, source[0].key, source[0].value);
      assert Keys(source) == [source[0].key] + Keys(source[1..]);
      Spread(next, source[1..])
  }

  /** A later member of the spread source wins over target; target fills in the rest. */
  lemma {:induction false} SpreadGet(target: seq<Field>, source: seq<Field>, k: string)
    requires DistinctKeys(source)
    ensures Get(Spread(target, source), k) ==
            if k in Keys(source) then Get(source, k) else Get(target, k)
    decreases |source|
  {
    if source != [] {
      var next := Put(target, source[0].key, source[0].value);
      assert Keys(source) == [source[0].key] + Keys(source[1..]);
      assert DistinctKeys(source[1..]) by {
        assert Keys(source[1..]) == Keys(source)[1..];
      }
      SpreadGet(next, source[1..], k);
    }
  }

  /**
   * Members other than key, in order: what JSON.stringify writes for an
   * object after `o.key = undefined`, since undefined members are skipped.
   */
  function Remove(fields: seq<Field>, key: string): (r: seq<Field>)
    ensures key !in Keys(r)
    ensures forall k :: k != key ==> Get(r, k) == Get(fields, k)
    ensures key !in Keys(fields) ==> r == fields
  {
    if fields == [] then []
    else if fields[0].key == key then Remove(fields[1..], key)
    else
      var r := [fields[0]] + Remove(fields[1..], key);
      assert r[1..] == Remove(fields[1..], key);
      r
  }

  /** Reading from a concatenation: the left part is searched first. */
  lemma {:induction false} GetAppend(a: seq<Field>, b: seq<Field>, k: string)
    ensures Get(a + b, k) == if k in Keys(a) then Get(a, k) else Get(b, k)
  {
    if a != [] {
      assert (a + b)[0] == a[0] && (a + b)[1..] == a[1..] + b;
      assert Keys(a) == [a[0].key] + Keys(a[1..]);
      GetAppend(a[1..], b, k);
    } else {
      assert a + b == b;
    }
  }

  /** Removing a member name from a concatenation removes it from both parts. */
  lemma {:induction false} RemoveAppend(a: seq<Field>, b: seq<Field>, k: string)
    ensures Remove(a + b, k) == Remove(a, k) + Remove(b, k)
  {
    if a != [] {
      assert (a + b)[1..] == a[1..] + b;
      RemoveAppend(a[1..], b, k);
    } else {
      assert a + b == b;
    }
  }

  /** The member names of a concatenation. */
  lemma {:induction false} KeysAppend(a: seq<Field>, b: seq<Field>)
    ensures Keys(a + b) == Keys(a) + Keys(b)
  {
    if a != [] {
      assert (a + b)[1..] == a[1..] + b;
      KeysAppend(a[1..], b);
    } else {
      assert a + b == b;
    }
  }
}
