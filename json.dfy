/** The values `json.loads` produces, with the Python operations the service applies to them. */
module Json {
  import opened Wrappers

  /** A parsed JSON value. Floats are exact reals; an object keeps its pairs in insertion order. */
  datatype JValue =
    | JNull
    | JBool(b: bool)
    | JInt(i: int)
    | JFloat(r: real)
    | JStr(s: string)
    | JList(items: seq<JValue>)
    | JObj(fields: seq<(string, JValue)>)

  /** Python truthiness (`if value:` / `value or default`). */
  predicate Truthy(v: JValue)
  {
    match v
    case JNull => false
    case JBool(b) => b
    case JInt(i) => i != 0
    case JFloat(r) => r != 0.0
    case JStr(s) => s != ""
    case JList(xs) => xs != []
    case JObj(fs) => fs != []
  }

  /** `value in [0, '', {}, []]`: Python compares with `==`, so `False` and `0.0` are members. */
  predicate InNullableList(v: JValue)
  {
    v == JInt(0) || v == JBool(false) || v == JFloat(0.0)
    || v == JStr("") || v == JObj([]) || v == JList([])
  }

  /** The empty-equivalent values are exactly the falsy values other than `None`. */
  lemma NullableListIsFalsyNotNone(v: JValue)
    ensures InNullableList(v) <==> (!Truthy(v) && v != JNull)
  {
  }

  /** `isinstance(v, int)`: booleans are integers in Python. */
  predicate IsPyInt(v: JValue)
  {
    v.JInt? || v.JBool?
  }

  /** `key in d` for a dict. */
  predicate HasKey(fields: seq<(string, JValue)>, key: string)
  {
    exists i | 0 <= i < |fields| :: fields[i].0 == key
  }

  /**
   * `d.get(key)`: the value of the last pair with that key, the one a dict
   * built by assigning the pairs in order ends up holding.
   */
  function Get(fields: seq<(string, JValue)>, key: string): (r: Option<JValue>)
    ensures r.Some? <==> HasKey(fields, key)
    ensures r.Some? ==> exists i | 0 <= i < |fields| :: fields[i] == (key, r.value)
  {
    if fields == [] then None
    else if fields[|fields| - 1].0 == key then Some(fields[|fields| - 1].1)
    else
      var r := Get(fields[..|fields| - 1], key);
      assert forall i | 0 <= i < |fields| - 1 :: fields[..|fields| - 1][i] == fields[i];
      r
  }

  /** `d.keys()`: each key once, in first-insertion order. */
  function Keys(fields: seq<(string, JValue)>): (ks: seq<string>)
    ensures forall k :: k in ks <==> HasKey(fields, k)
    ensures forall i, j | 0 <= i < j < |ks| :: ks[i] != ks[j]
  {
    if fields == [] then []
    else
      var prefix := fields[..|fields| - 1];
      var ks := Keys(prefix);
      assert forall i | 0 <= i < |prefix| :: prefix[i] == fields[i];
      assert forall k :: HasKey(fields, k) <==> HasKey(prefix, k) || fields[|fields| - 1].0 == k;
      if fields[|fields| - 1].0 in ks then ks else ks + [fields[|fields| - 1].0]
  }

  /** In a dict every key occurs once, so `Get` finds the pair holding it. */
  lemma {:induction false} GetUnique(fields: seq<(string, JValue)>, i: nat)
    requires UniqueKeys(fields) && i < |fields|
    ensures Get(fields, fields[i].0) == Some(fields[i].1)
  {
    if i < |fields| - 1 {
      var prefix := fields[..|fields| - 1];
      GetUnique(prefix, i);
    }
  }

  /** The position of the first pair holding `key`. */
  function IndexOf(fields: seq<(string, JValue)>, key: string): (i: nat)
    requires HasKey(fields, key)
    ensures i < |fields| && fields[i].0 == key
    ensures forall j | 0 <= j < i :: fields[j].0 != key
  {
    if fields[0].0 == key then 0
    else
      assert HasKey(fields[1..], key) by {
        var j :| 0 <= j < |fields| && fields[j].0 == key;
        assert fields[1..][j - 1] == fields[j];
      }
      var i := 1 + IndexOf(fields[1..], key);
      assert forall j | 1 <= j < i :: fields[j] == fields[1..][j - 1];
      i
  }

  /** A key found among the first `n` pairs is first found at the same position in the whole. */
  lemma IndexOfPrefix(fields: seq<(string, JValue)>, n: nat, key: string)
    requires n <= |fields| && HasKey(fields[..n], key)
    ensures HasKey(fields, key) && IndexOf(fields, key) == IndexOf(fields[..n], key)
  {
    var m := IndexOf(fields[..n], key);
    assert fields[m] == fields[..n][m];
    assert forall j | 0 <= j < m :: fields[j] == fields[..n][j];
  }

  /** `d[key] = value` on a dict: overwrite in place, or append a new key at the end. */
  function Put(fields: seq<(string, JValue)>, key: string, value: JValue): (r: seq<(string, JValue)>)
    requires UniqueKeys(fields)
    ensures UniqueKeys(r)
    ensures forall k :: HasKey(r, k) <==> HasKey(fields, k) || k == key
    ensures Get(r, key) == Some(value)
    ensures forall k | k != key :: Get(r, k) == Get(fields, k)
    ensures |r| == if HasKey(fields, key) then |fields| else |fields| + 1
    ensures forall i | 0 <= i < |fields| :: r[i].0 == fields[i].0
    ensures !HasKey(fields, key) ==> r[|fields|].0 == key
  {
    if HasKey(fields, key) then
      var i := IndexOf(fields, key);
      var r := fields[i := (key, value)];
      assert forall k :: HasKey(r, k) <==> HasKey(fields, k) by {
        forall k ensures HasKey(r, k) <==> HasKey(fields, k) {
          if HasKey(fields, k) {
            var j :| 0 <= j < |fields| && fields[j].0 == k;
            assert r[j].0 == k;
          }
        }
      }
      GetUnique(r, i);
      forall k | k != key ensures Get(r, k) == Get(fields, k) {
        if HasKey(fields, k) {
          var j :| 0 <= j < |fields| && fields[j].0 == k;
          GetUnique(r, j);
          GetUnique(fields, j);
        }
      }
      r
    else
      var r := fields + [(key, value)];
      assert r[..|r| - 1] == fields;
      assert forall k :: HasKey(r, k) <==> HasKey(fields, k) || k == key by {
        forall k ensures HasKey(r, k) <==> HasKey(fields, k) || k == key {
          if HasKey(fields, k) {
            var j :| 0 <= j < |fields| && fields[j].0 == k;
            assert r[j].0 == k;
          }
          if k == key { assert r[|fields|].0 == k; }
        }
      }
      r
  }

  /** What a Python dict guarantees: no key occurs twice. */
  predicate UniqueKeys(fields: seq<(string, JValue)>)
  {
    forall i, j | 0 <= i < j < |fields| :: fields[i].0 != fields[j].0
  }

  /**
   * `d.items()` for the dict `json.loads` builds from the pairs as written:
   * each key once, at the position of its first occurrence, with the value
   * of its last.
   */
  function Items(fields: seq<(string, JValue)>): (r: seq<(string, JValue)>)
    ensures UniqueKeys(r)
    ensures forall k :: HasKey(r, k) <==> HasKey(fields, k)
    ensures forall k :: Get(r, k) == Get(fields, k)
    ensures forall i | 0 <= i < |r| :: Get(fields, r[i].0) == Some(r[i].1)
  {
    if fields == [] then []
    else
      var prefix := fields[..|fields| - 1];
      var last := fields[|fields| - 1];
      var before := Items(prefix);
      var r := Put(before, last.0, last.1);
      forall k ensures Get(r, k) == Get(fields, k) && (HasKey(r, k) <==> HasKey(fields, k)) {
        assert Get(fields, k) == if last.0 == k then Some(last.1) else Get(prefix, k);
      }
      forall i | 0 <= i < |r| ensures Get(fields, r[i].0) == Some(r[i].1) {
        GetUnique(r, i);
      }
      r
  }

  /** `Get` seen from the front: a later pair wins over the first one. */
  lemma {:induction false} GetFront(fields: seq<(string, JValue)>, k: string)
    requires fields != []
    ensures HasKey(fields, k) <==> fields[0].0 == k || HasKey(fields[1..], k)
    ensures Get(fields, k) == if HasKey(fields[1..], k) then Get(fields[1..], k)
                              else if fields[0].0 == k then Some(fields[0].1) else None
  {
    if HasKey(fields[1..], k) {
      var i :| 0 <= i < |fields[1..]| && fields[1..][i].0 == k;
      assert fields[i + 1].0 == k;
    }
    if HasKey(fields, k) && fields[0].0 != k {
      var i :| 0 <= i < |fields| && fields[i].0 == k;
      assert fields[1..][i - 1].0 == k;
    }
    if |fields| > 1 {
      var prefix := fields[..|fields| - 1];
      assert prefix[1..] == fields[1..][..|fields[1..]| - 1];
      GetFront(prefix, k);
    }
  }

  /** `d.items()` lists each key in the order of its first occurrence among the pairs. */
  lemma {:induction false} ItemsInFirstOrder(fields: seq<(string, JValue)>)
    ensures forall i | 0 <= i < |Items(fields)| :: HasKey(fields, Items(fields)[i].0)
    ensures forall i, j | 0 <= i < j < |Items(fields)| ::
              IndexOf(fields, Items(fields)[i].0) < IndexOf(fields, Items(fields)[j].0)
  {
    var r := Items(fields);
    forall i | 0 <= i < |r| ensures HasKey(fields, r[i].0) {
      assert HasKey(r, r[i].0);
    }
    if fields != [] {
      var n := |fields| - 1;
      ItemsInFirstOrder(fields[..n]);
      PutInFirstOrder(fields, Items(fields[..n]), fields[n].1);
    }
  }

  /**
   * Putting the last pair into the items of the others keeps the keys in
   * the order of their first occurrence.
   */
  lemma PutInFirstOrder(fields: seq<(string, JValue)>, before: seq<(string, JValue)>, value: JValue)
    requires fields != [] && UniqueKeys(before)
    requires forall k :: HasKey(before, k) <==> HasKey(fields[..|fields| - 1], k)
    requires forall i | 0 <= i < |before| :: HasKey(fields[..|fields| - 1], before[i].0)
    requires forall i, j | 0 <= i < j < |before| ::
               IndexOf(fields[..|fields| - 1], before[i].0) < IndexOf(fields[..|fields| - 1], before[j].0)
    ensures var r := Put(before, fields[|fields| - 1].0, value);
            forall i, j | 0 <= i < j < |r| :: HasKey(fields, r[i].0) && HasKey(fields, r[j].0) &&
              IndexOf(fields, r[i].0) < IndexOf(fields, r[j].0)
  {
    var n := |fields| - 1;
    var prefix := fields[..n];
    var last := fields[n];
    var r := Put(before, last.0, value);
    forall i | 0 <= i < |before|
      ensures HasKey(fields, before[i].0) && IndexOf(fields, before[i].0) == IndexOf(prefix, before[i].0) < n
    {
      IndexOfPrefix(fields, n, before[i].0);
    }
    forall i, j | 0 <= i < j < |r|
      ensures HasKey(fields, r[i].0) && HasKey(fields, r[j].0) && IndexOf(fields, r[i].0) < IndexOf(fields, r[j].0)
    {
      assert r[i].0 == before[i].0;
      if j < |before| {
        assert r[j].0 == before[j].0;
      } else {
        assert !HasKey(before, last.0) && r[j].0 == last.0;
        assert fields[n].0 == last.0;
        assert IndexOf(fields, last.0) == n;
      }
    }
  }

  /** `d.keys()` lists each key in the order of its first occurrence among the pairs. */
  lemma {:induction false} KeysInFirstOrder(fields: seq<(string, JValue)>)
    ensures forall i, j | 0 <= i < j < |Keys(fields)| ::
              IndexOf(fields, Keys(fields)[i]) < IndexOf(fields, Keys(fields)[j])
  {
    if fields != [] {
      var n := |fields| - 1;
      var prefix := fields[..n];
      var last := fields[n];
      KeysInFirstOrder(prefix);
      var before := Keys(prefix);
      var ks := Keys(fields);
      forall i | 0 <= i < |before|
        ensures IndexOf(fields, before[i]) == IndexOf(prefix, before[i]) < n
      {
        IndexOfPrefix(fields, n, before[i]);
      }
      forall i, j | 0 <= i < j < |ks| ensures IndexOf(fields, ks[i]) < IndexOf(fields, ks[j]) {
        assert ks[i] == before[i];
        if j < |before| {
          assert ks[j] == before[j];
        } else {
          assert ks[j] == last.0 && !HasKey(prefix, last.0);
          assert IndexOf(fields, last.0) == n;
        }
      }
    }
  }
}
