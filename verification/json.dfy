/** The JSON-like values the scripts pass around: parsed model output, payloads,
    per-file result records. A Python `dict` keeps insertion order, so a
    dictionary is an association list; `Put` is `d[k] = v`. */
module Json {
  import opened Wrappers
  import opened Text

  /** A dictionary key: a string, or any other hashable Python value. */
  datatype Key = StrKey(name: string) | OtherKey(id: int)

  datatype Value =
    | Null
    | Bool(b: bool)
    | Num(n: int)
    | Str(s: string)
    | List(items: seq<Value>)
    | Dict(entries: seq<(Key, Value)>)

  /** Python truthiness (`if v:`). */
  predicate Truthy(v: Value) {
    match v
    case Null => false
    case Bool(b) => b
    case Num(n) => n != 0
    case Str(s) => s != ""
    case List(items) => items != []
    case Dict(es) => es != []
  }

  /** What `json.loads` (optionally after `repair_json`) makes of a string. */
  datatype Decoded = Parsed(value: Value) | DecodeError(message: string)

  predicate HasKey(es: seq<(Key, Value)>, k: Key) {
    exists i :: 0 <= i < |es| && es[i].0 == k
  }

  predicate DistinctKeys(es: seq<(Key, Value)>) {
    forall i, j :: 0 <= i < j < |es| ==> es[i].0 != es[j].0
  }

  /** The position of the first entry with key `k`. */
  function IndexOfKey(es: seq<(Key, Value)>, k: Key): (r: Option<nat>)
    ensures r.Some? ==> r.value < |es| && es[r.value].0 == k
    ensures r.Some? ==> forall j :: 0 <= j < r.value ==> es[j].0 != k
    ensures r.None? <==> !HasKey(es, k)
    decreases |es|
  {
    if |es| == 0 then None
    else if es[|es| - 1].0 == k then
      var r := IndexOfKey(es[..|es| - 1], k);
      if r.Some? then r else Some(|es| - 1)
    else
      var r := IndexOfKey(es[..|es| - 1], k);
      assert HasKey(es, k) ==> HasKey(es[..|es| - 1], k) by {
        if HasKey(es, k) {
          var i :| 0 <= i < |es| && es[i].0 == k;
          assert es[..|es| - 1][i].0 == k;
        }
      }
      r
  }

  /** `d.get(k)`: the value stored under `k`. */
  function Get(es: seq<(Key, Value)>, k: Key): (r: Option<Value>)
    ensures r.Some? <==> HasKey(es, k)
    ensures r.Some? ==> exists i :: 0 <= i < |es| && es[i] == (k, r.value)
  {
    match IndexOfKey(es, k)
    case None => None
    case Some(i) => Some(es[i].1)
  }

  /** `d[k] = v`: an existing key keeps its position and takes the new value, a
      new key is appended. */
  function Put(es: seq<(Key, Value)>, k: Key, v: Value): (r: seq<(Key, Value)>)
    ensures HasKey(es, k) ==> |r| == |es|
    ensures !HasKey(es, k) ==> r == es + [(k, v)]
    ensures forall i :: 0 <= i < |es| ==> r[i].0 == es[i].0
    ensures forall i :: 0 <= i < |es| && es[i].0 != k ==> r[i] == es[i]
    ensures DistinctKeys(es) ==> forall i :: 0 <= i < |r| && r[i].0 == k ==> r[i].1 == v
    ensures Get(r, k) == Some(v)
    ensures DistinctKeys(es) ==> DistinctKeys(r)
    ensures forall j :: HasKey(r, j) <==> HasKey(es, j) || j == k
  {
    match IndexOfKey(es, k)
    case None =>
      var r := es + [(k, v)];
      assert r[|es|].0 == k;
      assert forall j :: HasKey(r, j) <==> HasKey(es, j) || j == k by {
        forall j ensures HasKey(r, j) <==> HasKey(es, j) || j == k {
          if HasKey(r, j) && j != k {
            var i :| 0 <= i < |r| && r[i].0 == j;
            assert es[i].0 == j;
          }
          if HasKey(es, j) {
            var i :| 0 <= i < |es| && es[i].0 == j;
            assert r[i].0 == j;
          }
        }
      }
      r
    case Some(i) =>
      var r := es[i := (k, v)];
      assert forall j :: HasKey(r, j) <==> HasKey(es, j) by {
        forall j ensures HasKey(r, j) <==> HasKey(es, j) {
          if HasKey(r, j) {
            var m :| 0 <= m < |r| && r[m].0 == j;
            assert es[m].0 == j;
          }
          if HasKey(es, j) {
            var m :| 0 <= m < |es| && es[m].0 == j;
            assert r[m].0 == j;
          }
        }
      }
      r
  }

  /** Storing under one key leaves what every other key reads unchanged. */
  lemma GetPutOther(es: seq<(Key, Value)>, k: Key, v: Value, other: Key)
    requires other != k
    ensures Get(Put(es, k, v), other) == Get(es, other)
  {
    var r := Put(es, k, v);
    var b := IndexOfKey(es, other);
    if b.Some? {
      assert r[b.value] == es[b.value];
      assert forall j :: 0 <= j < b.value ==> r[j].0 == es[j].0;
    }
  }

  /** In a dictionary, each entry is what its key reads. */
  lemma GetAt(es: seq<(Key, Value)>, i: nat)
    requires DistinctKeys(es) && i < |es|
    ensures Get(es, es[i].0) == Some(es[i].1)
  {
    assert HasKey(es, es[i].0);
    var j :| 0 <= j < |es| && es[j] == (es[i].0, Get(es, es[i].0).value);
    assert j == i;
  }

  /** `**task.get('parameters', {})`: a missing entry adds nothing, a
      dictionary adds its entries, anything else is not a mapping. */
  function Parameters(task: seq<(Key, Value)>): (r: Outcome<seq<(Key, Value)>>)
    ensures !HasKey(task, StrKey("parameters")) ==> r == Returned([])
    ensures r.Raised? <==> HasKey(task, StrKey("parameters")) && !Get(task, StrKey("parameters")).value.Dict?
    ensures r.Raised? ==> r.error == "TypeError"
  {
    match Get(task, StrKey("parameters"))
    case None => Returned([])
    case Some(Dict(es)) => Returned(es)
    case Some(_) => Raised("TypeError")
  }

  /** `{**base, **params}`: each parameter stored in turn. */
  function Overlay(base: seq<(Key, Value)>, params: seq<(Key, Value)>): seq<(Key, Value)>
    decreases |params|
  {
    if |params| == 0 then base else Overlay(Put(base, params[0].0, params[0].1), params[1..])
  }

  /** Parameters win: a key the parameters carry reads their value, any other
      key reads the base. */
  lemma OverlayGet(base: seq<(Key, Value)>, params: seq<(Key, Value)>, k: Key)
    requires DistinctKeys(params)
    ensures HasKey(params, k) ==> Get(Overlay(base, params), k) == Get(params, k)
    ensures !HasKey(params, k) ==> Get(Overlay(base, params), k) == Get(base, k)
  {
    if HasKey(params, k) {
      var j := IndexOfKey(params, k).value;
      GetAt(params, j);
      OverlayLast(base, params, j);
    } else {
      OverlayGetOther(base, params, k);
    }
  }

  /** A key occurs in a nonempty list of entries when it is the head's or
      occurs in the tail. */
  lemma HasKeyCons(es: seq<(Key, Value)>, k: Key)
    requires |es| > 0
    ensures HasKey(es, k) <==> es[0].0 == k || HasKey(es[1..], k)
  {
    if HasKey(es, k) && es[0].0 != k {
      var i :| 0 <= i < |es| && es[i].0 == k;
      assert es[1..][i - 1].0 == k;
    }
    if HasKey(es[1..], k) {
      var i :| 0 <= i < |es[1..]| && es[1..][i].0 == k;
      assert es[i + 1].0 == k;
    }
  }

  /** After an update the dictionary holds exactly the keys of both sides. */
  lemma {:induction false} OverlayHasKey(base: seq<(Key, Value)>, params: seq<(Key, Value)>, k: Key)
    ensures HasKey(Overlay(base, params), k) <==> HasKey(base, k) || HasKey(params, k)
    decreases |params|
  {
    if |params| > 0 {
      OverlayHasKey(Put(base, params[0].0, params[0].1), params[1..], k);
      HasKeyCons(params, k);
    }
  }

  /** An update never duplicates a key. */
  lemma {:induction false} OverlayDistinct(base: seq<(Key, Value)>, params: seq<(Key, Value)>)
    requires DistinctKeys(base)
    ensures DistinctKeys(Overlay(base, params))
    decreases |params|
  {
    if |params| > 0 {
      OverlayDistinct(Put(base, params[0].0, params[0].1), params[1..]);
    }
  }

  /** Every entry after an update is an entry of one side: the update moves
      values under their own keys and invents none. */
  lemma {:induction false} OverlayEntries(base: seq<(Key, Value)>, params: seq<(Key, Value)>)
    requires DistinctKeys(base)
    ensures forall e :: e in Overlay(base, params) ==> e in base || e in params
    decreases |params|
  {
    if |params| > 0 {
      var next := Put(base, params[0].0, params[0].1);
      assert forall e :: e in next ==> e in base || e == params[0] by {
        forall e | e in next ensures e in base || e == params[0] {
          var i :| 0 <= i < |next| && next[i] == e;
          if i < |base| && base[i].0 != params[0].0 {
            assert e == base[i];
          }
        }
      }
      OverlayEntries(next, params[1..]);
      assert forall e :: e in params[1..] ==> e in params;
    }
  }

  /** A key the update does not carry reads what it read before. */
  lemma {:induction false} OverlayGetOther(base: seq<(Key, Value)>, params: seq<(Key, Value)>, k: Key)
    requires !HasKey(params, k)
    ensures Get(Overlay(base, params), k) == Get(base, k)
    decreases |params|
  {
    if |params| > 0 {
      HasKeyCons(params, k);
      GetPutOther(base, params[0].0, params[0].1, k);
      OverlayGetOther(Put(base, params[0].0, params[0].1), params[1..], k);
    }
  }

  /** The last entry of the update under a key is the one that stays. */
  lemma {:induction false} OverlayLast(base: seq<(Key, Value)>, params: seq<(Key, Value)>, j: nat)
    requires j < |params|
    requires forall m :: j < m < |params| ==> params[m].0 != params[j].0
    ensures Get(Overlay(base, params), params[j].0) == Some(params[j].1)
    decreases |params|
  {
    var next := Put(base, params[0].0, params[0].1);
    if j == 0 {
      assert !HasKey(params[1..], params[0].0) by {
        forall m | 0 <= m < |params[1..]| ensures params[1..][m].0 != params[0].0 {
          assert params[1..][m] == params[m + 1];
        }
      }
      OverlayGetOther(next, params[1..], params[0].0);
    } else {
      assert params[1..][j - 1] == params[j];
      assert forall m :: j - 1 < m < |params[1..]| ==> params[1..][m] == params[m + 1];
      OverlayLast(next, params[1..], j - 1);
    }
  }

  /** An update by new keys appends them in order. */
  lemma {:induction false} OverlayFresh(base: seq<(Key, Value)>, params: seq<(Key, Value)>)
    requires DistinctKeys(base + params)
    ensures Overlay(base, params) == base + params
    decreases |params|
  {
    if |params| > 0 {
      var all := base + params;
      assert !HasKey(base, params[0].0) by {
        forall i | 0 <= i < |base| ensures base[i].0 != params[0].0 {
          assert all[i] == base[i] && all[|base|] == params[0];
        }
      }
      var next := base + [params[0]];
      assert next + params[1..] == all;
      OverlayFresh(next, params[1..]);
    }
  }

  /** Python's `task in config` for the loaded task configuration: a key of a
      dictionary, an element of a list, a substring of a string; a number,
      boolean or `None` cannot be searched. */
  function ConfigHas(config: Value, task: string): (r: Outcome<bool>)
    ensures config.Dict? ==> r == Returned(HasKey(config.entries, StrKey(task)))
    ensures config.List? ==> r == Returned(exists i :: 0 <= i < |config.items| && config.items[i] == Str(task))
    ensures config.Str? ==> r == Returned(exists i: nat :: OccursAt(config.s, task, i))
    ensures r.Raised? <==> !config.Dict? && !config.List? && !config.Str?
    ensures r.Raised? ==> r.error == "TypeError"
  {
    match config
    case Dict(es) => Returned(HasKey(es, StrKey(task)))
    case List(items) => Returned(Str(task) in items)
    case Str(s) => Returned(Contains(s, task))
    case _ => Raised("TypeError")
  }

  /** `task_config.get('num_chunks')` as `process_text` uses it: a number (a
      boolean counts as one), or a value that is never `0` and fails `> 0`. */
  function NumChunksOf(v: Option<Value>): (r: Option<int>)
    ensures v.Some? && v.value.Num? ==> r == Some(v.value.n)
    ensures v.None? ==> r.None?
  {
    match v
    case Some(Num(n)) => Some(n)
    case Some(Bool(b)) => Some(if b then 1 else 0)
    case _ => None
  }

  /** The `"Error: ..."` entry of a task whose processing raised; the model keeps
      the exception's kind where Python writes its message. */
  function ErrorEntry(e: string): (v: Value)
    ensures v.Str? && |v.s| >= 7 && v.s[..7] == "Error: "
  {
    Str("Error: " + e)
  }
}
