/** `normalize_keys` of `llm-utility.py`: the model's answer with every
    string key title-cased, at every depth of dictionaries and lists. */
module Normalize {
  import opened Wrappers
  import opened Text
  import opened Json

  /** `normalize_key`: a string key is title-cased, any other key is kept. */
  function NormalizeKey(k: Key): (r: Key)
    ensures r.StrKey? <==> k.StrKey?
    ensures k.OtherKey? ==> r == k
    ensures k.StrKey? ==> |r.name| == |k.name|
  {
    match k
    case StrKey(s) => StrKey(Title(s))
    case OtherKey(_) => k
  }

  /** `process_value`: dictionaries are normalised, lists element by element,
      anything else is kept. */
  function NormalizeValue(v: Value): (r: Value)
    ensures r.Dict? <==> v.Dict?
    ensures r.List? <==> v.List?
    ensures !v.Dict? && !v.List? ==> r == v
    ensures v.List? ==> |r.items| == |v.items|
    decreases v, 2
  {
    match v
    case Dict(es) => Dict(NormalizeKeys(es))
    case List(vs) => List(Normalized(vs))
    case _ => v
  }

  /** The `(normalize_key(k), process_value(v))` pairs of the comprehension,
      in the dictionary's order. */
  function Renamed(es: seq<(Key, Value)>): (r: seq<(Key, Value)>)
    ensures |r| == |es|
    decreases Dict(es), 0
  {
    seq(|es|, i requires 0 <= i < |es| => (NormalizeKey(es[i].0), NormalizeValue(es[i].1)))
  }

  /** `[process_value(item) for item in value]`. */
  function Normalized(vs: seq<Value>): (r: seq<Value>)
    ensures |r| == |vs|
    decreases List(vs), 0
  {
    seq(|vs|, i requires 0 <= i < |vs| => NormalizeValue(vs[i]))
  }

  /** `normalize_keys(input_dict)`: the comprehension stores each normalised
      pair in turn, so a later pair overwrites an earlier one with the same
      key. */
  function NormalizeKeys(es: seq<(Key, Value)>): (r: seq<(Key, Value)>)
    decreases Dict(es), 1
  {
    Overlay([], Renamed(es))
  }

  /** The result holds every key at most once. */
  lemma NormalizeKeysDistinct(es: seq<(Key, Value)>)
    ensures DistinctKeys(NormalizeKeys(es))
  {
    OverlayDistinct([], Renamed(es));
  }

  /** Pairs whose keys are the normalised keys of `es`, position by
      position, carry exactly those keys. */
  lemma KeysRenamed(es: seq<(Key, Value)>, m: seq<(Key, Value)>, k: Key)
    requires |m| == |es|
    requires forall j :: 0 <= j < |m| ==> m[j].0 == NormalizeKey(es[j].0)
    ensures HasKey(m, k) <==> exists j :: 0 <= j < |es| && NormalizeKey(es[j].0) == k
  {
    if exists j :: 0 <= j < |es| && NormalizeKey(es[j].0) == k {
      var j :| 0 <= j < |es| && NormalizeKey(es[j].0) == k;
      assert m[j].0 == k;
    }
  }

  /** The normalised pairs carry exactly the normalised keys of the input. */
  lemma RenamedHasKey(es: seq<(Key, Value)>, k: Key)
    ensures HasKey(Renamed(es), k) <==> exists j :: 0 <= j < |es| && NormalizeKey(es[j].0) == k
  {
    var m := Renamed(es);
    KeysRenamed(es, m, k);
  }

  /** The keys of the result are exactly the normalised keys of the input. */
  lemma NormalizeKeysHasKey(es: seq<(Key, Value)>, k: Key)
    ensures HasKey(NormalizeKeys(es), k) <==> exists j :: 0 <= j < |es| && NormalizeKey(es[j].0) == k
  {
    OverlayHasKey([], Renamed(es), k);
    RenamedHasKey(es, k);
  }

  /** When several keys title-case alike, the last of them gives the value. */
  lemma NormalizeKeysLaterWins(es: seq<(Key, Value)>, j: nat)
    requires j < |es|
    requires forall m :: j < m < |es| ==> NormalizeKey(es[m].0) != NormalizeKey(es[j].0)
    ensures Get(NormalizeKeys(es), NormalizeKey(es[j].0)) == Some(NormalizeValue(es[j].1))
  {
    var m := Renamed(es);
    OverlayLast([], m, j);
  }

  /** Title-casing a key twice is title-casing it once. */
  lemma NormalizeKeyIdempotent(k: Key)
    ensures NormalizeKey(NormalizeKey(k)) == NormalizeKey(k)
  {
    if k.StrKey? { TitleIdempotent(k.name); }
  }

  /** A single pair normalises on its own. */
  lemma NormalizeSingle(k: Key, v: Value)
    ensures NormalizeKeys([(k, v)]) == [(NormalizeKey(k), NormalizeValue(v))]
  {
    var m := Renamed([(k, v)]);
    assert [] + m == m;
    OverlayFresh([], m);
  }

  /** Every normalised pair has a key that normalising leaves alone. */
  lemma RenamedKeyFixed(es: seq<(Key, Value)>, e: (Key, Value))
    requires e in Renamed(es)
    ensures NormalizeKey(e.0) == e.0
  {
    var m := Renamed(es);
    var j :| 0 <= j < |m| && m[j] == e;
    NormalizeKeyIdempotent(es[j].0);
  }

  /** Pairs that normalising leaves alone, key and value, are their own
      normalised pairs. */
  lemma RenamedFixed(r: seq<(Key, Value)>)
    requires forall e :: e in r ==> NormalizeKey(e.0) == e.0 && NormalizeValue(e.1) == e.1
    ensures Renamed(r) == r
  {
  }

  /** When normalising fixes every normalised value, it fixes every entry of
      the normalised dictionary. */
  lemma NormalizeKeysEntriesFixed(es: seq<(Key, Value)>)
    requires forall e :: e in Renamed(es) ==> NormalizeValue(e.1) == e.1
    ensures forall e :: e in NormalizeKeys(es) ==> NormalizeKey(e.0) == e.0 && NormalizeValue(e.1) == e.1
  {
    OverlayEntries([], Renamed(es));
    forall e | e in NormalizeKeys(es) ensures NormalizeKey(e.0) == e.0 && NormalizeValue(e.1) == e.1 {
      RenamedKeyFixed(es, e);
    }
  }

  /** A dictionary whose normalised values are fixed by normalising is fixed
      too. */
  lemma NormalizeDictIdempotent(es: seq<(Key, Value)>)
    requires forall e :: e in Renamed(es) ==> NormalizeValue(e.1) == e.1
    ensures NormalizeKeys(NormalizeKeys(es)) == NormalizeKeys(es)
  {
    var r := NormalizeKeys(es);
    NormalizeKeysEntriesFixed(es);
    RenamedFixed(r);
    NormalizeKeysDistinct(es);
    assert [] + r == r;
    OverlayFresh([], r);
  }

  /** A list whose items are fixed by normalising twice is fixed too. */
  lemma NormalizeListIdempotent(vs: seq<Value>)
    requires forall i :: 0 <= i < |vs| ==> NormalizeValue(NormalizeValue(vs[i])) == NormalizeValue(vs[i])
    ensures Normalized(Normalized(vs)) == Normalized(vs)
  {
    var n := Normalized(vs);
    assert forall i :: 0 <= i < |vs| ==> Normalized(n)[i] == NormalizeValue(n[i]);
  }

  /** Normalising is idempotent, at every depth. */
  lemma {:induction false} NormalizeIdempotent(v: Value)
    ensures NormalizeValue(NormalizeValue(v)) == NormalizeValue(v)
    decreases v
  {
    match v
    case Dict(es) =>
      var m := Renamed(es);
      forall e | e in m ensures NormalizeValue(e.1) == e.1 {
        var j :| 0 <= j < |m| && m[j] == e;
        NormalizeIdempotent(es[j].1);
      }
      NormalizeDictIdempotent(es);
    case List(vs) =>
      forall i | 0 <= i < |vs| ensures NormalizeValue(NormalizeValue(vs[i])) == NormalizeValue(vs[i]) {
        NormalizeIdempotent(vs[i]);
      }
      NormalizeListIdempotent(vs);
    case _ =>
  }
}
