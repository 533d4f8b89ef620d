/** Sentence grouping, token-average arithmetic and random selection shared by the
    `chunkify` copies. Sentences come from an opaque segmenter as strings;
    `random.sample` is an explicit choice of distinct positions. */
module Chunking {
  import opened Wrappers
  import opened Text

  function Min(a: int, b: int): (r: int)
    ensures r <= a && r <= b && (r == a || r == b)
  {
    if a <= b then a else b
  }

  function Max(a: int, b: int): (r: int)
    ensures r >= a && r >= b && (r == a || r == b)
  {
    if a >= b then a else b
  }

  /** Python's `int(a / b)` for a positive divisor: the exact quotient truncated
      toward zero (float rounding is not modelled). */
  function TruncDiv(a: int, b: int): (q: int)
    requires b > 0
    ensures 0 <= a ==> 0 <= q && q * b <= a < q * b + b
    ensures a < 0 ==> q <= 0 && a <= q * b && q * b - b < a
  {
    if a >= 0 then a / b else -((-a) / b)
  }

  // ----- random.sample as a choice of positions -----

  predicate Distinct(p: seq<nat>) {
    forall i, j :: 0 <= i < j < |p| ==> p[i] != p[j]
  }

  /** `p` is a possible outcome of `random.sample(range(n), k)`. */
  predicate ValidSample(p: seq<nat>, n: nat, k: nat) {
    |p| == k && Distinct(p) && forall i :: 0 <= i < |p| ==> p[i] < n
  }

  /** The elements of `s` at the chosen positions, in the order chosen. */
  function Pick<T>(s: seq<T>, p: seq<nat>): (r: seq<T>)
    requires forall i :: 0 <= i < |p| ==> p[i] < |s|
    ensures |r| == |p|
    ensures forall i :: 0 <= i < |p| ==> r[i] == s[p[i]]
  {
    seq(|p|, i requires 0 <= i < |p| => s[p[i]])
  }

  /** `[0, 1, ..., k-1]`: the sample that keeps the first `k` positions. */
  function Range(k: nat): (p: seq<nat>)
    ensures |p| == k && forall i :: 0 <= i < k ==> p[i] == i
  {
    seq(k, i requires 0 <= i < k => i)
  }

  /** `random.sample` can always answer when `k <= n`. */
  lemma SampleExists(n: nat, k: nat)
    requires k <= n
    ensures ValidSample(Range(k), n, k)
  {
  }

  /** The successive answers of `random.sample` during one run: the `call`-th
      draw takes `k` positions out of `n`. */
  datatype Sampler = Sampler(draw: (nat, nat, nat) -> seq<nat>)

  /** Every draw the sampler can make is a possible answer of `random.sample`. */
  ghost predicate ValidSampler(s: Sampler) {
    forall call: nat, n: nat, k: nat :: k <= n ==> ValidSample(s.draw(call, n, k), n, k)
  }

  function Elems(p: seq<nat>): set<nat> {
    set i | 0 <= i < |p| :: p[i]
  }

  lemma {:induction false} DistinctCard(p: seq<nat>)
    requires Distinct(p)
    ensures |Elems(p)| == |p|
    decreases |p|
  {
    if |p| > 0 {
      var q := p[..|p| - 1];
      assert Distinct(q);
      DistinctCard(q);
      assert Elems(p) == Elems(q) + {p[|p| - 1]};
      assert p[|p| - 1] !in Elems(q);
    }
  }

  lemma {:induction false} SubsetCard(a: set<nat>, b: set<nat>)
    requires a <= b
    ensures |a| <= |b|
    decreases |b|
  {
    if a != {} {
      var x :| x in a;
      SubsetCard(a - {x}, b - {x});
    }
  }

  /** Pigeonhole: a sample of all `n` positions out of `n` uses every position,
      so picking with it permutes the sequence. */
  lemma FullSampleCovers(p: seq<nat>, n: nat)
    requires ValidSample(p, n, n)
    ensures forall j :: 0 <= j < n ==> j in p
  {
    DistinctCard(p);
    var below := Elems(Range(n));
    DistinctCard(Range(n));
    forall j | 0 <= j < n ensures j in p {
      assert j == Range(n)[j];
      if j !in p {
        forall x | x in Elems(p) ensures x in below - {j} {
          assert x == Range(n)[x];
        }
        SubsetCard(Elems(p), below - {j});
        assert false;
      }
    }
  }

  /** Picking with a sample of all `n` positions out of `n` permutes the
      sequence: every element keeps its multiplicity. */
  lemma {:induction false} PickPermutes<T>(s: seq<T>, p: seq<nat>)
    requires ValidSample(p, |s|, |s|)
    ensures multiset(Pick(s, p)) == multiset(s)
    decreases |s|
  {
    if |s| > 0 {
      var n := |s| - 1;
      FullSampleCovers(p, |s|);
      assert n in p;
      var m :| 0 <= m < |p| && p[m] == n;
      var rest := p[..m] + p[m + 1..];
      RemovePosition(p, m);
      PickPermutes(s[..n], rest);
      var q := Pick(s[..n], rest);
      assert s == s[..n] + [s[n]];
      calc {
        multiset(Pick(s, p));
        { PickRemoved(s, p, m); }
        multiset(q[..m] + [s[n]] + q[m..]);
        { InsertMultiset(q, m, s[n]); }
        multiset(q) + multiset{s[n]};
        multiset(s[..n]) + multiset{s[n]};
        multiset(s);
      }
    }
  }

  /** Inserting an element anywhere adds it once to the multiset. */
  lemma InsertMultiset<T>(q: seq<T>, m: nat, x: T)
    requires m <= |q|
    ensures multiset(q[..m] + [x] + q[m..]) == multiset(q) + multiset{x}
  {
    assert q == q[..m] + q[m..];
  }

  /** Removing the position of the largest index from a full sample leaves a
      full sample of the others. */
  lemma RemovePosition(p: seq<nat>, m: nat)
    requires |p| > 0 && ValidSample(p, |p|, |p|) && m < |p| && p[m] == |p| - 1
    ensures ValidSample(p[..m] + p[m + 1..], |p| - 1, |p| - 1)
  {
    var rest := p[..m] + p[m + 1..];
    assert forall i :: 0 <= i < |rest| ==> rest[i] == (if i < m then p[i] else p[i + 1]);
    forall i | 0 <= i < |rest| ensures rest[i] < |p| - 1 {
      var a := if i < m then i else i + 1;
      assert a != m && rest[i] == p[a];
    }
    forall i, j | 0 <= i < j < |rest| ensures rest[i] != rest[j] {
      var a := if i < m then i else i + 1;
      var b := if j < m then j else j + 1;
      assert a < b && rest[i] == p[a] && rest[j] == p[b];
    }
  }

  /** Picking with the last position removed from the sample, then putting the
      last element back where it was drawn, gives the original pick. */
  lemma PickRemoved<T>(s: seq<T>, p: seq<nat>, m: nat)
    requires |s| > 0 && m < |p| && p[m] == |s| - 1
    requires forall i :: 0 <= i < |p| ==> p[i] < |s|
    requires forall i :: 0 <= i < |p| && i != m ==> p[i] < |s| - 1
    ensures var q := Pick(s[..|s| - 1], p[..m] + p[m + 1..]);
      Pick(s, p) == q[..m] + [s[|s| - 1]] + q[m..]
  {
    var n := |s| - 1;
    var rest := p[..m] + p[m + 1..];
    assert forall i :: 0 <= i < |rest| ==> rest[i] == (if i < m then p[i] else p[i + 1]);
    var q := Pick(s[..n], rest);
    var r := Pick(s, p);
    forall i | 0 <= i < |r| ensures r[i] == (q[..m] + [s[n]] + q[m..])[i] {
      if i > m {
        assert q[i - 1] == s[..n][rest[i - 1]];
      }
    }
  }

  // ----- consecutive sentence groups -----

  function Flatten<T>(g: seq<seq<T>>): seq<T>
    decreases |g|
  {
    if |g| == 0 then [] else g[0] + Flatten(g[1..])
  }

  /** `[s[i:i + k] for i in range(0, len(s), k)]`. */
  function Groups<T>(s: seq<T>, k: nat): seq<seq<T>>
    requires k >= 1
    decreases |s|
  {
    if |s| == 0 then []
    else if |s| <= k then [s]
    else [s[..k]] + Groups(s[k..], k)
  }

  /** The groups spell `s` again; each holds between one and `k` elements and
      all but the last exactly `k`, so there are just enough of them. */
  lemma {:induction false} GroupsShape<T>(s: seq<T>, k: nat)
    requires k >= 1
    ensures var g := Groups(s, k);
      && Flatten(g) == s
      && (forall i :: 0 <= i < |g| ==> 1 <= |g[i]| <= k)
      && (forall i :: 0 <= i < |g| - 1 ==> |g[i]| == k)
      && (|g| - 1) * k < |s| <= |g| * k
    decreases |s|
  {
    var g := Groups(s, k);
    if |s| == 0 {
    } else if |s| <= k {
      assert Flatten(g) == s + Flatten(g[1..]);
      assert s + [] == s;
    } else {
      var rest := Groups(s[k..], k);
      GroupsShape(s[k..], k);
      assert g == [s[..k]] + rest && g[1..] == rest;
      assert Flatten(g) == s[..k] + Flatten(rest);
      assert s[..k] + s[k..] == s;
      assert (|rest| + 1) * k == |rest| * k + k;
      assert (|rest| - 1) * k == |rest| * k - k;
      assert forall i :: 1 <= i < |g| ==> g[i] == rest[i - 1];
    }
  }

  /** The number of groups is `ceil(len(s) / k)`. */
  lemma GroupCount<T>(s: seq<T>, k: nat)
    requires k >= 1
    ensures |Groups(s, k)| == (|s| + k - 1) / k
  {
    var c := |Groups(s, k)|;
    GroupsShape(s, k);
    DivBetween(|s| + k - 1, k, c);
  }

  lemma {:induction false} MulAtLeast(d: int, k: int)
    requires d >= 1 && k > 0
    ensures d * k >= k
    decreases d
  {
    if d > 1 {
      MulAtLeast(d - 1, k);
      assert d * k == (d - 1) * k + k;
    }
  }

  /** Multiplying by a positive number keeps the order. */
  lemma MulMonotone(a: int, b: int, k: int)
    requires k > 0
    ensures a >= b ==> a * k >= b * k
  {
    if a > b {
      MulAtLeast(a - b, k);
      assert (a - b) * k == a * k - b * k;
    }
  }

  /** Integer division is determined by the bracketing multiples. */
  lemma DivBetween(a: int, k: int, q: int)
    requires k > 0 && q * k <= a < q * k + k
    ensures a / k == q
  {
    var r := a / k;
    assert a == r * k + a % k && 0 <= a % k < k;
    assert (q + 1) * k == q * k + k && (r + 1) * k == r * k + k;
    MulMonotone(r, q + 1, k);
    MulMonotone(q, r + 1, k);
  }

  /** The chunk texts: each group of sentences joined with single spaces. */
  function Texts(g: seq<seq<string>>): (r: seq<string>)
    ensures |r| == |g|
    ensures forall i :: 0 <= i < |g| ==> r[i] == Join(" ", g[i])
  {
    seq(|g|, i requires 0 <= i < |g| => Join(" ", g[i]))
  }

  /** `g` cuts `s` in order into runs of `k`, the last of which may be
      shorter but not empty. */
  ghost predicate IsPartition<T>(g: seq<seq<T>>, s: seq<T>, k: nat) {
    && Flatten(g) == s
    && (forall i :: 0 <= i < |g| ==> 1 <= |g[i]| <= k)
    && (forall i :: 0 <= i < |g| - 1 ==> |g[i]| == k)
  }

  /** `r` is `s` cut in order into runs of `k` sentences, each run joined
      with single spaces. */
  ghost predicate ChunkedBy(s: seq<string>, k: nat, r: seq<string>) {
    exists g :: IsPartition(g, s, k) && r == Texts(g)
  }

  /** There is only one way to cut a sequence into runs of `k`: the groups of
      `Groups`. */
  lemma {:induction false} PartitionUnique<T>(g: seq<seq<T>>, s: seq<T>, k: nat)
    requires k >= 1 && IsPartition(g, s, k)
    ensures g == Groups(s, k)
    decreases |g|
  {
    if |g| == 0 {
    } else if |g| == 1 {
      assert Flatten(g) == g[0] + Flatten(g[1..]);
      assert g[0] + [] == g[0];
    } else {
      var rest := g[1..];
      assert Flatten(g) == g[0] + Flatten(rest);
      assert Flatten(rest) == rest[0] + Flatten(rest[1..]);
      assert |g[0]| == k && |s| > k;
      assert s[..k] == g[0] && s[k..] == Flatten(rest);
      assert IsPartition(rest, s[k..], k) by {
        assert forall i :: 0 <= i < |rest| ==> rest[i] == g[i + 1];
      }
      PartitionUnique(rest, s[k..], k);
      assert g == [g[0]] + rest;
    }
  }

  /** So a run length pins the chunks down. */
  lemma ChunkedByUnique(s: seq<string>, k: nat, r1: seq<string>, r2: seq<string>)
    requires k >= 1 && ChunkedBy(s, k, r1) && ChunkedBy(s, k, r2)
    ensures r1 == r2
  {
    var g1 :| IsPartition(g1, s, k) && r1 == Texts(g1);
    var g2 :| IsPartition(g2, s, k) && r2 == Texts(g2);
    PartitionUnique(g1, s, k);
    PartitionUnique(g2, s, k);
  }

  /** The chunks of `sentences` at `spc` sentences per chunk. */
  function ChunkTexts(sentences: seq<string>, spc: nat): (r: seq<string>)
    requires spc >= 1
    ensures |r| == (|sentences| + spc - 1) / spc
    ensures |sentences| > 0 ==> |r| > 0 && r[0] == Join(" ", sentences[..Min(spc, |sentences|)])
    ensures Join(" ", r) == Join(" ", sentences)
  {
    var g := Groups(sentences, spc);
    GroupCount(sentences, spc);
    GroupsShape(sentences, spc);
    JoinGroups(g);
    assert |sentences| > 0 ==> g[0] == sentences[..Min(spc, |sentences|)] by {
      if |sentences| > 0 {
        FlattenHead(g);
        FirstGroupSize(sentences, spc);
      }
    }
    Texts(g)
  }

  /** The chunks cut the sentences in order into runs of `spc`. */
  lemma ChunkTextsPartition(sentences: seq<string>, spc: nat)
    requires spc >= 1
    ensures ChunkedBy(sentences, spc, ChunkTexts(sentences, spc))
  {
    var g := Groups(sentences, spc);
    GroupsShape(sentences, spc);
    assert IsPartition(g, sentences, spc);
    assert ChunkTexts(sentences, spc) == Texts(g);
  }

  lemma FlattenHead<T>(g: seq<seq<T>>)
    requires |g| > 0
    ensures |g[0]| <= |Flatten(g)| && Flatten(g)[..|g[0]|] == g[0]
  {
  }

  lemma FirstGroupSize<T>(s: seq<T>, k: nat)
    requires k >= 1 && |s| > 0
    ensures |Groups(s, k)[0]| == Min(k, |s|)
  {
  }

  /** Joining a joined sequence of joins: splitting the sentences into nonempty
      groups does not change the text they spell with single spaces. */
  lemma {:induction false} JoinGroups(g: seq<seq<string>>)
    requires forall i :: 0 <= i < |g| ==> |g[i]| > 0
    ensures Join(" ", Texts(g)) == Join(" ", Flatten(g))
    decreases |g|
  {
    if |g| > 1 {
      JoinGroups(g[1..]);
      assert Texts(g)[1..] == Texts(g[1..]);
      assert |Flatten(g[1..])| > 0 by { FlattenHead(g[1..]); }
      JoinAppend(" ", g[0], Flatten(g[1..]));
    } else if |g| == 1 {
      assert Flatten(g) == g[0] + Flatten(g[1..]);
      assert Flatten(g[1..]) == [];
      assert g[0] + [] == g[0];
    }
  }

  /** `sep.join(a + b) == sep.join(a) + sep + sep.join(b)` for nonempty parts. */
  lemma {:induction false} JoinAppend(sep: string, a: seq<string>, b: seq<string>)
    requires |a| > 0 && |b| > 0
    ensures Join(sep, a + b) == Join(sep, a) + sep + Join(sep, b)
    decreases |a|
  {
    if |a| == 1 {
      assert (a + b)[0] == a[0] && (a + b)[1..] == b;
    } else {
      assert (a + b)[0] == a[0] && (a + b)[1..] == a[1..] + b;
      JoinAppend(sep, a[1..], b);
    }
  }

  /** The first chunk followed by a sample of the others: the selection that
      always keeps the lead of the document. */
  function LeadPlusSample(chunks: seq<string>, picks: seq<nat>): (r: seq<string>)
    requires |chunks| >= 1
    requires forall i :: 0 <= i < |picks| ==> picks[i] < |chunks| - 1
    ensures |r| == 1 + |picks| && r[0] == chunks[0]
    ensures forall i :: 1 <= i < |r| ==> r[i] == chunks[1 + picks[i - 1]]
  {
    [chunks[0]] + Pick(chunks[1..], picks)
  }

  /** When the sample takes every later chunk, the selection is the first chunk
      followed by a permutation of the rest. */
  lemma LeadPlusFullSample(chunks: seq<string>, picks: seq<nat>)
    requires |chunks| >= 1 && ValidSample(picks, |chunks| - 1, |chunks| - 1)
    ensures |LeadPlusSample(chunks, picks)| == |chunks|
    ensures LeadPlusSample(chunks, picks)[0] == chunks[0]
    ensures multiset(LeadPlusSample(chunks, picks)[1..]) == multiset(chunks[1..])
    ensures forall j :: 1 <= j < |chunks| ==> chunks[j] in LeadPlusSample(chunks, picks)[1..]
  {
    assert LeadPlusSample(chunks, picks)[1..] == Pick(chunks[1..], picks);
    PickPermutes(chunks[1..], picks);
    FullSampleCovers(picks, |chunks| - 1);
    forall j | 1 <= j < |chunks| ensures chunks[j] in LeadPlusSample(chunks, picks)[1..] {
      LeadPlusCovers(chunks, picks, j);
    }
  }

  /** A picked position's chunk follows the lead. */
  lemma LeadPlusCovers(chunks: seq<string>, picks: seq<nat>, j: nat)
    requires 1 <= j < |chunks| && forall i :: 0 <= i < |picks| ==> picks[i] < |chunks| - 1
    requires j - 1 in picks
    ensures chunks[j] in LeadPlusSample(chunks, picks)[1..]
  {
    var m :| 0 <= m < |picks| && picks[m] == j - 1;
    LeadPlusHas(chunks, picks, m);
  }

  /** The chunk picked `m`-th follows the lead. */
  lemma LeadPlusHas(chunks: seq<string>, picks: seq<nat>, m: nat)
    requires |chunks| >= 1 && m < |picks| && forall i :: 0 <= i < |picks| ==> picks[i] < |chunks| - 1
    ensures chunks[1 + picks[m]] in LeadPlusSample(chunks, picks)[1..]
  {
    var r := LeadPlusSample(chunks, picks);
    assert r[1..][m] == r[m + 1];
  }

  // ----- the token-average chunking of `main.py` and `utils.py` -----

  /** `max(1, int(chunk_size / (total / k)))`: the most sentences whose estimated
      token count, at the sampled average of `total / k` per sentence, stays
      within `chunkSize`, and never fewer than one. */
  function SentencesPerChunk(chunkSize: int, total: nat, k: nat): (r: nat)
    requires total > 0 && k > 0
    ensures r >= 1
    ensures r == 1 || r * total <= chunkSize * k
    ensures (r + 1) * total > chunkSize * k
  {
    var a := chunkSize * k;
    var q := TruncDiv(a, total);
    QuotientStep(a, total, q);
    if q >= 1 then q else 1
  }

  /** The bracketing of a truncated quotient, in the form `SentencesPerChunk`
      states it. */
  lemma QuotientStep(a: int, b: int, q: int)
    requires b > 0
    requires 0 <= a ==> 0 <= q && q * b <= a < q * b + b
    requires a < 0 ==> q <= 0 && a <= q * b && q * b - b < a
    ensures a < (q + 1) * b
    ensures q >= 1 ==> q * b <= a
    ensures q < 1 ==> a < 2 * b
  {
    assert (q + 1) * b == q * b + b;
    if q < 1 && a >= 0 {
      assert q == 0;
    } else if q < 1 {
      assert q * b <= 0 by {
        assert (-q) * b >= 0;
      }
    }
  }

  /** The token count the server reports for the sampled sentences. */
  function SampleTotal(sentences: seq<string>, count: string -> Option<nat>, picks: seq<nat>): Option<nat>
    requires forall i :: 0 <= i < |picks| ==> picks[i] < |sentences|
  {
    count(Join(" ", Pick(sentences, picks)))
  }

  /** `chunkify` of `main.py` and `utils.py`: the token count of the sampled
      sentences fixes how many sentences go in each chunk. `count` is the
      server's token count (`None` when the call fails), `picks` the sample.
      `None / k` raises `TypeError`; an empty sample or a zero count divides by
      zero. */
  function SampledChunks(sentences: seq<string>, chunkSize: int, sampleSize: nat,
                         count: string -> Option<nat>, picks: seq<nat>): (r: Outcome<seq<string>>)
    requires ValidSample(picks, |sentences|, Min(sampleSize, |sentences|))
    ensures r == Raised("TypeError") <==> SampleTotal(sentences, count, picks).None?
    ensures r == Raised("ZeroDivisionError") <==>
      SampleTotal(sentences, count, picks).Some? && (|picks| == 0 || SampleTotal(sentences, count, picks).value == 0)
    ensures r.Returned? <==>
      SampleTotal(sentences, count, picks).Some? && SampleTotal(sentences, count, picks).value > 0 && |picks| > 0
    ensures r.Returned? ==> (
      var total := SampleTotal(sentences, count, picks);
      && total.Some? && total.value > 0 && |picks| > 0
      && var spc := SentencesPerChunk(chunkSize, total.value, |picks|);
      && |r.value| == (|sentences| + spc - 1) / spc
      && (|sentences| > 0 ==> r.value[0] == Join(" ", sentences[..Min(spc, |sentences|)]))
      && Join(" ", r.value) == Join(" ", sentences))
  {
    var total := SampleTotal(sentences, count, picks);
    if total.None? then Raised("TypeError")
    else if |picks| == 0 || total.value == 0 then Raised("ZeroDivisionError")
    else Returned(ChunkTexts(sentences, SentencesPerChunk(chunkSize, total.value, |picks|)))
  }

  /** What `chunkify` returns cuts the sentences in order into runs of the
      sentences per chunk the sampled count fixes. */
  lemma SampledChunksPartition(sentences: seq<string>, chunkSize: int, sampleSize: nat,
                               count: string -> Option<nat>, picks: seq<nat>)
    requires ValidSample(picks, |sentences|, Min(sampleSize, |sentences|))
    requires SampledChunks(sentences, chunkSize, sampleSize, count, picks).Returned?
    ensures var spc := SentencesPerChunk(chunkSize, SampleTotal(sentences, count, picks).value, |picks|);
      ChunkedBy(sentences, spc, SampledChunks(sentences, chunkSize, sampleSize, count, picks).value)
  {
    ChunkTextsPartition(sentences, SentencesPerChunk(chunkSize, SampleTotal(sentences, count, picks).value, |picks|));
  }
}
