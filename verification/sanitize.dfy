/** The regular expressions the JSON clean-up code runs over model output:
    the ```` ```json ```` fence, the first-`{`-to-last-`}` span and the
    trailing-comma rewrite. Each is written out as the scan Python's `re`
    performs for that particular pattern. */
module Sanitize {
  import opened Wrappers
  import opened Text

  const FenceOpen: string := "```json"
  const FenceClose: string := "```"

  /** `re.search(r'```json\s*(.*?)\s*```', s, re.DOTALL).group(1)`: the text
      after the first ```` ```json ```` and its following whitespace, up to the
      whitespace that precedes the next ```` ``` ````. Python's `[\s\S]*?` in
      `main.py` matches the same way. */
  function FenceGroup(s: string): Option<string>
  {
    match FindFrom(s, FenceOpen, 0)
    case None => None
    case Some(p) =>
      var start := SkipSpaces(s, p + |FenceOpen|);
      match FindFrom(s, FenceClose, start)
      case None => None
      case Some(q) => Some(s[start..BackSpaces(s, start, q)])
  }

  /** The two `\s*` around the group leave no whitespace at its ends. */
  lemma FenceGroupTrimmed(s: string)
    ensures FenceGroup(s).Some? ==> var g := FenceGroup(s).value;
      |g| > 0 ==> !IsSpace(g[0]) && !IsSpace(g[|g| - 1])
  {
    var o := FindFrom(s, FenceOpen, 0);
    if o.Some? {
      var start := SkipSpaces(s, o.value + |FenceOpen|);
      var c := FindFrom(s, FenceClose, start);
      if c.Some? {
        FenceGroupAt(s, o.value, start, c.value);
        SpanTrimmed(s, start, c.value);
      }
    }
  }

  /** A span that starts on a non-space and stops after one has no
      whitespace at its ends. */
  lemma SpanTrimmed(s: string, i: nat, q: nat)
    requires i <= q <= |s| && (i < |s| ==> !IsSpace(s[i]))
    ensures var g := s[i..BackSpaces(s, i, q)]; |g| > 0 ==> !IsSpace(g[0]) && !IsSpace(g[|g| - 1])
  {
  }

  /** `match.group(1).strip()`: stripping the group never changes it, because the
      two `\s*` around the group already took the whitespace. */
  function FenceInterior(s: string): (r: Option<string>)
    ensures r == FenceGroup(s)
  {
    match FenceGroup(s)
    case None => None
    case Some(g) => FenceGroupTrimmed(s); StripNoop(g); Some(Strip(g))
  }

  predicate NoTick(s: string) {
    forall k :: 0 <= k < |s| ==> s[k] != '`'
  }

  /** A pattern that starts with a backtick is first found where the first
      backtick at or after `from` stands, if it occurs there. */
  lemma FindAtTick(s: string, pat: string, from: nat, at: nat)
    requires |pat| > 0 && pat[0] == '`' && from <= at
    requires OccursAt(s, pat, at)
    requires forall k :: from <= k < at ==> s[k] != '`'
    ensures FindFrom(s, pat, from) == Some(at)
  {
  }

  /** Text without a backtick holds no fence. */
  lemma NoTickNoFence(s: string)
    requires NoTick(s)
    ensures FindFrom(s, FenceOpen, 0).None? && FenceInterior(s).None?
  {
    forall j: nat ensures !OccursAt(s, FenceOpen, j) {
      if j + 7 <= |s| {
        assert s[j..j + 7][0] == s[j];
      }
    }
  }

  /** The fence scan on a string laid out by positions: a fence opening at `p`
      with nothing ticked before it, whitespace up to `b`, a body `s[b..e]` with
      no backtick and no whitespace at its ends, whitespace up to the closing
      fence at `q`. */
  lemma FenceAt(s: string, p: nat, b: nat, e: nat, q: nat)
    requires p + 7 <= b <= e <= q && OccursAt(s, FenceOpen, p) && OccursAt(s, FenceClose, q)
    requires forall k :: 0 <= k < p ==> s[k] != '`'
    requires forall k :: p + 7 <= k < b ==> IsSpace(s[k])
    requires forall k :: b <= k < e ==> s[k] != '`'
    requires b < e ==> !IsSpace(s[b]) && !IsSpace(s[e - 1])
    requires forall k :: e <= k < q ==> IsSpace(s[k])
    ensures FenceInterior(s) == Some(s[b..e])
  {
    if b < e {
      OpenAt(s, p, b);
      CloseAt(s, b, e, q);
      FenceGroupAt(s, p, b, q);
    } else {
      OpenAt(s, p, q);
      CloseAt(s, q, q, q);
      FenceGroupAt(s, p, q, q);
      assert s[q..q] == s[b..e];
    }
  }

  /** The opening fence is found at `p` and the body starts at `start`. */
  lemma OpenAt(s: string, p: nat, start: nat)
    requires p + 7 <= start <= |s| && OccursAt(s, FenceOpen, p)
    requires forall k :: 0 <= k < p ==> s[k] != '`'
    requires forall k :: p + 7 <= k < start ==> IsSpace(s[k])
    requires start < |s| ==> !IsSpace(s[start])
    ensures FindFrom(s, FenceOpen, 0) == Some(p)
    ensures SkipSpaces(s, p + |FenceOpen|) == start
  {
    FindAtTick(s, FenceOpen, 0, p);
    SkipExact(s, p + 7, start);
  }

  /** The closing fence is found at `q` and the body stops at `stop`. */
  lemma CloseAt(s: string, start: nat, stop: nat, q: nat)
    requires start <= stop <= q && OccursAt(s, FenceClose, q)
    requires forall k :: start <= k < stop ==> s[k] != '`'
    requires forall k :: stop <= k < q ==> IsSpace(s[k])
    requires stop > start ==> !IsSpace(s[stop - 1])
    ensures FindFrom(s, FenceClose, start) == Some(q)
    ensures BackSpaces(s, start, q) == stop
  {
    forall k | start <= k < q ensures s[k] != '`' {
      if k >= stop {
        assert IsSpace(s[k]);
      }
    }
    FindAtTick(s, FenceClose, start, q);
    BackExact(s, start, stop, q);
  }

  /** The group lies between the whitespace after the opening fence found at
      `p` and the whitespace before the closing fence found at `q`. */
  lemma FenceGroupAt(s: string, p: nat, start: nat, q: nat)
    requires FindFrom(s, FenceOpen, 0) == Some(p)
    requires p + |FenceOpen| <= |s| && SkipSpaces(s, p + |FenceOpen|) == start
    requires FindFrom(s, FenceClose, start) == Some(q) && start <= q <= |s|
    ensures FenceGroup(s) == Some(s[start..BackSpaces(s, start, q)])
  {
  }

  /** A fenced block is found and its body returned whole, whatever whitespace
      surrounds it, provided nothing before it holds a backtick and the body
      holds none either. */
  lemma FenceFinds(pre: string, ws1: string, body: string, ws2: string, post: string)
    requires NoTick(pre) && NoTick(body) && AllSpace(ws1) && AllSpace(ws2)
    requires |body| > 0 ==> !IsSpace(body[0]) && !IsSpace(body[|body| - 1])
    ensures FenceInterior(pre + FenceOpen + ws1 + body + ws2 + FenceClose + post) == Some(body)
  {
    FenceLayout(pre, ws1, body, ws2, post);
    FenceSlices(pre + FenceOpen + ws1 + body + ws2 + FenceClose + post, pre, ws1, body, ws2);
  }

  /** The same, for a string known only through its slices. */
  lemma FenceSlices(s: string, pre: string, ws1: string, body: string, ws2: string)
    requires NoTick(pre) && NoTick(body) && AllSpace(ws1) && AllSpace(ws2)
    requires |body| > 0 ==> !IsSpace(body[0]) && !IsSpace(body[|body| - 1])
    requires var p := |pre|; var b := p + 7 + |ws1|; var e := b + |body|; var q := e + |ws2|;
      q + 3 <= |s| &&
      s[..p] == pre && s[p..p + 7] == FenceOpen && s[p + 7..b] == ws1 &&
      s[b..e] == body && s[e..q] == ws2 && s[q..q + 3] == FenceClose
    ensures FenceInterior(s) == Some(body)
  {
    var p := |pre|;
    var b := p + 7 + |ws1|;
    var e := b + |body|;
    var q := e + |ws2|;
    SliceAt(s, 0, p, pre);
    SliceAt(s, p + 7, b, ws1);
    SliceAt(s, b, e, body);
    SliceAt(s, e, q, ws2);
    assert b < e ==> s[b] == body[0] && s[e - 1] == body[|body| - 1];
    FenceAt(s, p, b, e, q);
  }

  /** Where each part of a fenced layout lies. */
  lemma FenceLayout(pre: string, ws1: string, body: string, ws2: string, post: string)
    ensures var s := pre + FenceOpen + ws1 + body + ws2 + FenceClose + post;
      var p := |pre|; var b := p + 7 + |ws1|; var e := b + |body|; var q := e + |ws2|;
      s[..p] == pre && s[p..p + 7] == FenceOpen && s[p + 7..b] == ws1 &&
      s[b..e] == body && s[e..q] == ws2 && s[q..q + 3] == FenceClose
  {
  }

  /** Positions of a slice known to equal `part` hold `part`'s characters. */
  lemma SliceAt(s: string, lo: nat, hi: nat, part: string)
    requires lo <= hi <= |s| && s[lo..hi] == part
    ensures forall k :: lo <= k < hi ==> s[k] == part[k - lo]
  {
  }

  lemma SkipExact(s: string, i: nat, j: nat)
    requires i <= j <= |s|
    requires forall k :: i <= k < j ==> IsSpace(s[k])
    requires j < |s| ==> !IsSpace(s[j])
    ensures SkipSpaces(s, i) == j
    decreases j - i
  {
    if i < j {
      SkipExact(s, i + 1, j);
    }
  }

  lemma BackExact(s: string, lo: nat, e: nat, j: nat)
    requires lo <= e <= j <= |s|
    requires forall k :: e <= k < j ==> IsSpace(s[k])
    requires e > lo ==> !IsSpace(s[e - 1])
    ensures BackSpaces(s, lo, j) == e
    decreases j - e
  {
    if e < j {
      BackExact(s, lo, e, j - 1);
    }
  }

  /** `re.search(r'\{.*\}', s, re.DOTALL).group(0)`: from the first `{` to the
      last `}`, when that `}` comes later. */
  function BraceSpan(s: string): (r: Option<string>)
    ensures r.Some? ==> exists i, j :: (0 <= i < j < |s| && r.value == s[i..j + 1] &&
      s[i] == '{' && s[j] == '}' &&
      (forall k :: 0 <= k < i ==> s[k] != '{') && (forall k :: j < k < |s| ==> s[k] != '}'))
    ensures r.None? <==> forall i, j :: 0 <= i < j < |s| && s[i] == '{' ==> s[j] != '}'
  {
    match FindFrom(s, "{", 0)
    case None =>
      assert forall i :: 0 <= i < |s| ==> s[i] != '{' by {
        forall i | 0 <= i < |s| ensures s[i] != '{' {
          assert !OccursAt(s, "{", i);
          assert s[i..i + 1] == [s[i]];
        }
      }
      None
    case Some(i) =>
      assert s[i] == '{' by { assert s[i..i + 1] == "{"; }
      assert forall k :: 0 <= k < i ==> s[k] != '{' by {
        forall k | 0 <= k < i ensures s[k] != '{' {
          assert !OccursAt(s, "{", k);
          assert s[k..k + 1] == [s[k]];
        }
      }
      match LastIndexOf(s, '}')
      case None => None
      case Some(j) =>
        if j > i then Some(s[i..j + 1]) else None
  }

  /** The span is fixed by its ends: the first `{` and the last `}`. */
  lemma BraceSpanAt(s: string, i: nat, j: nat)
    requires i < j < |s| && s[i] == '{' && s[j] == '}'
    requires forall k :: 0 <= k < i ==> s[k] != '{'
    requires forall k :: j < k < |s| ==> s[k] != '}'
    ensures BraceSpan(s) == Some(s[i..j + 1])
  {
    FindCharFirst(s, '{', i);
    assert "{" == ['{'];
    LastIndexOfAt(s, '}', j);
  }

  // ----- re.sub(r',\s*}', '}', s) and the same for ']' -----

  /** Characters the trailing-comma rewrite never drops. */
  predicate Kept(c: char) {
    c != ',' && !IsSpace(c)
  }

  /** The characters of `s` other than commas and whitespace, in order. */
  function Essential(s: string): string
    decreases |s|
  {
    if |s| == 0 then ""
    else (if Kept(s[0]) then [s[0]] else "") + Essential(s[1..])
  }

  /** The left-to-right replacement from position `i` on: a comma, a run of
      whitespace and `close` become `close`; the scan resumes after `close`. */
  function SubCommaFrom(s: string, close: char, i: nat): (r: string)
    requires i <= |s|
    ensures |r| <= |s| - i
    decreases |s| - i
  {
    if i == |s| then ""
    else if s[i] == ',' then
      var k := SkipSpaces(s, i + 1);
      if k < |s| && s[k] == close then [close] + SubCommaFrom(s, close, k + 1)
      else [','] + SubCommaFrom(s, close, i + 1)
    else [s[i]] + SubCommaFrom(s, close, i + 1)
  }

  function SubCommaClose(s: string, close: char): (r: string)
    ensures |r| <= |s|
  {
    SubCommaFrom(s, close, 0)
  }

  /** The rewrite drops only commas and whitespace: everything else survives in
      order, the closing brackets included. */
  lemma {:induction false} SubKeepsEssential(s: string, close: char, i: nat)
    requires i <= |s| && Kept(close)
    ensures Essential(SubCommaFrom(s, close, i)) == Essential(s[i..])
    decreases |s| - i, 1
  {
    if i < |s| {
      EssentialFrom(s, i);
      if s[i] == ',' {
        var k := SkipSpaces(s, i + 1);
        if k < |s| && s[k] == close {
          SubKeepsClosed(s, close, i, k);
        } else {
          SubKeepsEssential(s, close, i + 1);
          EssentialCons(',', SubCommaFrom(s, close, i + 1));
        }
      } else {
        SubKeepsEssential(s, close, i + 1);
        EssentialCons(s[i], SubCommaFrom(s, close, i + 1));
      }
    }
  }

  /** The branch that drops a comma and the whitespace before `close`. */
  lemma {:induction false} SubKeepsClosed(s: string, close: char, i: nat, k: nat)
    requires i < k < |s| && Kept(close) && s[i] == ',' && s[k] == close
    requires k == SkipSpaces(s, i + 1)
    ensures Essential(SubCommaFrom(s, close, i)) == Essential(s[i..])
    decreases |s| - i, 0
  {
    var rest := SubCommaFrom(s, close, k + 1);
    calc {
      Essential(SubCommaFrom(s, close, i));
      Essential([close] + rest);
      { EssentialCons(close, rest); }
      [close] + Essential(rest);
      { SubKeepsEssential(s, close, k + 1); }
      [close] + Essential(s[k + 1..]);
      { EssentialFrom(s, k); }
      Essential(s[k..]);
      { SpacesInvisible(s, i + 1, k); }
      Essential(s[i + 1..]);
      { EssentialFrom(s, i); }
      Essential(s[i..]);
    }
  }

  lemma EssentialCons(c: char, t: string)
    ensures Essential([c] + t) == (if Kept(c) then [c] else "") + Essential(t)
  {
    assert ([c] + t)[1..] == t;
  }

  lemma EssentialFrom(s: string, i: nat)
    requires i < |s|
    ensures Essential(s[i..]) == (if Kept(s[i]) then [s[i]] else "") + Essential(s[i + 1..])
  {
    assert s[i..][1..] == s[i + 1..];
  }

  lemma {:induction false} SpacesInvisible(s: string, i: nat, k: nat)
    requires i <= k <= |s| && forall m :: i <= m < k ==> IsSpace(s[m])
    ensures Essential(s[i..]) == Essential(s[k..])
    decreases k - i
  {
    if i < k {
      assert s[i..][1..] == s[i + 1..];
      SpacesInvisible(s, i + 1, k);
    }
  }

  /** Text without a comma passes through the rewrite unchanged. */
  lemma {:induction false} SubWithoutComma(s: string, close: char, i: nat)
    requires i <= |s| && forall m :: i <= m < |s| ==> s[m] != ','
    ensures SubCommaFrom(s, close, i) == s[i..]
    decreases |s| - i
  {
    if i < |s| {
      SubWithoutComma(s, close, i + 1);
      assert s[i..] == [s[i]] + s[i + 1..];
    }
  }

  /** `{"a":1, }` becomes `{"a":1}`. */
  lemma SubExample()
    ensures SubCommaClose("{\"a\":1, }", '}') == "{\"a\":1}"
  {
    var s := "{\"a\":1, }";
    assert SkipSpaces(s, 7) == 8;
    assert SubCommaFrom(s, '}', 9) == "";
    assert SubCommaFrom(s, '}', 6) == "}";
  }

  /** One pass is not always enough: `",,}"` keeps a comma before the brace. */
  lemma SubNotIdempotent()
    ensures SubCommaClose(",,}", '}') == ",}"
    ensures SubCommaClose(",}", '}') == "}"
  {
    var s := ",,}";
    assert SkipSpaces(s, 1) == 1;
    assert SkipSpaces(s, 2) == 2;
    assert SubCommaFrom(s, '}', 3) == "";
    assert SubCommaFrom(s, '}', 1) == "}";
    var t := ",}";
    assert SkipSpaces(t, 1) == 1;
    assert SubCommaFrom(t, '}', 2) == "";
  }
}
