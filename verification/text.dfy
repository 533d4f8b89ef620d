/** String operations the scripts take from Python's `str` and `re`: whitespace
    stripping, run collapsing, substring search, joining, splitting, ASCII case
    mapping, and the `clean_text` normaliser that every script carries a copy of. */
module Text {
  import opened Wrappers

  /** Python's `str.isspace` for a single character. */
  predicate IsSpace(c: char) {
    || '\t' <= c <= '\r'
    || '\U{001C}' <= c <= ' '
    || c == '\U{0085}' || c == '\U{00A0}' || c == '\U{1680}'
    || '\U{2000}' <= c <= '\U{200A}'
    || c == '\U{2028}' || c == '\U{2029}' || c == '\U{202F}' || c == '\U{205F}' || c == '\U{3000}'
  }

  predicate AllSpace(s: string) {
    forall k :: 0 <= k < |s| ==> IsSpace(s[k])
  }

  /** The first index at or after `i` that does not hold whitespace (or `|s|`). */
  function SkipSpaces(s: string, i: nat): (j: nat)
    requires i <= |s|
    ensures i <= j <= |s|
    ensures forall k :: i <= k < j ==> IsSpace(s[k])
    ensures j < |s| ==> !IsSpace(s[j])
    decreases |s| - i
  {
    if i < |s| && IsSpace(s[i]) then SkipSpaces(s, i + 1) else i
  }

  /** Walking left from `j`, never below `lo`, the start of the whitespace run
      that ends at `j`. */
  function BackSpaces(s: string, lo: nat, j: nat): (e: nat)
    requires lo <= j <= |s|
    ensures lo <= e <= j
    ensures forall k :: e <= k < j ==> IsSpace(s[k])
    ensures e > lo ==> !IsSpace(s[e - 1])
    decreases j
  {
    if j > lo && IsSpace(s[j - 1]) then BackSpaces(s, lo, j - 1) else j
  }

  /** Python's `str.strip()`. */
  function Strip(s: string): (r: string)
    ensures exists a, b :: 0 <= a <= b <= |s| && r == s[a..b] && AllSpace(s[..a]) && AllSpace(s[b..])
    ensures |r| > 0 ==> !IsSpace(r[0]) && !IsSpace(r[|r| - 1])
  {
    var a := SkipSpaces(s, 0);
    var b := BackSpaces(s, a, |s|);
    assert AllSpace(s[..a]) && AllSpace(s[b..]);
    s[a..b]
  }

  /** Python's `str.rstrip()`. */
  function RStrip(s: string): (r: string)
    ensures exists b :: 0 <= b <= |s| && r == s[..b] && AllSpace(s[b..])
    ensures |r| > 0 ==> !IsSpace(r[|r| - 1])
  {
    var b := BackSpaces(s, 0, |s|);
    assert AllSpace(s[b..]);
    s[..b]
  }

  /** `strip` leaves alone a string whose ends are not whitespace. */
  lemma StripNoop(r: string)
    requires |r| > 0 ==> !IsSpace(r[0]) && !IsSpace(r[|r| - 1])
    ensures Strip(r) == r
  {
    var a := SkipSpaces(r, 0);
    assert a == 0;
    var b := BackSpaces(r, a, |r|);
    assert b == |r|;
  }

  lemma StripIdempotent(s: string)
    ensures Strip(Strip(s)) == Strip(s)
  {
    StripNoop(Strip(s));
  }

  /** No two adjacent characters are both `c`. */
  predicate NoDouble(c: char, s: string) {
    forall i :: 0 <= i < |s| - 1 ==> !(s[i] == c && s[i + 1] == c)
  }

  /** `s` with every `c` removed. */
  function Without(c: char, s: string): string
    decreases |s|
  {
    if |s| == 0 then "" else (if s[0] == c then "" else [s[0]]) + Without(c, s[1..])
  }

  /** `re.sub(c + '+', c, s)`: every maximal run of `c` becomes a single `c`. */
  function Squeeze(c: char, s: string): (r: string)
    ensures NoDouble(c, r)
    ensures Without(c, r) == Without(c, s)
    ensures |r| <= |s|
    ensures |s| > 0 ==> |r| > 0 && r[0] == s[0]
    decreases |s|
  {
    if |s| <= 1 then s
    else if s[0] == c && s[1] == c then Squeeze(c, s[1..])
    else
      var rest := Squeeze(c, s[1..]);
      assert ([s[0]] + rest)[1..] == rest;
      [s[0]] + rest
  }

  /** The reference for collapsing runs, built from the back: every character
      is kept except a `c` that directly follows a `c`. */
  function Collapse(c: char, s: string): string
    decreases |s|
  {
    if |s| == 0 then ""
    else
      var n := |s| - 1;
      Collapse(c, s[..n]) + (if n >= 1 && s[n - 1] == c && s[n] == c then "" else [s[n]])
  }

  /** Appending one character to the input appends it to the collapsed text,
      unless it continues a run of `c`. */
  lemma {:induction false} SqueezeSnoc(c: char, s: string, x: char)
    ensures Squeeze(c, s + [x]) == Squeeze(c, s) + (if |s| >= 1 && s[|s| - 1] == c && x == c then "" else [x])
    decreases |s|
  {
    var t := s + [x];
    if |s| == 0 {
      assert t == [x];
    } else if |s| == 1 {
      assert t == [s[0], x] && t[1..] == [x];
    } else {
      assert t[1..] == s[1..] + [x];
      SqueezeSnoc(c, s[1..], x);
      assert s[1..][|s[1..]| - 1] == s[|s| - 1];
      if !(s[0] == c && s[1] == c) {
        assert Squeeze(c, s) == [s[0]] + Squeeze(c, s[1..]);
      }
    }
  }

  /** Collapsing runs from the front is the reference from the back: each run
      of `c` keeps exactly one `c`, and nothing else changes. */
  lemma {:induction false} SqueezeIsCollapse(c: char, s: string)
    ensures Squeeze(c, s) == Collapse(c, s)
    decreases |s|
  {
    if |s| > 0 {
      var n := |s| - 1;
      var init, x := s[..n], s[n];
      var tail: string := if n >= 1 && s[n - 1] == c && x == c then "" else [x];
      assert init + [x] == s;
      calc {
        Squeeze(c, s);
        Squeeze(c, init + [x]);
        { SqueezeSnoc(c, init, x); assert n >= 1 ==> init[n - 1] == s[n - 1]; }
        Squeeze(c, init) + tail;
        { SqueezeIsCollapse(c, init); }
        Collapse(c, init) + tail;
        Collapse(c, s);
      }
    }
  }

  /** A string without doubled `c` is left alone. */
  lemma {:induction false} SqueezeFixesNoDouble(c: char, s: string)
    requires NoDouble(c, s)
    ensures Squeeze(c, s) == s
    decreases |s|
  {
    if |s| > 1 {
      assert NoDouble(c, s[1..]) by {
        forall i | 0 <= i < |s[1..]| - 1 ensures !(s[1..][i] == c && s[1..][i + 1] == c) {
          assert s[1..][i] == s[i + 1] && s[1..][i + 1] == s[i + 2];
        }
      }
      SqueezeFixesNoDouble(c, s[1..]);
      assert s == [s[0]] + s[1..];
    }
  }

  /** Collapsing runs of one character never creates a doubled other character. */
  lemma {:induction false} SqueezeKeepsNoDouble(c: char, d: char, s: string)
    requires c != d && NoDouble(d, s)
    ensures NoDouble(d, Squeeze(c, s))
    decreases |s|
  {
    if |s| > 1 {
      assert NoDouble(d, s[1..]) by {
        forall i | 0 <= i < |s[1..]| - 1 ensures !(s[1..][i] == d && s[1..][i + 1] == d) {
          assert s[1..][i] == s[i + 1] && s[1..][i + 1] == s[i + 2];
        }
      }
      SqueezeKeepsNoDouble(c, d, s[1..]);
    }
  }

  /** Every substring of a string without doubled `c` is without doubled `c`. */
  lemma NoDoubleSlice(c: char, s: string, a: nat, b: nat)
    requires a <= b <= |s| && NoDouble(c, s)
    ensures NoDouble(c, s[a..b])
  {
    forall i | 0 <= i < |s[a..b]| - 1 ensures !(s[a..b][i] == c && s[a..b][i + 1] == c) {
      assert s[a..b][i] == s[a + i] && s[a..b][i + 1] == s[a + i + 1];
    }
  }

  /** The text normalisation after `ftfy`: newline runs and space runs collapse to
      one character each, then the ends are stripped. */
  function Tidy(s: string): string
  {
    Strip(Squeeze(' ', Squeeze('\n', s)))
  }

  /** Tidied text has no doubled newline or space and no whitespace at its ends. */
  lemma TidyNormal(s: string)
    ensures var r := Tidy(s); NoDouble('\n', r) && NoDouble(' ', r)
    ensures var r := Tidy(s); |r| > 0 ==> !IsSpace(r[0]) && !IsSpace(r[|r| - 1])
  {
    var lines := Squeeze('\n', s);
    var spaced := Squeeze(' ', lines);
    SqueezeKeepsNoDouble(' ', '\n', lines);
    var r := Strip(spaced);
    var a, b :| 0 <= a <= b <= |spaced| && r == spaced[a..b];
    NoDoubleSlice('\n', spaced, a, b);
    NoDoubleSlice(' ', spaced, a, b);
  }

  /** Tidying tidy text changes nothing. */
  lemma TidyIdempotent(s: string)
    ensures Tidy(Tidy(s)) == Tidy(s)
  {
    var t := Tidy(s);
    TidyNormal(s);
    SqueezeFixesNoDouble('\n', t);
    SqueezeFixesNoDouble(' ', t);
    assert Tidy(t) == Strip(t);
    StripIdempotent(Squeeze(' ', Squeeze('\n', s)));
  }

  /** `clean_text` / `clean_content` / `cleanup_content`: `None` becomes `""`, any
      other text goes through `ftfy.fix_text` (the opaque `fix`) and `Tidy`. */
  function CleanText(fix: string -> string, text: Option<string>): string
  {
    match text
    case None => ""
    case Some(t) => Tidy(fix(t))
  }

  /** Whatever `fix` returns, cleaned text is normalised: no doubled newline
      or space, no whitespace at either end, and nothing at all for `None`. */
  lemma CleanTextNormal(fix: string -> string, text: Option<string>)
    ensures text.None? ==> CleanText(fix, text) == ""
    ensures var r := CleanText(fix, text); NoDouble('\n', r) && NoDouble(' ', r)
    ensures var r := CleanText(fix, text); |r| > 0 ==> !IsSpace(r[0]) && !IsSpace(r[|r| - 1])
  {
    if text.Some? {
      TidyNormal(fix(text.value));
    }
  }

  /** `pat` occurs in `s` starting at index `i`. */
  predicate OccursAt(s: string, pat: string, i: nat) {
    i + |pat| <= |s| && s[i..i + |pat|] == pat
  }

  /** `s.find(pat, start)`: the first occurrence of `pat` at or after `start`. */
  function FindFrom(s: string, pat: string, start: nat): (r: Option<nat>)
    ensures r.Some? ==> start <= r.value && OccursAt(s, pat, r.value)
    ensures r.Some? ==> forall j :: start <= j < r.value ==> !OccursAt(s, pat, j)
    ensures r.None? ==> forall j :: start <= j ==> !OccursAt(s, pat, j)
    decreases |s| - start
  {
    if start + |pat| > |s| then None
    else if s[start..start + |pat|] == pat then Some(start)
    else FindFrom(s, pat, start + 1)
  }

  /** Python's `sub in s` for strings. */
  predicate Contains(s: string, sub: string) {
    FindFrom(s, sub, 0).Some?
  }

  /** `s.rfind(c)`: the last index holding `c`. */
  function LastIndexOf(s: string, c: char): (r: Option<nat>)
    ensures r.Some? ==> r.value < |s| && s[r.value] == c && forall k :: r.value < k < |s| ==> s[k] != c
    ensures r.None? ==> forall k :: 0 <= k < |s| ==> s[k] != c
    decreases |s|
  {
    if |s| == 0 then None
    else if s[|s| - 1] == c then Some(|s| - 1)
    else LastIndexOf(s[..|s| - 1], c)
  }

  /** The last occurrence is the one with no `c` after it. */
  lemma LastIndexOfAt(s: string, c: char, i: nat)
    requires i < |s| && s[i] == c && forall k :: i < k < |s| ==> s[k] != c
    ensures LastIndexOf(s, c) == Some(i)
  {
  }

  /** `sep.join(parts)`. */
  function Join(sep: string, parts: seq<string>): string
    decreases |parts|
  {
    if |parts| == 0 then ""
    else if |parts| == 1 then parts[0]
    else parts[0] + sep + Join(sep, parts[1..])
  }

  /** `s.replace(a, b)` for single characters, i.e. `re.sub(a, b, s)`. */
  function ReplaceChar(s: string, a: char, b: char): (r: string)
    ensures |r| == |s|
    ensures forall i :: 0 <= i < |s| ==> r[i] == (if s[i] == a then b else s[i])
  {
    seq(|s|, i requires 0 <= i < |s| => if s[i] == a then b else s[i])
  }

  predicate IsLetter(c: char) {
    'a' <= c <= 'z' || 'A' <= c <= 'Z'
  }

  function LowerChar(c: char): char {
    if 'A' <= c <= 'Z' then (c as int + 32) as char else c
  }

  function UpperChar(c: char): char {
    if 'a' <= c <= 'z' then (c as int - 32) as char else c
  }

  /** `str.lower()` on the ASCII letters. */
  function Lower(s: string): string {
    seq(|s|, i requires 0 <= i < |s| => LowerChar(s[i]))
  }

  /** One character of `str.title()`: a letter is upper-cased when the character
      before it is not a letter and lower-cased otherwise. */
  function TitleAt(s: string, i: nat): char
    requires i < |s|
  {
    if !IsLetter(s[i]) then s[i]
    else if i > 0 && IsLetter(s[i - 1]) then LowerChar(s[i])
    else UpperChar(s[i])
  }

  /** `str.title()` on ASCII letters; every other character is left alone and
      counts as a word boundary. */
  function Title(s: string): (r: string)
    ensures |r| == |s|
    ensures forall i :: 0 <= i < |s| && !IsLetter(s[i]) ==> r[i] == s[i]
    ensures forall i :: 0 <= i < |s| ==> LowerChar(r[i]) == LowerChar(s[i])
  {
    seq(|s|, i requires 0 <= i < |s| => TitleAt(s, i))
  }

  /** A title-cased string keeps its non-letters and starts each run of
      letters with a capital, the rest of the run in lower case. */
  lemma TitleShape(s: string)
    ensures var r := Title(s);
      && (forall i :: 0 <= i < |s| ==> (IsLetter(r[i]) <==> IsLetter(s[i])))
      && (forall i :: 0 <= i < |s| && !IsLetter(s[i]) ==> r[i] == s[i])
      && (forall i :: 0 <= i < |s| && IsLetter(s[i]) ==>
            (if i > 0 && IsLetter(s[i - 1]) then 'a' <= r[i] <= 'z' else 'A' <= r[i] <= 'Z'))
  {
  }

  /** Title-casing is idempotent. */
  lemma TitleIdempotent(s: string)
    ensures Title(Title(s)) == Title(s)
  {
    var t := Title(s);
    var tt := Title(t);
    forall i | 0 <= i < |s| ensures tt[i] == t[i] {
      assert tt[i] == TitleAt(t, i);
    }
  }

  /** `s.split(c)`: the pieces between occurrences of `c`, always at least one. */
  function Split(s: string, c: char): (r: seq<string>)
    ensures |r| >= 1
    ensures forall k :: 0 <= k < |r| ==> c !in r[k]
    decreases |s|
  {
    match FindFrom(s, [c], 0)
    case None =>
      assert forall k :: 0 <= k < |s| ==> s[k] != c by {
        forall k | 0 <= k < |s| ensures s[k] != c {
          assert !OccursAt(s, [c], k);
          assert s[k..k + 1] == [s[k]];
        }
      }
      [s]
    case Some(i) =>
      var head := s[..i];
      assert c !in head by {
        forall k | 0 <= k < i ensures s[k] != c {
          assert !OccursAt(s, [c], k);
          assert s[k..k + 1] == [s[k]];
        }
      }
      [head] + Split(s[i + 1..], c)
  }

  /** Joining the pieces with the separator gives the text back. */
  lemma {:induction false} SplitJoin(s: string, c: char)
    ensures Join([c], Split(s, c)) == s
    decreases |s|
  {
    FindChar(s, c);
    match FindFrom(s, [c], 0)
    case None =>
    case Some(i) =>
      SplitAt(s, c, i);
      SplitJoin(s[i + 1..], c);
      assert s == s[..i] + [c] + s[i + 1..];
  }

  /** Looking for one character finds its first occurrence, or nothing
      when it does not occur. */
  lemma FindChar(s: string, c: char)
    ensures FindFrom(s, [c], 0).Some? ==>
      var i := FindFrom(s, [c], 0).value;
      i < |s| && s[i] == c && forall k :: 0 <= k < i ==> s[k] != c
    ensures FindFrom(s, [c], 0).None? ==> forall k :: 0 <= k < |s| ==> s[k] != c
  {
    match FindFrom(s, [c], 0)
    case None =>
      forall k | 0 <= k < |s| ensures s[k] != c {
        assert !OccursAt(s, [c], k);
        assert s[k..k + 1] == [s[k]];
      }
    case Some(i) =>
      assert s[i..i + 1] == [c];
      forall k | 0 <= k < i ensures s[k] != c {
        assert !OccursAt(s, [c], k);
        assert s[k..k + 1] == [s[k]];
      }
  }

  /** The first occurrence of a character is where looking for it stops. */
  lemma FindCharFirst(s: string, c: char, i: nat)
    requires i < |s| && s[i] == c
    requires forall k :: 0 <= k < i ==> s[k] != c
    ensures FindFrom(s, [c], 0) == Some(i)
  {
    assert OccursAt(s, [c], i) by { assert s[i..i + 1] == [c]; }
    FindChar(s, c);
  }

  /** Splitting at a separator between two pieces splits each piece on its own. */
  lemma SplitAppend(a: string, c: char, b: string)
    ensures Split(a + [c] + b, c) == Split(a, c) + Split(b, c)
  {
    var s := a + [c] + b;
    SplitAtSep(s, c, |a|);
    assert s[..|a|] == a && s[|a| + 1..] == b;
  }

  /** Any separator of `s` divides its pieces into those before it and those
      after it. */
  lemma {:induction false} SplitAtSep(s: string, c: char, j: nat)
    requires j < |s| && s[j] == c
    ensures Split(s, c) == Split(s[..j], c) + Split(s[j + 1..], c)
    decreases |s|, 2
  {
    FindChar(s, c);
    assert FindFrom(s, [c], 0).Some?;
    var i := FindFrom(s, [c], 0).value;
    if i == j {
      SplitAt(s, c, j);
      SplitWhole(s[..j], c);
    } else {
      SplitAtLaterSep(s, c, i, j);
    }
  }

  /** The inductive step: the first separator `i` comes before `j`. */
  lemma {:induction false} SplitAtLaterSep(s: string, c: char, i: nat, j: nat)
    requires i < j < |s| && s[i] == c && s[j] == c
    requires forall k :: 0 <= k < i ==> s[k] != c
    ensures Split(s, c) == Split(s[..j], c) + Split(s[j + 1..], c)
    decreases |s|, 1
  {
    SplitAt(s, c, i);
    SplitPrefixAt(s, c, i, j);
    SplitSuffixAt(s, c, i, j);
    ConsAssoc(s[..i], Split(s[i + 1..j], c), Split(s[j + 1..], c));
  }

  /** The text after the first separator splits at `j` as well. */
  lemma {:induction false} SplitSuffixAt(s: string, c: char, i: nat, j: nat)
    requires i < j < |s| && s[j] == c
    ensures Split(s[i + 1..], c) == Split(s[i + 1..j], c) + Split(s[j + 1..], c)
    decreases |s|, 0
  {
    var t := s[i + 1..];
    SplitAtSep(t, c, j - i - 1);
    assert t[..j - i - 1] == s[i + 1..j] && t[j - i..] == s[j + 1..];
  }

  lemma ConsAssoc<T>(x: T, p: seq<T>, q: seq<T>)
    ensures [x] + (p + q) == ([x] + p) + q
  {
  }

  /** A prefix that reaches past the first separator splits there too. */
  lemma SplitPrefixAt(s: string, c: char, i: nat, j: nat)
    requires i < j <= |s| && s[i] == c
    requires forall k :: 0 <= k < i ==> s[k] != c
    ensures Split(s[..j], c) == [s[..i]] + Split(s[i + 1..j], c)
  {
    var u := s[..j];
    SplitAt(u, c, i);
    assert u[..i] == s[..i] && u[i + 1..] == s[i + 1..j];
  }

  /** The first separator ends the first piece. */
  lemma SplitAt(s: string, c: char, i: nat)
    requires i < |s| && s[i] == c
    requires forall k :: 0 <= k < i ==> s[k] != c
    ensures Split(s, c) == [s[..i]] + Split(s[i + 1..], c)
  {
    FindCharFirst(s, c, i);
  }

  /** Without a separator the text is its own single piece. */
  lemma SplitWhole(s: string, c: char)
    requires forall k :: 0 <= k < |s| ==> s[k] != c
    ensures Split(s, c) == [s]
  {
    FindChar(s, c);
  }

  /** `os.path.basename`: the text after the last `/`. */
  function Basename(p: string): (r: string)
    ensures |r| <= |p| && r == p[|p| - |r|..]
    ensures '/' !in r
    ensures |r| < |p| ==> p[|p| - |r| - 1] == '/'
    ensures '/' !in p ==> r == p
  {
    match LastIndexOf(p, '/')
    case None => assert p[0..] == p; p
    case Some(i) => p[i + 1..]
  }
}
