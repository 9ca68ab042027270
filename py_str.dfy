/** The Python `str` operations the card parser uses: `split(sep)`,
    `sep.join(parts)`, `rstrip(chars)`, `strip(chars)`, `replace(c, "")` and
    `split()` with no argument. */
module PyStr {
  import opened Results

  /** Every character of `s` belongs to `chars`. */
  predicate AllIn(s: string, chars: set<char>) {
    forall k :: 0 <= k < |s| ==> s[k] in chars
  }

  /** `sep` occurs in `s` starting at index `i`. */
  predicate OccursAt(s: string, sep: string, i: nat) {
    i + |sep| <= |s| && s[i..i + |sep|] == sep
  }

  /** Python's `sep in s`. */
  predicate Contains(s: string, sep: string) {
    exists i: nat | i <= |s| :: OccursAt(s, sep, i)
  }

  /** For a one-character separator, `Contains` is plain membership. */
  lemma ContainsChar(s: string, c: char)
    ensures Contains(s, [c]) <==> c in s
  {
    if c in s {
      var k :| 0 <= k < |s| && s[k] == c;
      assert OccursAt(s, [c], k);
    }
    if Contains(s, [c]) {
      var i: nat :| i <= |s| && OccursAt(s, [c], i);
      assert s[i..i + 1] == [c];
      assert s[i] == s[i..i + 1][0];
    }
  }

  /** An occurrence inside a prefix of `s` is an occurrence in `s`. */
  lemma OccursInPrefix(s: string, sep: string, n: nat, i: nat)
    requires n <= |s| && OccursAt(s[..n], sep, i)
    ensures i + |sep| <= n && OccursAt(s, sep, i)
  {
    assert s[..n][i..i + |sep|] == s[i..i + |sep|];
  }

  /** `s.find(sep, start)`: the first index at or after `start` where `sep` occurs. */
  function FindFrom(s: string, sep: string, start: nat): (r: Option<nat>)
    decreases |s| - start
    ensures r.Some? ==> start <= r.value && OccursAt(s, sep, r.value)
    ensures forall j: nat :: start <= j && (r.None? || j < r.value) ==> !OccursAt(s, sep, j)
  {
    if start + |sep| > |s| then None
    else if OccursAt(s, sep, start) then Some(start)
    else FindFrom(s, sep, start + 1)
  }

  /** `sep.join(parts)`. */
  function Join(sep: string, parts: seq<string>): string {
    if |parts| == 0 then ""
    else if |parts| == 1 then parts[0]
    else parts[0] + sep + Join(sep, parts[1..])
  }

  /** `sep.join(parts)` starts with the first part and ends with the last. */
  lemma {:induction false} JoinEnds(sep: string, parts: seq<string>)
    requires |parts| > 0
    ensures parts[0] <= Join(sep, parts)
    ensures var r, last := Join(sep, parts), parts[|parts| - 1];
      |last| <= |r| && r[|r| - |last|..] == last
  {
    if |parts| > 1 {
      var tail := parts[1..];
      JoinEnds(sep, tail);
      assert tail[|tail| - 1] == parts[|parts| - 1];
    }
  }

  /** `s.split(sep)` for a non-empty separator: the pieces between the
      non-overlapping occurrences of `sep`, found from left to right. */
  function Split(s: string, sep: string): (parts: seq<string>)
    requires sep != []
    decreases |s|
    ensures |parts| >= 1
    ensures forall k :: 0 <= k < |parts| ==> !Contains(parts[k], sep)
    ensures Join(sep, parts) == s
  {
    match FindFrom(s, sep, 0)
    case None => [s]
    case Some(i) =>
      var rest := Split(s[i + |sep|..], sep);
      assert !Contains(s[..i], sep) by {
        forall j: nat | OccursAt(s[..i], sep, j) ensures false {
          OccursInPrefix(s, sep, i, j);
        }
      }
      assert s == s[..i] + sep + s[i + |sep|..] by {
        assert s[i..i + |sep|] == sep;
        assert s == s[..i] + s[i..i + |sep|] + s[i + |sep|..];
      }
      [s[..i]] + rest
  }

  /** A text without the separator splits into itself alone. */
  lemma SplitNoSeparator(s: string, sep: string)
    requires sep != [] && !Contains(s, sep)
    ensures Split(s, sep) == [s]
  {
    var r := FindFrom(s, sep, 0);
  }

  /** When no occurrence of `sep` starts before the end of `a`, splitting
      `a + sep + b` cuts exactly at `a`. */
  lemma SplitAtFirst(a: string, sep: string, b: string)
    requires sep != []
    requires !Contains(a + sep[..|sep| - 1], sep)
    ensures Split(a + sep + b, sep) == [a] + Split(b, sep)
  {
    var s := a + sep + b;
    var t := a + sep[..|sep| - 1];
    assert s[|a|..|a| + |sep|] == sep;
    assert OccursAt(s, sep, |a|);
    assert t == s[..|a| + |sep| - 1];
    forall j: nat | j < |a| ensures !OccursAt(s, sep, j) {
      assert j + |sep| <= |t| ==> t[j..j + |sep|] == s[j..j + |sep|];
      assert !OccursAt(t, sep, j);
    }
    var r := FindFrom(s, sep, 0);
    assert r == Some(|a|);
    assert s[..|a|] == a;
    assert s[|a| + |sep|..] == b;
  }

  /** For a two-character separator whose characters differ, appending its
      first character to a text without it cannot create an occurrence. */
  lemma NoStraddle(a: string, sep: string)
    requires |sep| == 2 && sep[0] != sep[1] && !Contains(a, sep)
    ensures !Contains(a + sep[..1], sep)
  {
    var t := a + sep[..1];
    forall i: nat | i <= |t| ensures !OccursAt(t, sep, i) {
      assert !OccursAt(a, sep, i);
      if i + 2 <= |a| {
        assert a[i..i + 2] == t[i..i + 2];
      } else if i + 2 == |t| {
        assert t[i + 1] == sep[0];
        assert t[i..i + 2][1] == t[i + 1];
      }
    }
  }

  /** `s.rstrip(chars)`: drops trailing characters that belong to the set. */
  function RStrip(s: string, chars: set<char>): (r: string)
    decreases |s|
    ensures |r| <= |s|
    ensures r == s[..|r|]
    ensures AllIn(s[|r|..], chars)
    ensures r == [] || r[|r| - 1] !in chars
  {
    if s != [] && s[|s| - 1] in chars then RStrip(s[..|s| - 1], chars) else s
  }

  /** `s.lstrip(chars)`: drops leading characters that belong to the set. */
  function LStrip(s: string, chars: set<char>): (r: string)
    decreases |s|
    ensures |r| <= |s|
    ensures r == s[|s| - |r|..]
    ensures AllIn(s[..|s| - |r|], chars)
    ensures r == [] || r[0] !in chars
  {
    if s != [] && s[0] in chars then LStrip(s[1..], chars) else s
  }

  /** `s.strip(chars)`: drops characters of the set from both ends. */
  function Strip(s: string, chars: set<char>): (r: string)
    ensures |r| <= |s|
    ensures r != [] ==> r[0] !in chars && r[|r| - 1] !in chars
  {
    LStrip(RStrip(s, chars), chars)
  }

  /** `rstrip` removes exactly a trailing run of set characters that sits
      after a character outside the set. */
  lemma {:induction false} RStripExact(a: string, b: string, chars: set<char>)
    requires AllIn(b, chars)
    requires a == [] || a[|a| - 1] !in chars
    ensures RStrip(a + b, chars) == a
    decreases |b|
  {
    if b == [] {
      assert a + b == a;
    } else {
      assert (a + b)[..|a + b| - 1] == a + b[..|b| - 1];
      RStripExact(a, b[..|b| - 1], chars);
    }
  }

  /** `lstrip` removes exactly a leading run of set characters that sits
      before a character outside the set. */
  lemma {:induction false} LStripExact(a: string, b: string, chars: set<char>)
    requires AllIn(a, chars)
    requires b == [] || b[0] !in chars
    ensures LStrip(a + b, chars) == b
    decreases |a|
  {
    if a == [] {
      assert a + b == b;
    } else {
      assert (a + b)[1..] == a[1..] + b;
      LStripExact(a[1..], b, chars);
    }
  }

  /** `strip` gives back the core of `pre + core + post` whenever both ends
      are made of set characters and the core starts and ends outside it. */
  lemma StripExact(pre: string, core: string, post: string, chars: set<char>)
    requires AllIn(pre, chars) && AllIn(post, chars)
    requires core != [] && core[0] !in chars && core[|core| - 1] !in chars
    ensures Strip(pre + core + post, chars) == core
  {
    var pc := pre + core;
    assert pc[|pc| - 1] == core[|core| - 1];
    RStripExact(pc, post, chars);
    LStripExact(pre, core, chars);
  }

  /** Whatever `strip` returns sits between two runs of set characters. */
  lemma StripSlice(s: string, chars: set<char>)
    ensures var r := Strip(s, chars);
      exists i, j :: 0 <= i <= j <= |s| && r == s[i..j] && AllIn(s[..i], chars) && AllIn(s[j..], chars)
  {
    var rs := RStrip(s, chars);
    var r := LStrip(rs, chars);
    assert r == Strip(s, chars);
    var i, j := |rs| - |r|, |rs|;
    assert s[..i] == rs[..i] && AllIn(s[..i], chars);
    assert AllIn(s[j..], chars);
    assert r == s[i..j];
  }

  /** `s.replace(c, "")`: every occurrence of the character `c` deleted. */
  function Delete(s: string, c: char): (r: string)
    ensures c !in r
  {
    if s == [] then [] else (if s[0] == c then [] else [s[0]]) + Delete(s[1..], c)
  }

  /** Deleting `c` keeps every other character with its multiplicity. */
  lemma {:induction false} DeleteKeepsOthers(s: string, c: char)
    ensures multiset(Delete(s, c)) == multiset(s)[c := 0]
  {
    if s != [] {
      DeleteKeepsOthers(s[1..], c);
      assert s == [s[0]] + s[1..];
    }
  }

  /** Deleting a character commutes with concatenation, so the characters
      that remain keep their order. */
  lemma {:induction false} DeleteConcat(a: string, b: string, c: char)
    ensures Delete(a + b, c) == Delete(a, c) + Delete(b, c)
  {
    if a != [] {
      assert (a + b)[1..] == a[1..] + b;
      DeleteConcat(a[1..], b, c);
    } else {
      assert a + b == b;
    }
  }

  /** Deleting a character that does not occur changes nothing. */
  lemma {:induction false} DeleteAbsent(s: string, c: char)
    requires c !in s
    ensures Delete(s, c) == s
  {
    if s != [] {
      DeleteAbsent(s[1..], c);
    }
  }

  /** Python's `str.isspace()` for one character: the characters `split()`
      with no argument treats as separators. */
  predicate IsSpace(c: char) {
    || '\t' <= c <= '\r'
    || '\U{1C}' <= c <= ' '
    || c == '\U{85}' || c == '\U{A0}' || c == '\U{1680}'
    || '\U{2000}' <= c <= '\U{200A}'
    || c == '\U{2028}' || c == '\U{2029}' || c == '\U{202F}' || c == '\U{205F}' || c == '\U{3000}'
  }

  predicate NoSpace(s: string) {
    forall k :: 0 <= k < |s| ==> !IsSpace(s[k])
  }

  predicate OnlySpace(s: string) {
    forall k :: 0 <= k < |s| ==> IsSpace(s[k])
  }

  /** The text after its leading whitespace. */
  function SkipSpace(s: string): (r: string)
    decreases |s|
    ensures |r| <= |s|
    ensures r == s[|s| - |r|..]
    ensures OnlySpace(s[..|s| - |r|])
    ensures r == [] || !IsSpace(r[0])
  {
    if s != [] && IsSpace(s[0]) then SkipSpace(s[1..]) else s
  }

  /** The longest prefix without whitespace. */
  function Word(s: string): (r: string)
    decreases |s|
    ensures |r| <= |s|
    ensures r == s[..|r|]
    ensures NoSpace(r)
    ensures |r| < |s| ==> IsSpace(s[|r|])
    ensures s != [] && !IsSpace(s[0]) ==> r != []
  {
    if s != [] && !IsSpace(s[0]) then [s[0]] + Word(s[1..]) else []
  }

  /** `s.split()`: the maximal runs of non-whitespace characters, in order. */
  function SplitWhitespace(s: string): (words: seq<string>)
    decreases |s|
    ensures forall k :: 0 <= k < |words| ==> words[k] != [] && NoSpace(words[k])
    ensures words == [] ==> OnlySpace(s)
  {
    var t := SkipSpace(s);
    if t == [] then
      assert s[..|s|] == s;
      []
    else
      var w := Word(t);
      assert t[0] == s[|s| - |t|] && !IsSpace(t[0]);
      assert w != [];
      var rest := SplitWhitespace(t[|w|..]);
      assert forall k :: 0 < k <= |rest| ==> ([w] + rest)[k] == rest[k - 1];
      [w] + rest
  }

  /** Conversely, text that is all whitespace splits into no words. */
  lemma OnlySpaceNoWords(s: string)
    requires OnlySpace(s)
    ensures SplitWhitespace(s) == []
  {
  }

  /** The first word of `split()` is the first run of non-whitespace
      characters: `(ws + w + rest).split()[0] == w`. */
  lemma FirstWord(ws: string, w: string, rest: string)
    requires OnlySpace(ws)
    requires w != [] && NoSpace(w)
    requires rest == [] || IsSpace(rest[0])
    ensures var words := SplitWhitespace(ws + w + rest); words != [] && words[0] == w
  {
    var s := ws + w + rest;
    assert s == ws + (w + rest);
    SkipSpaceExact(ws, w + rest);
    WordExact(w, rest);
    assert SplitWhitespace(s) == [w] + SplitWhitespace((w + rest)[|w|..]);
  }

  lemma {:induction false} SkipSpaceExact(ws: string, t: string)
    requires OnlySpace(ws)
    requires t == [] || !IsSpace(t[0])
    ensures SkipSpace(ws + t) == t
    decreases |ws|
  {
    if ws == [] {
      assert ws + t == t;
    } else {
      assert (ws + t)[1..] == ws[1..] + t;
      SkipSpaceExact(ws[1..], t);
    }
  }

  lemma {:induction false} WordExact(w: string, rest: string)
    requires NoSpace(w)
    requires rest == [] || IsSpace(rest[0])
    ensures Word(w + rest) == w
    decreases |w|
  {
    if w == [] {
      assert w + rest == rest;
    } else {
      assert (w + rest)[1..] == w[1..] + rest;
      WordExact(w[1..], rest);
    }
  }
}
