/** The string operations of Python's `str` that the bot uses: whitespace, `strip`,
    `split()`, `split(sep)`, `join`, `lower`, `title`, `endswith`, `in` and `replace`. */
module Text {

  /** The characters `str.isspace` accepts (and so `split()` and `strip()` remove). */
  predicate IsSpace(c: char) {
    || c == ' ' || '\t' <= c <= '\r' || '\U{1C}' <= c <= '\U{1F}'
    || c == '\U{85}' || c == '\U{A0}' || c == '\U{1680}' || '\U{2000}' <= c <= '\U{200A}'
    || c == '\U{2028}' || c == '\U{2029}' || c == '\U{202F}' || c == '\U{205F}' || c == '\U{3000}'
  }

  predicate AllSpace(s: string) {
    forall i :: 0 <= i < |s| ==> IsSpace(s[i])
  }

  predicate NoSpace(s: string) {
    forall i :: 0 <= i < |s| ==> !IsSpace(s[i])
  }

  /** `s.lstrip()` */
  function LStrip(s: string): (r: string)
    ensures |r| <= |s| && r == s[|s| - |r|..]
    ensures AllSpace(s[..|s| - |r|])
    ensures r == [] || !IsSpace(r[0])
  {
    if s == [] || !IsSpace(s[0]) then s
    else
      var r := LStrip(s[1..]);
      assert s[..|s| - |r|] == [s[0]] + s[1..][..|s[1..]| - |r|];
      r
  }

  /** `s.rstrip()` */
  function RStrip(s: string): (r: string)
    ensures |r| <= |s| && r == s[..|r|]
    ensures AllSpace(s[|r|..])
    ensures r == [] || !IsSpace(r[|r| - 1])
  {
    if s == [] || !IsSpace(s[|s| - 1]) then s
    else
      var r := RStrip(s[..|s| - 1]);
      assert s[|r|..] == s[..|s| - 1][|r|..] + [s[|s| - 1]];
      r
  }

  /** `s.strip()`: the infix of `s` left when whitespace is removed at both ends. */
  function Strip(s: string): (r: string)
    ensures |r| <= |s|
    ensures r == [] || (!IsSpace(r[0]) && !IsSpace(r[|r| - 1]))
  {
    RStrip(LStrip(s))
  }

  /** The index of the first whitespace character of `t`, or `|t|` if there is none. */
  function FirstSpace(t: string): (i: nat)
    ensures i <= |t| && NoSpace(t[..i])
    ensures i < |t| ==> IsSpace(t[i])
  {
    if t == [] || IsSpace(t[0]) then 0
    else
      var i := 1 + FirstSpace(t[1..]);
      assert t[..i] == [t[0]] + t[1..][..i - 1];
      i
  }

  /** The first whitespace after a word is where the word ends. */
  lemma {:induction false} FirstSpaceAfterWord(w: string, rest: string)
    requires NoSpace(w) && (rest == [] || IsSpace(rest[0]))
    ensures FirstSpace(w + rest) == |w|
  {
    if w != [] {
      assert (w + rest)[0] == w[0];
      assert (w + rest)[1..] == w[1..] + rest;
      FirstSpaceAfterWord(w[1..], rest);
    } else {
      assert w + rest == rest;
    }
  }

  /** `s.split()`: the maximal runs of non-whitespace characters, in order. */
  function SplitWhitespace(s: string): (words: seq<string>)
    ensures forall k :: 0 <= k < |words| ==> words[k] != [] && NoSpace(words[k])
    ensures s != [] && !IsSpace(s[0]) ==> words != []
    decreases |s|
  {
    var t := LStrip(s);
    if t == [] then []
    else
      var i := FirstSpace(t);
      assert i > 0;
      var rest := SplitWhitespace(t[i..]);
      WordsCons(t[..i], rest);
      [t[..i]] + rest
  }

  /** A word put before a list of words gives a list of words. */
  lemma WordsCons(w: string, rest: seq<string>)
    requires w != [] && NoSpace(w)
    requires forall k :: 0 <= k < |rest| ==> rest[k] != [] && NoSpace(rest[k])
    ensures forall k :: 0 <= k < |[w] + rest| ==> ([w] + rest)[k] != [] && NoSpace(([w] + rest)[k])
  {
    forall k | 0 < k < |[w] + rest|
      ensures ([w] + rest)[k] == rest[k - 1]
    {
    }
  }

  /** A single word splits into itself. */
  lemma SplitWhitespaceWord(w: string)
    requires w != [] && NoSpace(w)
    ensures SplitWhitespace(w) == [w]
  {
    assert !IsSpace(w[0]);
    assert LStrip(w) == w;
    FirstSpaceAfterWord(w, []);
    assert w + [] == w;
    assert w[|w|..] == [];
  }

  /** A word followed by a space and more text splits into the word and the words of the
      text. */
  lemma SplitWhitespaceCons(w: string, a: string)
    requires w != [] && NoSpace(w)
    ensures SplitWhitespace(w + " " + a) == [w] + SplitWhitespace(a)
  {
    var m := w + " " + a;
    assert m[0] == w[0] && !IsSpace(w[0]);
    assert LStrip(m) == m;
    assert m == w + (" " + a);
    FirstSpaceAfterWord(w, " " + a);
    assert m[..|w|] == w;
    var u := m[|w|..];
    assert u == " " + a && u[1..] == a;
    assert LStrip(u) == LStrip(a);
  }

  /** The index of the first `c` in `s`, or `|s|`. */
  function IndexOf(s: string, c: char): (i: nat)
    ensures i <= |s| && c !in s[..i]
    ensures i < |s| ==> s[i] == c
  {
    if s == [] || s[0] == c then 0
    else
      var i := 1 + IndexOf(s[1..], c);
      assert s[..i] == [s[0]] + s[1..][..i - 1];
      i
  }

  /** `s.split(sep)` for a one-character separator: never empty, pieces hold no `sep`. */
  function SplitOn(s: string, sep: char): (pieces: seq<string>)
    ensures |pieces| >= 1
    ensures forall k :: 0 <= k < |pieces| ==> sep !in pieces[k]
    decreases |s|
  {
    var i := IndexOf(s, sep);
    if i == |s| then [s] else [s[..i]] + SplitOn(s[i + 1..], sep)
  }

  /** `sep.join(parts)` */
  function Join(sep: string, parts: seq<string>): string {
    if parts == [] then []
    else if |parts| == 1 then parts[0]
    else parts[0] + sep + Join(sep, parts[1..])
  }

  lemma JoinCons(sep: string, x: string, tail: seq<string>)
    requires tail != []
    ensures Join(sep, [x] + tail) == x + sep + Join(sep, tail)
  {
    assert ([x] + tail)[1..] == tail;
  }

  /** The number of occurrences of `c` in `s`. */
  function Count(s: string, c: char): nat {
    if s == [] then 0 else (if s[0] == c then 1 else 0) + Count(s[1..], c)
  }

  lemma {:induction false} CountSplit(a: string, b: string, c: char)
    ensures Count(a + b, c) == Count(a, c) + Count(b, c)
  {
    if a != [] {
      assert (a + b)[1..] == a[1..] + b;
      CountSplit(a[1..], b, c);
    } else {
      assert a + b == b;
    }
  }

  lemma {:induction false} CountAbsent(s: string, c: char)
    requires c !in s
    ensures Count(s, c) == 0
  {
    if s != [] {
      assert c !in s[1..];
      CountAbsent(s[1..], c);
    }
  }

  /** Splitting on a separator and joining with it again gives back the string. */
  lemma {:induction false} JoinSplitOn(s: string, sep: char)
    ensures Join([sep], SplitOn(s, sep)) == s
    decreases |s|
  {
    var i := IndexOf(s, sep);
    if i < |s| {
      var rest := s[i + 1..];
      var tail := SplitOn(rest, sep);
      assert SplitOn(s, sep) == [s[..i]] + tail;
      JoinSplitOn(rest, sep);
      JoinCons([sep], s[..i], tail);
      assert s == s[..i] + [sep] + rest;
    }
  }

  /** Splitting on a separator gives one piece more than there are separators. */
  lemma {:induction false} SplitOnCount(s: string, sep: char)
    ensures |SplitOn(s, sep)| == Count(s, sep) + 1
    decreases |s|
  {
    var i := IndexOf(s, sep);
    if i == |s| {
      assert s[..i] == s;
      CountAbsent(s, sep);
    } else {
      var rest := s[i + 1..];
      SplitOnCount(rest, sep);
      assert s == s[..i] + ([sep] + rest);
      CountSplit(s[..i], [sep] + rest, sep);
      CountSplit([sep], rest, sep);
      CountAbsent(s[..i], sep);
      assert Count([sep], sep) == 1 by {
        assert [sep][1..] == [];
      }
    }
  }

  /** `c.lower()` for the ASCII letters. */
  function Lower(c: char): char {
    if 'A' <= c <= 'Z' then (c as int + 32) as char else c
  }

  /** `c.upper()` for the ASCII letters. */
  function Upper(c: char): char {
    if 'a' <= c <= 'z' then (c as int - 32) as char else c
  }

  predicate IsLetter(c: char) {
    'A' <= c <= 'Z' || 'a' <= c <= 'z'
  }

  /** `s.lower()` */
  function LowerStr(s: string): string {
    seq(|s|, i requires 0 <= i < |s| => Lower(s[i]))
  }

  /** Lower-casing a lower-cased string changes nothing. */
  lemma LowerStrIdempotent(s: string)
    ensures LowerStr(LowerStr(s)) == LowerStr(s)
  {
    forall i | 0 <= i < |s| ensures Lower(Lower(s[i])) == Lower(s[i]) {
    }
  }

  /** `s.title()`: a letter is upper-cased when the character before it is not a letter
      and lower-cased otherwise. */
  function Title(s: string): string {
    seq(|s|, i requires 0 <= i < |s| => if i == 0 || !IsLetter(s[i - 1]) then Upper(s[i]) else Lower(s[i]))
  }

  /** `s.endswith(suffix)` */
  predicate EndsWith(s: string, suffix: string) {
    |suffix| <= |s| && s[|s| - |suffix|..] == suffix
  }

  /** `r` ends `s`, and the character of `s` right before it is whitespace. */
  predicate SpaceBefore(s: string, r: string) {
    EndsWith(s, r) && |r| < |s| && IsSpace(s[|s| - |r| - 1])
  }

  /** Whitespace right before `r` in `t` is whitespace right before it in any `s` that `t`
      ends. */
  lemma SpaceBeforeInSuffix(s: string, t: string, r: string)
    requires EndsWith(s, t) && SpaceBefore(t, r)
    ensures SpaceBefore(s, r)
  {
    SuffixOfSuffix(s, t, |t| - |r|);
    CharOfSuffix(s, t, |t| - |r| - 1);
  }

  /** Dropping a prefix leaves a suffix. */
  lemma DropIsSuffix(s: string, i: nat)
    requires i <= |s|
    ensures EndsWith(s, s[i..])
  {
  }

  /** `s.lstrip()` is a suffix of `s` behind a run of whitespace. */
  lemma StrippedIsSuffix(s: string)
    ensures EndsWith(s, LStrip(s)) && AllSpace(s[..|s| - |LStrip(s)|])
  {
  }

  /** A string that `lstrip()` empties is all whitespace. */
  lemma StripEmptyIsBlank(s: string)
    requires LStrip(s) == []
    ensures AllSpace(s)
  {
    assert s[..|s| - |LStrip(s)|] == s;
  }

  /** The first `i` characters of a string are a prefix of it. */
  lemma TakeIsPrefix(s: string, i: nat)
    requires i <= |s|
    ensures s[..i] <= s
  {
  }

  /** A suffix of a suffix is a suffix. */
  lemma SuffixOfSuffix(s: string, t: string, i: nat)
    requires EndsWith(s, t) && i <= |t|
    ensures EndsWith(s, t[i..])
  {
    assert t[i..] == s[|s| - |t| + i..];
  }

  /** A character of a suffix is the matching character of the string. */
  lemma CharOfSuffix(s: string, t: string, k: nat)
    requires EndsWith(s, t) && k < |t|
    ensures t[k] == s[|s| - |t| + k]
  {
    assert s[|s| - |t|..][k] == s[|s| - |t| + k];
  }

  /** `sub in s` */
  predicate Contains(s: string, sub: string)
    decreases |s|
  {
    sub <= s || (s != [] && Contains(s[1..], sub))
  }

  /** `s.replace(pattern, replacement)` for a non-empty `pattern`: occurrences are replaced left to right
      without overlapping. */
  function ReplaceAll(s: string, pattern: string, replacement: string): string
    requires pattern != []
    decreases |s|
  {
    if s == [] then []
    else if pattern <= s then replacement + ReplaceAll(s[|pattern|..], pattern, replacement)
    else [s[0]] + ReplaceAll(s[1..], pattern, replacement)
  }
}
