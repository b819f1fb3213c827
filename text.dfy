/** The handful of Python `str` operations the importers rely on: `split` on one
    character, `join`, `strip` and a one-character `replace`. */
module Text {

  /** The characters Python's `str.isspace` accepts (and `str.strip` removes). */
  predicate IsSpace(c: char) {
    || c == ' ' || c == '\t' || c == '\n' || c == '\r'
    || c == '\U{000B}' || c == '\U{000C}'
    || ('\U{001C}' <= c <= '\U{001F}')
    || c == '\U{0085}' || c == '\U{00A0}' || c == '\U{1680}'
    || ('\U{2000}' <= c <= '\U{200A}')
    || c == '\U{2028}' || c == '\U{2029}' || c == '\U{202F}' || c == '\U{205F}' || c == '\U{3000}'
  }

  predicate AllSpace(s: string) {
    forall k :: 0 <= k < |s| ==> IsSpace(s[k])
  }

  /** Neither end of `s` is whitespace. */
  predicate NoEdgeSpace(s: string) {
    s == [] || (!IsSpace(s[0]) && !IsSpace(s[|s| - 1]))
  }

  /** `s.lstrip()`. */
  function StripStart(s: string): string
    decreases |s|
  {
    if s != [] && IsSpace(s[0]) then StripStart(s[1..]) else s
  }

  /** `s.rstrip()`. */
  function StripEnd(s: string): string
    decreases |s|
  {
    if s != [] && IsSpace(s[|s| - 1]) then StripEnd(s[..|s| - 1]) else s
  }

  /** What `lstrip` removes is a whitespace prefix, and what is left does not start with whitespace. */
  lemma {:induction false} StripStartSpec(s: string)
    ensures var r := StripStart(s);
      && |r| <= |s| && r == s[|s| - |r|..]
      && AllSpace(s[..|s| - |r|])
      && (r == [] || !IsSpace(r[0]))
    decreases |s|
  {
    if s != [] && IsSpace(s[0]) {
      StripStartSpec(s[1..]);
      var r := StripStart(s);
      assert s[1..][|s| - 1 - |r|..] == s[|s| - |r|..];
      assert s[..|s| - |r|] == [s[0]] + s[1..][..|s| - 1 - |r|];
    }
  }

  /** What `rstrip` removes is a whitespace suffix, and what is left does not end with whitespace. */
  lemma {:induction false} StripEndSpec(s: string)
    ensures var r := StripEnd(s);
      && |r| <= |s| && r == s[..|r|]
      && AllSpace(s[|r|..])
      && (r == [] || !IsSpace(r[|r| - 1]))
    decreases |s|
  {
    if s != [] && IsSpace(s[|s| - 1]) {
      StripEndSpec(s[..|s| - 1]);
      var r := StripEnd(s);
      assert s[..|s| - 1][..|r|] == s[..|r|];
      assert s[|r|..] == s[..|s| - 1][|r|..] + [s[|s| - 1]];
    }
  }

  /** `s.strip()`: neither end of the result is whitespace. */
  function Strip(s: string): (r: string)
    ensures NoEdgeSpace(r)
  {
    var t := StripStart(s);
    StripStartSpec(s);
    var r := StripEnd(t);
    StripEndSpec(t);
    assert r != [] ==> r[0] == t[0];
    r
  }

  /** What `Strip` removes: `s` is a whitespace run, the result, and another whitespace run. */
  lemma StripDecomposition(s: string)
    ensures |StripStart(s)| <= |s|
    ensures var r := Strip(s);
      var i := |s| - |StripStart(s)|;
      i + |r| <= |s| && s[i..i + |r|] == r && AllSpace(s[..i]) && AllSpace(s[i + |r|..])
  {
    var t := StripStart(s);
    StripStartSpec(s);
    var r := StripEnd(t);
    StripEndSpec(t);
    assert r == Strip(s);
    var i := |s| - |t|;
    assert t == s[i..];
    assert s[i..i + |r|] == r by { assert s[i..i + |r|] == s[i..][..|r|]; }
    assert s[i + |r|..] == t[|r|..];
  }

  lemma {:induction false} StripStartOfSpacePrefix(a: string, t: string)
    requires AllSpace(a)
    requires t == [] || !IsSpace(t[0])
    ensures StripStart(a + t) == t
    decreases |a|
  {
    if a != [] {
      assert (a + t)[1..] == a[1..] + t;
      StripStartOfSpacePrefix(a[1..], t);
    }
  }

  lemma {:induction false} StripEndOfSpaceSuffix(t: string, b: string)
    requires AllSpace(b)
    requires t == [] || !IsSpace(t[|t| - 1])
    ensures StripEnd(t + b) == t
    decreases |b|
  {
    if b != [] {
      assert (t + b)[..|t + b| - 1] == t + b[..|b| - 1];
      StripEndOfSpaceSuffix(t, b[..|b| - 1]);
    }
  }

  /** The decomposition promised by `Strip` is unique: whatever whitespace surrounds
      an edge-trimmed string, `Strip` gives that string back. */
  lemma StripCharacterization(a: string, m: string, b: string)
    requires AllSpace(a) && AllSpace(b) && NoEdgeSpace(m)
    ensures Strip(a + m + b) == m
  {
    if m == [] {
      assert a + m + b == (a + b) + [];
      StripStartOfSpacePrefix(a + b, []);
      StripEndOfSpaceSuffix([], []);
    } else {
      assert a + m + b == a + (m + b);
      StripStartOfSpacePrefix(a, m + b);
      StripEndOfSpaceSuffix(m, b);
    }
  }

  /** Stripping twice is stripping once. */
  lemma StripIdempotent(s: string)
    ensures Strip(Strip(s)) == Strip(s)
  {
    var r := Strip(s);
    assert [] + r + [] == r;
    StripCharacterization([], r, []);
  }

  /** Two whitespace runs make one. */
  lemma AllSpaceConcat(a: string, b: string)
    requires AllSpace(a) && AllSpace(b)
    ensures AllSpace(a + b)
  {
    forall k | 0 <= k < |a + b| ensures IsSpace((a + b)[k]) {
      if k >= |a| {
        assert (a + b)[k] == b[k - |a|];
      }
    }
  }

  /** Surrounding whitespace is invisible to `Strip`. */
  lemma StripIgnoresPadding(before: string, s: string, after: string)
    requires AllSpace(before) && AllSpace(after)
    ensures Strip(before + s + after) == Strip(s)
  {
    StripDecomposition(s);
    var i := |s| - |StripStart(s)|;
    var m := Strip(s);
    var a, b := s[..i], s[i + |m|..];
    assert s == a + m + b;
    AllSpaceConcat(before, a);
    AllSpaceConcat(b, after);
    assert before + s + after == (before + a) + m + (b + after);
    StripCharacterization(before + a, m, b + after);
  }

  /** `m` is what is left of `s` once a whitespace run is cut from each end, and neither
      end of `m` is whitespace. */
  predicate TrimmedFrom(m: string, s: string) {
    && NoEdgeSpace(m)
    && exists i :: 0 <= i <= |s| - |m| && s[i..i + |m|] == m && AllSpace(s[..i]) && AllSpace(s[i + |m|..])
  }

  /** `Strip` is exactly the trimming: its result is trimmed from `s`, and nothing else is. */
  lemma StripMeaning(s: string, m: string)
    ensures Strip(s) == m <==> TrimmedFrom(m, s)
  {
    if Strip(s) == m {
      StripTrims(s);
    }
    if TrimmedFrom(m, s) {
      TrimmedIsStrip(s, m);
    }
  }

  /** One direction of `StripMeaning`: the result of `Strip` is trimmed from its argument. */
  lemma StripTrims(s: string)
    ensures TrimmedFrom(Strip(s), s)
  {
    StripDecomposition(s);
    var r := Strip(s);
    var i := |s| - |StripStart(s)|;
    assert 0 <= i <= |s| - |r| && s[i..i + |r|] == r && AllSpace(s[..i]) && AllSpace(s[i + |r|..]);
  }

  /** The other direction: a trimming of `s` is what `Strip` returns. */
  lemma TrimmedIsStrip(s: string, m: string)
    requires TrimmedFrom(m, s)
    ensures Strip(s) == m
  {
    var i :| 0 <= i <= |s| - |m| && s[i..i + |m|] == m && AllSpace(s[..i]) && AllSpace(s[i + |m|..]);
    assert s == s[..i] + m + s[i + |m|..];
    StripCharacterization(s[..i], m, s[i + |m|..]);
  }

  predicate StartsWith(s: string, prefix: string) {
    |prefix| <= |s| && s[..|prefix|] == prefix
  }

  predicate EndsWith(s: string, suffix: string) {
    |suffix| <= |s| && s[|s| - |suffix|..] == suffix
  }

  /** `s.split(sep)`: the pieces between occurrences of `sep`; there is always at least one. */
  function Split(s: string, sep: char): (parts: seq<string>)
    ensures |parts| >= 1
    ensures forall k :: 0 <= k < |parts| ==> sep !in parts[k]
    decreases |s|
  {
    if s == [] then [""]
    else
      var rest := Split(s[1..], sep);
      if s[0] == sep then [""] + rest
      else [[s[0]] + rest[0]] + rest[1..]
  }

  /** `sep.join(parts)`. */
  function Join(sep: string, parts: seq<string>): string
    decreases |parts|
  {
    if parts == [] then ""
    else if |parts| == 1 then parts[0]
    else parts[0] + sep + Join(sep, parts[1..])
  }

  /** A join holds a character only if the separator or one of the pieces does. */
  lemma {:induction false} JoinAvoids(sep: string, parts: seq<string>, c: char)
    requires c !in sep
    requires forall k :: 0 <= k < |parts| ==> c !in parts[k]
    ensures c !in Join(sep, parts)
    decreases |parts|
  {
    if |parts| > 1 {
      assert forall k :: 0 <= k < |parts| - 1 ==> parts[1..][k] == parts[k + 1];
      JoinAvoids(sep, parts[1..], c);
    }
  }

  /** `s.replace(from, to)` for single characters. */
  function ReplaceChar(s: string, from: char, to: char): (r: string)
    ensures |r| == |s|
    ensures forall k :: 0 <= k < |s| ==> r[k] == if s[k] == from then to else s[k]
    decreases |s|
  {
    if s == [] then [] else [if s[0] == from then to else s[0]] + ReplaceChar(s[1..], from, to)
  }

  /** Joining the pieces of a split with the separator gives back the original. */
  lemma {:induction false} JoinSplit(s: string, sep: char)
    ensures Join([sep], Split(s, sep)) == s
    decreases |s|
  {
    if s != [] {
      var rest := Split(s[1..], sep);
      JoinSplit(s[1..], sep);
      if s[0] == sep {
        assert Join([sep], [""] + rest) == "" + [sep] + Join([sep], rest);
      } else if |rest| == 1 {
        assert Split(s, sep) == [[s[0]] + rest[0]];
      } else {
        var parts := Split(s, sep);
        assert parts[1..] == rest[1..];
        assert Join([sep], parts) == [s[0]] + rest[0] + [sep] + Join([sep], rest[1..]);
        assert Join([sep], rest) == rest[0] + [sep] + Join([sep], rest[1..]);
      }
    }
  }

  /** A string without the separator is a single piece. */
  lemma {:induction false} SplitWithoutSeparator(s: string, sep: char)
    requires sep !in s
    ensures Split(s, sep) == [s]
    decreases |s|
  {
    if s != [] {
      SplitWithoutSeparator(s[1..], sep);
      assert [s[0]] + s[1..] == s;
    }
  }

  /** A string holding the separator splits into two pieces or more. */
  lemma {:induction false} SplitWithSeparator(s: string, sep: char)
    requires sep in s
    ensures |Split(s, sep)| >= 2
    decreases |s|
  {
    if s[0] != sep {
      assert sep in s[1..] by {
        var k :| 0 <= k < |s| && s[k] == sep;
        assert s[1..][k - 1] == sep;
      }
      SplitWithSeparator(s[1..], sep);
    }
  }

  /** Every character of every piece comes from the split string. */
  lemma {:induction false} SplitPieceChars(s: string, sep: char)
    ensures forall k, c :: 0 <= k < |Split(s, sep)| && c in Split(s, sep)[k] ==> c in s
    decreases |s|
  {
    if s != [] {
      SplitPieceChars(s[1..], sep);
      var rest := Split(s[1..], sep);
      var parts := Split(s, sep);
      forall k, c | 0 <= k < |parts| && c in parts[k] ensures c in s {
        assert forall c' :: c' in s[1..] ==> c' in s;
        if s[0] != sep && k == 0 {
          assert c == s[0] || c in rest[0];
        } else if s[0] != sep {
          assert parts[k] == rest[k];
        } else if k > 0 {
          assert parts[k] == rest[k - 1];
        }
      }
    }
  }

  /** The last piece is the suffix of `s` after the last separator (all of `s` if there is none). */
  lemma {:induction false} SplitLast(s: string, sep: char)
    ensures var p := Split(s, sep); var last := p[|p| - 1];
      && |last| <= |s| && last == s[|s| - |last|..]
      && (|last| < |s| ==> s[|s| - |last| - 1] == sep)
      && (|p| >= 2 ==> |last| < |s|)
    decreases |s|
  {
    if s != [] {
      var rest := Split(s[1..], sep);
      var p := Split(s, sep);
      SplitLast(s[1..], sep);
      if s[0] == sep {
        assert p[|p| - 1] == rest[|rest| - 1];
      } else if |rest| == 1 {
        JoinSplit(s[1..], sep);
        assert p[|p| - 1] == [s[0]] + s[1..] == s;
      } else {
        assert p[|p| - 1] == rest[|rest| - 1];
      }
    }
  }

  /** Joining with one character and then replacing it by another is joining with the other,
      provided no piece holds the first character. */
  lemma {:induction false} ReplaceJoin(parts: seq<string>, from: char, to: char)
    requires forall k :: 0 <= k < |parts| ==> from !in parts[k]
    ensures ReplaceChar(Join([from], parts), from, to) == Join([to], parts)
    decreases |parts|
  {
    if |parts| == 1 {
      ReplaceAbsent(parts[0], from, to);
    } else if |parts| > 1 {
      ReplaceJoin(parts[1..], from, to);
      ReplaceAbsent(parts[0], from, to);
      var l := Join([from], parts);
      var r := parts[0] + [to] + Join([to], parts[1..]);
      var rl := ReplaceChar(l, from, to);
      assert |rl| == |r|;
      forall k | 0 <= k < |r| ensures rl[k] == r[k] {
        if k < |parts[0]| {
          assert l[k] == parts[0][k];
        } else if k == |parts[0]| {
          assert l[k] == from;
        } else {
          assert l[k] == Join([from], parts[1..])[k - |parts[0]| - 1];
        }
      }
    }
  }

  lemma ReplaceAbsent(s: string, from: char, to: char)
    requires from !in s
    ensures ReplaceChar(s, from, to) == s
  {
    assert forall k :: 0 <= k < |s| ==> s[k] != from;
  }

  /** Joining all pieces but the last, then appending the separator and the last piece,
      is joining them all. */
  lemma {:induction false} JoinSnoc(sep: string, parts: seq<string>)
    requires |parts| >= 2
    ensures Join(sep, parts[..|parts| - 1]) + sep + parts[|parts| - 1] == Join(sep, parts)
    decreases |parts|
  {
    if |parts| > 2 {
      JoinSnoc(sep, parts[1..]);
      assert parts[1..][..|parts| - 2] == parts[..|parts| - 1][1..];
    }
  }
}
