/**
 The few Python `str` operations the text pipeline relies on, with their
 CPython semantics: `isspace`/`strip`, `rfind`, `replace`, `sep.join`,
 `split(sep)` and `lower` (restricted to what the audio-format check needs),
 and the POSIX `os.path.join` of two parts.
 */
module PyStr {

  /** `c.isspace()`: the characters CPython's `str.strip()` removes. */
  predicate IsSpace(c: char) {
    || ('\t' <= c <= '\r')
    || ('\U{1C}' <= c <= ' ')
    || c == '\U{85}' || c == '\U{A0}' || c == '\U{1680}'
    || ('\U{2000}' <= c <= '\U{200A}')
    || c == '\U{2028}' || c == '\U{2029}' || c == '\U{202F}'
    || c == '\U{205F}' || c == '\U{3000}'
  }

  predicate AllSpace(s: string) {
    forall k :: 0 <= k < |s| ==> IsSpace(s[k])
  }

  /** Index of the first non-whitespace character (or `|s|`). */
  function StripStart(s: string): (i: nat)
    ensures i <= |s|
    ensures AllSpace(s[..i])
    ensures i < |s| ==> !IsSpace(s[i])
  {
    if |s| == 0 || !IsSpace(s[0]) then 0
    else
      var i := 1 + StripStart(s[1..]);
      assert forall k :: 1 <= k < i ==> s[k] == s[1..][k - 1];
      i
  }

  /** One past the last non-whitespace character at or after `lo` (or `lo`). */
  function StripEnd(s: string, lo: nat): (j: nat)
    requires lo <= |s|
    ensures lo <= j <= |s|
    ensures AllSpace(s[j..])
    ensures lo < j ==> !IsSpace(s[j - 1])
    decreases |s|
  {
    if |s| == lo || !IsSpace(s[|s| - 1]) then |s|
    else
      var j := StripEnd(s[..|s| - 1], lo);
      assert forall k :: j <= k < |s| - 1 ==> s[k] == s[..|s| - 1][k];
      j
  }

  /** `s.strip()`: drops leading and trailing whitespace and nothing else. */
  function Strip(s: string): (r: string)
    ensures |r| == 0 || (!IsSpace(r[0]) && !IsSpace(r[|r| - 1]))
    ensures StripStart(s) + |r| <= |s|
    ensures AllSpace(s[..StripStart(s)])
    ensures s[StripStart(s)..StripStart(s) + |r|] == r
    ensures AllSpace(s[StripStart(s) + |r|..])
  {
    var i := StripStart(s);
    var j := StripEnd(s, i);
    assert i < j ==> i < |s|;
    s[i..j]
  }

  /** Stripping is idempotent, and text without surrounding blanks is kept. */
  lemma StripKeepsTrimmed(s: string)
    requires |s| == 0 || (!IsSpace(s[0]) && !IsSpace(s[|s| - 1]))
    ensures Strip(s) == s
  {
    var i := StripStart(s);
    assert i == 0;
  }

  /**
   `s.rfind(c, lo, hi)`: the largest index in `[lo, hi)` holding `c`,
   or -1 when there is none.
   */
  function RFind(s: string, c: char, lo: nat, hi: nat): (r: int)
    requires lo <= hi <= |s|
    ensures -1 <= r < hi
    ensures r == -1 <==> (forall k :: lo <= k < hi ==> s[k] != c)
    ensures r != -1 ==> lo <= r && s[r] == c && (forall k :: r < k < hi ==> s[k] != c)
    decreases hi - lo
  {
    if hi == lo then -1
    else if s[hi - 1] == c then hi - 1
    else RFind(s, c, lo, hi - 1)
  }

  /** `p` occurs in `s` at index `k`. */
  predicate OccursAt(s: string, p: string, k: nat) {
    k + |p| <= |s| && s[k..k + |p|] == p
  }

  /**
   `s.replace(pat, by)`: every non-overlapping occurrence of `pat`, found
   left to right, is replaced by `by`.
   */
  function ReplaceAll(s: string, pat: string, repl: string): string
    requires |pat| > 0
    decreases |s|
  {
    if |s| < |pat| then s
    else if s[..|pat|] == pat then repl + ReplaceAll(s[|pat|..], pat, repl)
    else [s[0]] + ReplaceAll(s[1..], pat, repl)
  }

  /**
   A character that the replacement does not contain is absent from the
   result if it was absent from the text, or if it is the whole pattern.
   */
  lemma {:induction false} ReplaceAllKeepsOut(s: string, pat: string, repl: string, ch: char)
    requires |pat| > 0 && ch !in repl
    requires ch !in s || pat == [ch]
    ensures ch !in ReplaceAll(s, pat, repl)
    decreases |s|
  {
    if |s| >= |pat| {
      if s[..|pat|] == pat {
        ReplaceAllKeepsOut(s[|pat|..], pat, repl, ch);
      } else {
        assert s[0] != ch by {
          if pat == [ch] {
            assert s[..1] == [s[0]];
          } else {
            assert s[0] in s;
          }
        }
        assert ch !in s ==> ch !in s[1..];
        ReplaceAllKeepsOut(s[1..], pat, repl, ch);
      }
    }
  }

  /** A pattern whose last character is missing from the text never occurs in it. */
  lemma AbsentWhenLastMissing(s: string, pat: string)
    requires |pat| > 0 && pat[|pat| - 1] !in s
    ensures forall k :: 0 <= k <= |s| - |pat| ==> !OccursAt(s, pat, k)
  {
    forall k | 0 <= k <= |s| - |pat|
      ensures !OccursAt(s, pat, k)
    {
      assert s[k..k + |pat|][|pat| - 1] == s[k + |pat| - 1];
    }
  }

  /** Text in which `pat` never occurs comes back from `replace` unchanged. */
  lemma {:induction false} ReplaceAllAbsent(s: string, pat: string, repl: string)
    requires |pat| > 0
    requires forall k :: 0 <= k <= |s| - |pat| ==> !OccursAt(s, pat, k)
    ensures ReplaceAll(s, pat, repl) == s
    decreases |s|
  {
    if |s| >= |pat| {
      assert !OccursAt(s, pat, 0);
      forall k | 0 <= k <= |s[1..]| - |pat|
        ensures !OccursAt(s[1..], pat, k)
      {
        assert !OccursAt(s, pat, k + 1);
        assert s[1..][k..k + |pat|] == s[k + 1..k + 1 + |pat|];
      }
      ReplaceAllAbsent(s[1..], pat, repl);
      assert [s[0]] + s[1..] == s;
    }
  }

  /** The first character of a replacement's result, when there is one. */
  lemma ReplaceAllHead(s: string, pat: string, repl: string)
    requires |pat| > 0 && |repl| > 0 && |s| > 0
    ensures |ReplaceAll(s, pat, repl)| > 0
    ensures ReplaceAll(s, pat, repl)[0] == if OccursAt(s, pat, 0) then repl[0] else s[0]
  {
  }

  /** No character `x` is directly followed by a character `y`. */
  predicate NoPair(s: string, x: char, y: char) {
    forall k :: 0 <= k < |s| - 1 ==> !(s[k] == x && s[k + 1] == y)
  }

  /**
   Replacing the two-character pattern `[x, y]` itself, or replacing any
   pattern in a text that has no `x` followed by `y`, leaves no `x` followed
   by `y`, provided the replacement cannot create one at its edges.
   */
  lemma {:induction false} ReplaceAllNoPair(s: string, pat: string, repl: string, x: char, y: char)
    requires |pat| > 0 && |repl| > 0
    requires NoPair(repl, x, y) && repl[0] != y && repl[|repl| - 1] != x
    requires NoPair(s, x, y) || pat == [x, y]
    ensures NoPair(ReplaceAll(s, pat, repl), x, y)
    decreases |s|
  {
    var r := ReplaceAll(s, pat, repl);
    if |s| < |pat| {
    } else if s[..|pat|] == pat {
      var rest := s[|pat|..];
      assert NoPair(s, x, y) ==> NoPair(rest, x, y) by {
        if NoPair(s, x, y) {
          forall k | 0 <= k < |rest| - 1
            ensures !(rest[k] == x && rest[k + 1] == y)
          {
            assert rest[k] == s[k + |pat|] && rest[k + 1] == s[k + 1 + |pat|];
          }
        }
      }
      ReplaceAllNoPair(rest, pat, repl, x, y);
      var t := ReplaceAll(rest, pat, repl);
      assert r == repl + t;
      forall k | 0 <= k < |r| - 1
        ensures !(r[k] == x && r[k + 1] == y)
      {
        if k + 1 < |repl| {
          assert r[k] == repl[k] && r[k + 1] == repl[k + 1];
        } else if k + 1 == |repl| {
          assert r[k] == repl[|repl| - 1];
        } else {
          assert r[k] == t[k - |repl|] && r[k + 1] == t[k + 1 - |repl|];
        }
      }
    } else {
      var rest := s[1..];
      assert NoPair(s, x, y) ==> NoPair(rest, x, y) by {
        if NoPair(s, x, y) {
          forall k | 0 <= k < |rest| - 1
            ensures !(rest[k] == x && rest[k + 1] == y)
          {
            assert rest[k] == s[k + 1] && rest[k + 1] == s[k + 2];
          }
        }
      }
      ReplaceAllNoPair(rest, pat, repl, x, y);
      var t := ReplaceAll(rest, pat, repl);
      assert r == [s[0]] + t;
      if |rest| > 0 {
        ReplaceAllHead(rest, pat, repl);
      }
      forall k | 0 <= k < |r| - 1
        ensures !(r[k] == x && r[k + 1] == y)
      {
        if k > 0 {
          assert r[k] == t[k - 1] && r[k + 1] == t[k];
        }
      }
    }
  }

  /** `"".join(parts)`. */
  function Concat(parts: seq<string>): (r: string)
    ensures |parts| == 0 ==> r == ""
  {
    if |parts| == 0 then "" else parts[0] + Concat(parts[1..])
  }

  /** `sep.join(parts)`. */
  function Join(parts: seq<string>, sep: string): (r: string)
    ensures |parts| == 0 ==> r == ""
    ensures |parts| == 1 ==> r == parts[0]
  {
    if |parts| == 0 then ""
    else if |parts| == 1 then parts[0]
    else parts[0] + sep + Join(parts[1..], sep)
  }

  /** `s.split(d)` for a one-character separator: always at least one field. */
  function SplitOn(s: string, d: char): (fields: seq<string>)
    ensures |fields| >= 1
    ensures forall i :: 0 <= i < |fields| ==> d !in fields[i]
  {
    if |s| == 0 then [""]
    else
      var rest := SplitOn(s[1..], d);
      if s[0] == d then [""] + rest
      else [[s[0]] + rest[0]] + rest[1..]
  }

  /** A text without the separator is a single field. */
  lemma {:induction false} SplitOnNoSeparator(s: string, d: char)
    requires d !in s
    ensures SplitOn(s, d) == [s]
  {
    if |s| > 0 {
      SplitOnNoSeparator(s[1..], d);
      assert [s[0]] + s[1..] == s;
    }
  }

  /** Splitting at the first separator. */
  lemma {:induction false} SplitOnFirst(a: string, d: char, b: string)
    requires d !in a
    ensures SplitOn(a + [d] + b, d) == [a] + SplitOn(b, d)
    decreases |a|
  {
    if |a| == 0 {
      assert a + [d] + b == [d] + b;
      assert ([d] + b)[1..] == b;
    } else {
      var s := a + [d] + b;
      assert s[0] == a[0];
      assert s[1..] == a[1..] + [d] + b;
      SplitOnFirst(a[1..], d, b);
      assert [a[0]] + a[1..] == a;
    }
  }

  /**
   Round trip of `d.join`: when no part contains the separator, splitting
   the joined text gives the parts back (a single empty part and no part at
   all both join to "").
   */
  lemma {:induction false} SplitJoinRoundTrip(parts: seq<string>, d: char)
    requires |parts| >= 1
    requires forall i :: 0 <= i < |parts| ==> d !in parts[i]
    ensures SplitOn(Join(parts, [d]), d) == parts
    decreases |parts|
  {
    if |parts| == 1 {
      SplitOnNoSeparator(parts[0], d);
    } else {
      SplitJoinRoundTrip(parts[1..], d);
      SplitOnFirst(parts[0], d, Join(parts[1..], [d]));
      assert [parts[0]] + parts[1..] == parts;
    }
  }

  /** ASCII lower-casing of one character. */
  function LowerChar(c: char): char {
    if 'A' <= c <= 'Z' then (c as int + 32) as char else c
  }

  /** `s.lower()` on ASCII letters; every other character is kept. */
  function Lower(s: string): (r: string)
    ensures |r| == |s|
    ensures forall i :: 0 <= i < |s| ==> r[i] == LowerChar(s[i])
  {
    if |s| == 0 then "" else [LowerChar(s[0])] + Lower(s[1..])
  }

  /**
   `os.path.join(a, b)` on POSIX: an absolute `b` replaces `a`; otherwise `b`
   follows `a`, with a '/' added between them only when `a` is non-empty and
   does not already end in one.
   */
  function PathJoin(a: string, b: string): (r: string)
    ensures |b| > 0 && b[0] == '/' ==> r == b
    ensures (|b| == 0 || b[0] != '/') && |a| > 0 && a[|a| - 1] != '/' ==> r == a + "/" + b
    ensures (|b| == 0 || b[0] != '/') && (|a| == 0 || a[|a| - 1] == '/') ==> r == a + b
    ensures (|b| == 0 || b[0] != '/') ==> a <= r && |b| <= |r| && r[|r| - |b|..] == b
  {
    if |b| > 0 && b[0] == '/' then b
    else if |a| == 0 || a[|a| - 1] == '/' then a + b
    else a + "/" + b
  }
}
