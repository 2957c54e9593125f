/** String helpers standing in for the Python `str` methods the core uses:
    `lower`, `strip`, `split`, `in`, `startswith`, `replace` and `str(int)`.
    Case mapping and whitespace are over a fixed character set (see README). */
module Text {

  // ---------------------------------------------------------------------------
  // Prefixes and substrings

  predicate StartsWith(s: string, prefix: string) {
    |prefix| <= |s| && s[..|prefix|] == prefix
  }

  /** `sub in s` */
  predicate Contains(s: string, sub: string)
    decreases |s|
  {
    StartsWith(s, sub) || (s != [] && Contains(s[1..], sub))
  }

  /** `sub` occurs in `s` starting at index `i`. */
  predicate OccursAt(s: string, sub: string, i: nat) {
    i + |sub| <= |s| && s[i..i + |sub|] == sub
  }

  /** A substring found at some position is reported by `Contains`, and only then. */
  lemma {:induction false} ContainsAt(s: string, sub: string)
    ensures Contains(s, sub) <==> exists i: nat :: OccursAt(s, sub, i)
    decreases |s|
  {
    if StartsWith(s, sub) {
      assert OccursAt(s, sub, 0);
    } else if s == [] {
    } else {
      ContainsAt(s[1..], sub);
      if exists i: nat :: OccursAt(s, sub, i) {
        var i: nat :| OccursAt(s, sub, i);
        assert i != 0;
        assert s[1..][i - 1..i - 1 + |sub|] == s[i..i + |sub|];
        assert OccursAt(s[1..], sub, i - 1);
      }
      if Contains(s[1..], sub) {
        var i: nat :| OccursAt(s[1..], sub, i);
        assert s[i + 1..i + 1 + |sub|] == s[1..][i..i + |sub|];
        assert OccursAt(s, sub, i + 1);
      }
    }
  }

  /** A string lacking one of the characters of `sub` does not contain `sub`. */
  lemma MissingCharNotContained(s: string, sub: string, c: char)
    requires c in sub && c !in s
    ensures !Contains(s, sub)
  {
    ContainsAt(s, sub);
  }

  /** `s.replace(pattern, replacement)`: every non-overlapping occurrence of `pattern`,
      scanning left to right, is replaced. */
  function ReplaceAll(s: string, pattern: string, replacement: string): string
    requires pattern != ""
    decreases |s|
  {
    if |s| < |pattern| then s
    else if s[..|pattern|] == pattern then replacement + ReplaceAll(s[|pattern|..], pattern, replacement)
    else [s[0]] + ReplaceAll(s[1..], pattern, replacement)
  }

  /** Replacing a pattern that does not occur changes nothing. */
  lemma {:induction false} ReplaceAbsent(s: string, pattern: string, replacement: string)
    requires pattern != ""
    requires !Contains(s, pattern)
    ensures ReplaceAll(s, pattern, replacement) == s
    decreases |s|
  {
    if |s| >= |pattern| {
      ReplaceAbsent(s[1..], pattern, replacement);
      assert [s[0]] + s[1..] == s;
    }
  }

  /** A string that starts with the pattern starts with its replacement afterwards. */
  lemma ReplaceAtFront(rest: string, pattern: string, replacement: string)
    requires pattern != ""
    ensures ReplaceAll(pattern + rest, pattern, replacement) == replacement + ReplaceAll(rest, pattern, replacement)
  {
    var s := pattern + rest;
    assert s[..|pattern|] == pattern;
    assert s[|pattern|..] == rest;
  }

  /** An occurrence after a prefix is an occurrence in the text that follows it. */
  lemma OccursShift(c: string, t: string, pattern: string, i: nat)
    ensures OccursAt(c + t, pattern, |c| + i) <==> OccursAt(t, pattern, i)
  {
    if i + |pattern| <= |t| {
      assert (c + t)[|c| + i..|c| + i + |pattern|] == t[i..i + |pattern|];
    }
  }

  /** Splits a text around the leftmost occurrence of a pattern it contains. */
  lemma {:induction false} LeftmostOccurrence(t: string, pattern: string) returns (a: string, b: string)
    requires Contains(t, pattern)
    ensures t == a + pattern + b
    ensures forall i :: 0 <= i < |a| ==> !OccursAt(a + pattern, pattern, i)
    decreases |t|
  {
    if StartsWith(t, pattern) {
      a, b := [], t[|pattern|..];
      assert t == t[..|pattern|] + t[|pattern|..];
    } else {
      var a', b' := LeftmostOccurrence(t[1..], pattern);
      a, b := [t[0]] + a', b';
      assert t == [t[0]] + t[1..];
      assert a + pattern == [t[0]] + (a' + pattern);
      forall i | 0 <= i < |a| ensures !OccursAt(a + pattern, pattern, i) {
        if i == 0 {
          assert t[..|pattern|] == (a + pattern)[..|pattern|];
        } else {
          OccursShift([t[0]], a' + pattern, pattern, i - 1);
        }
      }
    }
  }

  /** Replacing in a text whose leftmost occurrence of the pattern follows `a`:
      `a` is kept, that occurrence is replaced and the rest is processed. */
  lemma {:induction false} ReplaceLeftmost(a: string, b: string, pattern: string, replacement: string)
    requires pattern != ""
    requires forall i :: 0 <= i < |a| ==> !OccursAt(a + pattern, pattern, i)
    ensures ReplaceAll(a + pattern + b, pattern, replacement) == a + replacement + ReplaceAll(b, pattern, replacement)
    decreases |a|
  {
    if a == [] {
      assert a + pattern + b == pattern + b;
      ReplaceAtFront(b, pattern, replacement);
    } else {
      var s, a' := a + pattern + b, a[1..];
      calc {
        ReplaceAll(s, pattern, replacement);
        == { CopyFirst(s, a + pattern, pattern, replacement); }
        [a[0]] + ReplaceAll(s[1..], pattern, replacement);
        == { assert s[1..] == a' + pattern + b; }
        [a[0]] + ReplaceAll(a' + pattern + b, pattern, replacement);
        == { LeftmostTail(a, pattern); ReplaceLeftmost(a', b, pattern, replacement); }
        [a[0]] + (a' + replacement + ReplaceAll(b, pattern, replacement));
        == { assert a == [a[0]] + a'; }
        a + replacement + ReplaceAll(b, pattern, replacement);
      }
    }
  }

  /** Dropping the first character keeps the leftmost occurrence leftmost. */
  lemma LeftmostTail(a: string, pattern: string)
    requires a != []
    requires forall i :: 0 <= i < |a| ==> !OccursAt(a + pattern, pattern, i)
    ensures forall i :: 0 <= i < |a| - 1 ==> !OccursAt(a[1..] + pattern, pattern, i)
  {
    assert a + pattern == [a[0]] + (a[1..] + pattern);
    forall i | 0 <= i < |a| - 1 ensures !OccursAt(a[1..] + pattern, pattern, i) {
      OccursShift([a[0]], a[1..] + pattern, pattern, i);
    }
  }

  /** A text that does not start with the pattern keeps its first character. */
  lemma CopyFirst(s: string, u: string, pattern: string, replacement: string)
    requires pattern != "" && |pattern| <= |u| && u <= s && !OccursAt(u, pattern, 0)
    ensures ReplaceAll(s, pattern, replacement) == [s[0]] + ReplaceAll(s[1..], pattern, replacement)
  {
    assert s[..|pattern|] == u[..|pattern|];
  }

  /** After replacement no occurrence of the pattern is left, provided the
      pattern's first character does not recur in it and the replacement can
      neither hold an occurrence nor start one that the following text completes. */
  lemma {:induction false} ReplaceRemoves(s: string, pattern: string, replacement: string)
    requires pattern != ""
    requires forall k :: 1 <= k < |pattern| ==> pattern[k] != pattern[0]
    requires replacement != [] && replacement[0] == pattern[0]
    requires forall i :: 0 <= i < |replacement| ==>
               !StartsWith(replacement[i..], pattern) && !StartsWith(pattern, replacement[i..])
    ensures forall i: nat :: !OccursAt(ReplaceAll(s, pattern, replacement), pattern, i)
    decreases |s|
  {
    var r := ReplaceAll(s, pattern, replacement);
    if |s| < |pattern| {
    } else if s[..|pattern|] == pattern {
      var rest := ReplaceAll(s[|pattern|..], pattern, replacement);
      ReplaceRemoves(s[|pattern|..], pattern, replacement);
      assert r == replacement + rest;
      forall i: nat ensures !OccursAt(r, pattern, i) {
        if i >= |replacement| {
          OccursShift(replacement, rest, pattern, i - |replacement|);
        } else {
          RemovesInReplacement(replacement, rest, pattern, i);
        }
      }
    } else {
      var rest := ReplaceAll(s[1..], pattern, replacement);
      ReplaceRemoves(s[1..], pattern, replacement);
      assert r == [s[0]] + rest;
      forall i: nat ensures !OccursAt(r, pattern, i) {
        if i >= 1 {
          OccursShift([s[0]], rest, pattern, i - 1);
        } else {
          RemovesAfterCopy(s, pattern, replacement);
        }
      }
    }
  }

  /** The replaced case of `ReplaceRemoves`: no occurrence starts inside the replacement. */
  lemma RemovesInReplacement(replacement: string, rest: string, pattern: string, i: nat)
    requires i < |replacement|
    requires !StartsWith(replacement[i..], pattern) && !StartsWith(pattern, replacement[i..])
    ensures !OccursAt(replacement + rest, pattern, i)
  {
    var r := replacement + rest;
    if i + |pattern| <= |replacement| {
      assert r[i..i + |pattern|] == replacement[i..][..|pattern|];
    } else if i + |pattern| <= |r| {
      assert r[i..|replacement|] == replacement[i..];
      assert r[i..i + |pattern|][..|replacement| - i] == r[i..|replacement|];
    }
  }

  /** The copied case of `ReplaceRemoves`: when the text does not start with
      the pattern, neither does the result. */
  lemma RemovesAfterCopy(s: string, pattern: string, replacement: string)
    requires pattern != "" && |s| >= |pattern| && s[..|pattern|] != pattern
    requires forall k :: 1 <= k < |pattern| ==> pattern[k] != pattern[0]
    requires replacement != [] && replacement[0] == pattern[0]
    ensures !OccursAt([s[0]] + ReplaceAll(s[1..], pattern, replacement), pattern, 0)
  {
    if Contains(s[1..], pattern) {
      CopyBeforeOccurrence(s, pattern, replacement);
    } else {
      ReplaceAbsent(s[1..], pattern, replacement);
      assert [s[0]] + s[1..] == s;
    }
  }

  /** `RemovesAfterCopy` when the rest of the text holds an occurrence: the
      replacement of the leftmost one begins where the pattern would continue. */
  lemma CopyBeforeOccurrence(s: string, pattern: string, replacement: string)
    requires pattern != "" && |s| >= |pattern| && s[..|pattern|] != pattern
    requires Contains(s[1..], pattern)
    requires forall k :: 1 <= k < |pattern| ==> pattern[k] != pattern[0]
    requires replacement != [] && replacement[0] == pattern[0]
    ensures !OccursAt([s[0]] + ReplaceAll(s[1..], pattern, replacement), pattern, 0)
  {
    var a, b := LeftmostOccurrence(s[1..], pattern);
    ReplaceLeftmost(a, b, pattern, replacement);
    MismatchBeforeReplacement(s, a, b, replacement, ReplaceAll(b, pattern, replacement), pattern);
  }

  /** A text's first character, then `a`, then a replacement does not start
      with the pattern when the text, which continues `a` with the pattern
      itself, does not. */
  lemma MismatchBeforeReplacement(s: string, a: string, b: string, replacement: string, tail: string, pattern: string)
    requires s != [] && s[1..] == a + pattern + b && s[..|pattern|] != pattern
    requires forall k :: 1 <= k < |pattern| ==> pattern[k] != pattern[0]
    requires replacement != [] && replacement[0] == pattern[0]
    ensures !OccursAt([s[0]] + (a + replacement + tail), pattern, 0)
  {
    var p := [s[0]] + a;
    assert s == p + pattern + b by { assert s == [s[0]] + s[1..]; }
    var r := p + replacement + tail;
    assert [s[0]] + (a + replacement + tail) == r;
    if |pattern| <= |r| {
      if |p| < |pattern| {
        assert r[|p|] == replacement[0];
        assert r[..|pattern|][|p|] != pattern[|p|];
      } else {
        assert r[..|pattern|] == p[..|pattern|] == s[..|pattern|];
      }
    }
  }

  /** `s.index(c)`: the position of the first occurrence of `c`. */
  function IndexOf(s: string, c: char): (i: nat)
    requires c in s
    ensures i < |s| && s[i] == c && c !in s[..i]
  {
    if s[0] == c then 0
    else
      var i := IndexOf(s[1..], c);
      assert s[..i + 1] == [s[0]] + s[1..][..i];
      i + 1
  }

  /** A position holding `c` with no `c` before it is the one `IndexOf` finds. */
  lemma {:induction false} IndexOfUnique(s: string, c: char, m: nat)
    requires m < |s| && s[m] == c && c !in s[..m]
    ensures IndexOf(s, c) == m
    decreases m
  {
    if m > 0 {
      assert s[0] == s[..m][0];
      assert s[1..][..m - 1] == s[..m][1..];
      IndexOfUnique(s[1..], c, m - 1);
    }
  }

  // ---------------------------------------------------------------------------
  // Case mapping

  function LowerChar(c: char): (d: char)
    ensures 'A' <= c <= 'Z' ==> 'a' <= d <= 'z' && d as int - c as int == 32
    ensures !('A' <= c <= 'Z') ==> d == c
  {
    if 'A' <= c <= 'Z' then (c as int + 32) as char else c
  }

  /** `s.lower()` over ASCII letters. */
  function Lower(s: string): (r: string)
    ensures |r| == |s|
    ensures forall i :: 0 <= i < |s| ==> r[i] == LowerChar(s[i])
    ensures forall i :: 0 <= i < |r| ==> !('A' <= r[i] <= 'Z')
  {
    seq(|s|, i requires 0 <= i < |s| => LowerChar(s[i]))
  }

  /** Lower-casing works character by character, so it distributes over concatenation. */
  lemma LowerAppend(a: string, b: string)
    ensures Lower(a + b) == Lower(a) + Lower(b)
  {
  }

  /** Text without capitals is its own lower case. */
  lemma LowerFixed(s: string)
    requires forall k :: 0 <= k < |s| ==> !('A' <= s[k] <= 'Z')
    ensures Lower(s) == s
  {
  }

  lemma LowerIdempotent(s: string)
    ensures Lower(Lower(s)) == Lower(s)
  {
  }

  /** Lower-casing commutes with splitting on a separator that is not a letter:
      the pieces of the lower-cased text are the lower-cased pieces. */
  lemma {:induction false} SplitLower(s: string, sep: char)
    requires !('A' <= sep <= 'Z') && !('a' <= sep <= 'z')
    ensures |Split(Lower(s), sep)| == |Split(s, sep)|
    ensures forall k :: 0 <= k < |Split(s, sep)| ==> Split(Lower(s), sep)[k] == Lower(Split(s, sep)[k])
    decreases |s|
  {
    if s != [] {
      var t := Lower(s);
      assert t[0] == LowerChar(s[0]) && t[1..] == Lower(s[1..]);
      assert LowerChar(s[0]) == sep <==> s[0] == sep;
      SplitLower(s[1..], sep);
      var rest, lowered := Split(s[1..], sep), Split(t[1..], sep);
      if s[0] != sep {
        LowerAppend([s[0]], rest[0]);
        assert Lower([s[0]]) == [LowerChar(s[0])];
        var pieces, lpieces := Split(s, sep), Split(t, sep);
        assert pieces == [[s[0]] + rest[0]] + rest[1..];
        assert lpieces == [[LowerChar(s[0])] + lowered[0]] + lowered[1..];
        forall k | 0 <= k < |pieces| ensures lpieces[k] == Lower(pieces[k]) {
          if k > 0 {
            assert pieces[k] == rest[k] && lpieces[k] == lowered[k];
          }
        }
      } else {
        var pieces, lpieces := Split(s, sep), Split(t, sep);
        assert pieces == [""] + rest && lpieces == [""] + lowered;
        forall k | 0 <= k < |pieces| ensures lpieces[k] == Lower(pieces[k]) {
          if k > 0 {
            assert pieces[k] == rest[k - 1] && lpieces[k] == lowered[k - 1];
          }
        }
      }
    }
  }

  // ---------------------------------------------------------------------------
  // Whitespace stripping

  /** The characters Python's `str.isspace` accepts below U+0100. */
  predicate IsSpace(c: char) {
    c == ' ' || c == '\t' || c == '\n' || c == '\r' || c == '\U{B}' || c == '\U{C}'
    || c == '\U{1C}' || c == '\U{1D}' || c == '\U{1E}' || c == '\U{1F}'
    || c == '\U{85}' || c == '\U{A0}'
  }

  predicate AllSpace(s: string) {
    forall i :: 0 <= i < |s| ==> IsSpace(s[i])
  }

  /** Neither end of `s` is whitespace. */
  predicate Trimmed(s: string) {
    s == [] || (!IsSpace(s[0]) && !IsSpace(s[|s| - 1]))
  }

  /** Length of the whitespace run that `s` starts with. */
  function LeadingSpace(s: string): (k: nat)
    ensures k <= |s| && AllSpace(s[..k])
    ensures k < |s| ==> !IsSpace(s[k])
    decreases |s|
  {
    if s != [] && IsSpace(s[0]) then
      var k := LeadingSpace(s[1..]);
      assert s[..k + 1] == [s[0]] + s[1..][..k];
      k + 1
    else 0
  }

  /** Length of the whitespace run that `s` ends with. */
  function TrailingSpace(s: string): (k: nat)
    ensures k <= |s| && AllSpace(s[|s| - k..])
    ensures k < |s| ==> !IsSpace(s[|s| - k - 1])
    decreases |s|
  {
    if s != [] && IsSpace(s[|s| - 1]) then
      var t := s[..|s| - 1];
      var k := TrailingSpace(t);
      var tail, shorter := s[|s| - (k + 1)..], t[|t| - k..];
      assert AllSpace(tail) by {
        forall j | 0 <= j < k + 1 ensures IsSpace(tail[j]) {
          if j < k {
            assert tail[j] == shorter[j];
          }
        }
      }
      k + 1
    else 0
  }

  /** `s.strip()`: what is left of `s` once the whitespace runs at both ends
      are removed; the result has no whitespace at either end. */
  function Strip(s: string): (r: string)
    ensures Trimmed(r)
    ensures r == [] <==> AllSpace(s)
    ensures forall c :: c in r ==> c in s
    ensures exists i, j :: 0 <= i <= j <= |s| && r == s[i..j] && AllSpace(s[..i]) && AllSpace(s[j..])
  {
    var i := LeadingSpace(s);
    if i == |s| then
      assert s[..i] == s && s[i..i] == [] && s[i..] == [];
      []
    else
      var j := |s| - TrailingSpace(s);
      assert i < j;
      assert !AllSpace(s) by { assert !IsSpace(s[i]); }
      s[i..j]
  }

  /** `strip` keeps what lies between the two whitespace runs. */
  lemma StripBetween(s: string, i: nat, j: nat)
    requires i == LeadingSpace(s) < |s| && j == |s| - TrailingSpace(s)
    ensures Strip(s) == s[i..j]
  {
  }

  /** A string without whitespace is left as it is by `strip`. */
  lemma StripNoSpace(s: string)
    requires forall c :: c in s ==> !IsSpace(c)
    ensures Strip(s) == s
  {
    if s != [] {
      assert !IsSpace(s[0]) && !IsSpace(s[|s| - 1]);
      LeadingSpaceUnique(s, 0);
      assert TrailingSpace(s) == 0;
      StripBetween(s, 0, |s|);
      assert s[0..|s|] == s;
    }
  }

  /** The whitespace run at the front of `s` is the only prefix that is all
      whitespace and is followed by a non-space character or the end. */
  lemma {:induction false} LeadingSpaceUnique(s: string, k: nat)
    requires k <= |s| && AllSpace(s[..k])
    requires k < |s| ==> !IsSpace(s[k])
    ensures LeadingSpace(s) == k
    decreases k
  {
    if k > 0 {
      assert IsSpace(s[..k][0]);
      assert s[1..][..k - 1] == s[..k][1..];
      LeadingSpaceUnique(s[1..], k - 1);
    }
  }

  /** The whitespace run at the end of `s` is the only suffix that is all
      whitespace and is preceded by a non-space character or the start. */
  lemma {:induction false} TrailingSpaceUnique(s: string, k: nat)
    requires k <= |s| && AllSpace(s[|s| - k..])
    requires k < |s| ==> !IsSpace(s[|s| - k - 1])
    ensures TrailingSpace(s) == k
    decreases k
  {
    if k > 0 {
      var t := s[..|s| - 1];
      assert IsSpace(s[|s| - k..][k - 1]);
      assert t[|t| - (k - 1)..] == s[|s| - k..][..k - 1];
      if k - 1 < |t| {
        assert t[|t| - (k - 1) - 1] == s[|s| - k - 1];
      }
      TrailingSpaceUnique(t, k - 1);
    }
  }

  /** Stripping text padded with whitespace on both sides gives the text back,
      provided it has no whitespace at either end. */
  lemma StripPadded(pre: string, mid: string, post: string)
    requires AllSpace(pre) && AllSpace(post)
    requires mid != [] && Trimmed(mid)
    ensures Strip(pre + mid + post) == mid
  {
    var s := pre + mid + post;
    var i, j := |pre|, |pre| + |mid|;
    assert s[..i] == pre && s[i] == mid[0];
    LeadingSpaceUnique(s, i);
    assert s[|s| - |post|..] == post && s[j - 1] == mid[|mid| - 1];
    TrailingSpaceUnique(s, |post|);
    StripBetween(s, i, j);
    assert s[i..j] == mid;
  }

  /** Dropping a prefix of the first part of a concatenation. */
  lemma DropAppend(p: string, q: string, k: nat)
    requires k <= |p|
    ensures (p + q)[k..] == p[k..] + q
  {
  }

  /** A text that ends in a non-space character loses only its leading whitespace. */
  lemma StripFrom(s: string, i: nat)
    requires i == LeadingSpace(s) < |s| && !IsSpace(s[|s| - 1])
    ensures Strip(s) == s[i..]
  {
    assert TrailingSpace(s) == 0;
    StripBetween(s, i, |s|);
  }

  /** Text that starts with a non-space character adds nothing to the
      whitespace run in front of it. */
  lemma {:induction false} LeadingSpaceAppend(p: string, q: string)
    requires q != [] && !IsSpace(q[0])
    ensures LeadingSpace(p + q) == LeadingSpace(p)
    decreases |p|
  {
    if p == [] {
      assert p + q == q;
    } else {
      assert (p + q)[0] == p[0] && (p + q)[1..] == p[1..] + q;
      LeadingSpaceAppend(p[1..], q);
    }
  }

  /** Stripping a string that ends in a non-space text `q` removes only the
      leading whitespace of what comes before `q`. */
  lemma StripKeepsTail(p: string, q: string)
    requires q != [] && !IsSpace(q[0]) && !IsSpace(q[|q| - 1])
    ensures Strip(p + q) == p[LeadingSpace(p)..] + q
  {
    var s := p + q;
    LeadingSpaceAppend(p, q);
    assert s[|s| - 1] == q[|q| - 1];
    StripFrom(s, LeadingSpace(p));
    DropAppend(p, q, LeadingSpace(p));
  }

  /** Stripping a string that is already trimmed leaves it as it is. */
  lemma StripTrimmed(s: string)
    requires Trimmed(s)
    ensures Strip(s) == s
  {
    if s != [] {
      assert LeadingSpace(s) == 0;
      assert TrailingSpace(s) == 0;
    }
  }

  // ---------------------------------------------------------------------------
  // Splitting and joining on one separator character

  /** `s.split(sep)` for a one-character separator: always at least one piece. */
  function Split(s: string, sep: char): (pieces: seq<string>)
    ensures |pieces| >= 1
    ensures forall p :: p in pieces ==> sep !in p
    decreases |s|
  {
    if s == [] then [""]
    else
      var rest := Split(s[1..], sep);
      if s[0] == sep then [""] + rest
      else [[s[0]] + rest[0]] + rest[1..]
  }

  /** `sep.join(pieces)` */
  function Join(pieces: seq<string>, sep: char): string
    decreases |pieces|
  {
    if pieces == [] then ""
    else if |pieces| == 1 then pieces[0]
    else pieces[0] + [sep] + Join(pieces[1..], sep)
  }

  /** Joining the pieces of a split gives back the original string. */
  lemma {:induction false} JoinSplit(s: string, sep: char)
    ensures Join(Split(s, sep), sep) == s
    decreases |s|
  {
    if s != [] {
      var rest := Split(s[1..], sep);
      JoinSplit(s[1..], sep);
      JoinCons(s[0], rest, sep);
      assert [s[0]] + s[1..] == s;
    }
  }

  /** How a split's pieces change when one character is put in front. */
  lemma JoinCons(c: char, rest: seq<string>, sep: char)
    requires |rest| >= 1
    ensures c == sep ==> Join([""] + rest, sep) == [c] + Join(rest, sep)
    ensures c != sep ==> Join([[c] + rest[0]] + rest[1..], sep) == [c] + Join(rest, sep)
  {
    if c == sep {
      assert ([""] + rest)[1..] == rest;
    } else if |rest| > 1 {
      var p := [[c] + rest[0]] + rest[1..];
      assert p[1..] == rest[1..];
    }
  }

  /** Splitting a join of separator-free pieces gives back the pieces. */
  lemma {:induction false} SplitJoin(pieces: seq<string>, sep: char)
    requires |pieces| >= 1
    requires forall p :: p in pieces ==> sep !in p
    ensures Split(Join(pieces, sep), sep) == pieces
    decreases |pieces|
  {
    if |pieces| == 1 {
      SplitFree(pieces[0], sep);
    } else {
      SplitJoin(pieces[1..], sep);
      SplitPrefix(pieces[0], Join(pieces[1..], sep), sep);
      assert [pieces[0]] + pieces[1..] == pieces;
    }
  }

  /** A separator-free string splits into itself. */
  lemma {:induction false} SplitFree(s: string, sep: char)
    requires sep !in s
    ensures Split(s, sep) == [s]
    decreases |s|
  {
    if s != [] {
      SplitFree(s[1..], sep);
      assert [s[0]] + s[1..] == s;
    }
  }

  /** Splitting `p + sep + rest`, with `p` separator-free, yields `p` and then the pieces of `rest`. */
  lemma {:induction false} SplitPrefix(p: string, rest: string, sep: char)
    requires sep !in p
    ensures Split(p + [sep] + rest, sep) == [p] + Split(rest, sep)
    decreases |p|
  {
    var s := p + [sep] + rest;
    if p == [] {
      assert s[1..] == rest;
    } else {
      assert s[1..] == p[1..] + [sep] + rest;
      SplitPrefix(p[1..], rest, sep);
      assert [p[0]] + p[1..] == p;
    }
  }

  /** Splitting `p + sep + rest`, with `rest` separator-free, yields the pieces of `p` and then `rest`. */
  /** Splitting at one separator splits the text into the pieces of what lies
      before it followed by the pieces of what lies after it. */
  lemma {:induction false} SplitConcat(a: string, b: string, sep: char)
    ensures Split(a + [sep] + b, sep) == Split(a, sep) + Split(b, sep)
    decreases |a|
  {
    var s := a + [sep] + b;
    if a == [] {
      assert s == [sep] + b && s[1..] == b;
    } else {
      assert s[0] == a[0] && s[1..] == a[1..] + [sep] + b;
      SplitConcat(a[1..], b, sep);
    }
  }

  lemma {:induction false} SplitSuffix(p: string, rest: string, sep: char)
    requires sep !in rest
    ensures Split(p + [sep] + rest, sep) == Split(p, sep) + [rest]
    decreases |p|
  {
    var s := p + [sep] + rest;
    if p == [] {
      assert s == [sep] + rest && s[1..] == rest;
      SplitFree(rest, sep);
    } else {
      assert s[1..] == p[1..] + [sep] + rest;
      SplitSuffix(p[1..], rest, sep);
      var inner := Split(p[1..], sep);
      var later := Split(s[1..], sep);
      assert later == inner + [rest];
      if p[0] != sep {
        assert later[0] == inner[0];
        assert later[1..] == inner[1..] + [rest];
      }
    }
  }

  // ---------------------------------------------------------------------------
  // Decimal rendering of integers (`str(n)` / f-string interpolation)

  function DigitChar(d: nat): char
    requires d < 10
  {
    "0123456789"[d]
  }

  function DigitValue(c: char): int {
    c as int - '0' as int
  }

  function NatToString(n: nat): (r: string)
    ensures r != []
    ensures forall i :: 0 <= i < |r| ==> '0' <= r[i] <= '9'
    decreases n
  {
    if n < 10 then [DigitChar(n)] else NatToString(n / 10) + [DigitChar(n % 10)]
  }

  /** `str(n)` */
  function IntToString(n: int): string {
    if n < 0 then "-" + NatToString(-n) else NatToString(n)
  }

  /** Reads a string of decimal digits, most significant first. */
  function ParseNat(s: string): int
    decreases |s|
  {
    if s == [] then 0 else 10 * ParseNat(s[..|s| - 1]) + DigitValue(s[|s| - 1])
  }

  /** `int(s)` for what `str` produces. */
  function ParseInt(s: string): int {
    if s != [] && s[0] == '-' then -ParseNat(s[1..]) else ParseNat(s)
  }

  lemma {:induction false} ParseNatToString(n: nat)
    ensures ParseNat(NatToString(n)) == n
    decreases n
  {
    if n >= 10 {
      ParseNatToString(n / 10);
      var s := NatToString(n);
      assert s[..|s| - 1] == NatToString(n / 10);
    }
  }

  /** `int(str(n)) == n`: the rendering loses nothing. */
  lemma ParseIntToString(n: int)
    ensures ParseInt(IntToString(n)) == n
  {
    if n < 0 {
      var d := NatToString(-n);
      ParseNatToString(-n);
      var s := "-" + d;
      assert s[1..] == d;
      assert ParseInt(s) == -ParseNat(d);
    } else {
      var d := NatToString(n);
      ParseNatToString(n);
      assert d[0] != '-';
      assert ParseInt(d) == ParseNat(d);
    }
  }
}
