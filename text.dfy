/** The few Python `str` operations the server relies on: `strip()`,
    `replace(old, new)` and `sep.join(parts)`, written out on `seq<char>`. */
module Text {

  /** A value that may be missing. */
  datatype Option<T> = None | Some(value: T)

  /** Python's `str.isspace()` for one character: ASCII whitespace, the
      four separator controls U+001C..U+001F and the Unicode spaces. */
  predicate IsSpace(c: char) {
    || c == ' '
    || ('\t' <= c <= '\r')
    || ('\U{1C}' <= c <= '\U{1F}')
    || c == '\U{85}' || c == '\U{A0}' || c == '\U{1680}'
    || ('\U{2000}' <= c <= '\U{200A}')
    || c == '\U{2028}' || c == '\U{2029}' || c == '\U{202F}'
    || c == '\U{205F}' || c == '\U{3000}'
  }

  predicate StartsWith(s: string, prefix: string) {
    |prefix| <= |s| && s[..|prefix|] == prefix
  }

  predicate EndsWith(s: string, suffix: string) {
    |suffix| <= |s| && s[|s| - |suffix|..] == suffix
  }

  /** `pat` occurs in `s` starting at index `i`. */
  predicate OccursAt(s: string, pat: string, i: nat) {
    i + |pat| <= |s| && s[i..i + |pat|] == pat
  }

  ghost predicate Contains(s: string, pat: string) {
    exists i: nat :: OccursAt(s, pat, i)
  }

  /** Number of whitespace characters at the front of `s`. */
  function LeadingSpaces(s: string): (n: nat)
    ensures n <= |s|
    ensures forall k :: 0 <= k < n ==> IsSpace(s[k])
    ensures n == |s| || !IsSpace(s[n])
  {
    if s == [] || !IsSpace(s[0]) then 0 else 1 + LeadingSpaces(s[1..])
  }

  /** Number of whitespace characters at the back of `s`. */
  function TrailingSpaces(s: string): (n: nat)
    ensures n <= |s|
    ensures forall k :: |s| - n <= k < |s| ==> IsSpace(s[k])
    ensures n == |s| || !IsSpace(s[|s| - 1 - n])
  {
    if s == [] || !IsSpace(s[|s| - 1]) then 0 else 1 + TrailingSpaces(s[..|s| - 1])
  }

  /** Python's `s.strip()`: `s` with the whitespace removed from both ends,
      and nothing else removed. */
  function Strip(s: string): (r: string)
    ensures r == [] || (!IsSpace(r[0]) && !IsSpace(r[|r| - 1]))
    ensures var i := LeadingSpaces(s);
      && i + |r| <= |s| && s[i..i + |r|] == r
      && (forall k :: 0 <= k < i ==> IsSpace(s[k]))
      && (forall k :: i + |r| <= k < |s| ==> IsSpace(s[k]))
    ensures r == [] <==> forall k :: 0 <= k < |s| ==> IsSpace(s[k])
  {
    var i := LeadingSpaces(s);
    var rest := s[i..];
    rest[..|rest| - TrailingSpaces(rest)]
  }

  /** Text that neither starts nor ends with whitespace is left alone. */
  lemma StripTrimmed(s: string)
    requires s == [] || (!IsSpace(s[0]) && !IsSpace(s[|s| - 1]))
    ensures Strip(s) == s
  {
  }

  /** Stripping twice is stripping once. */
  lemma StripIdempotent(s: string)
    ensures Strip(Strip(s)) == Strip(s)
  {
  }

  /** Python's `s.replace(pat, rep)` for a non-empty `pat`: scanning from the
      left, every non-overlapping occurrence of `pat` becomes `rep`. */
  function ReplaceAll(s: string, pat: string, rep: string): (r: string)
    requires pat != []
    ensures !Contains(s, pat) ==> r == s
    decreases |s|
  {
    if |s| < |pat| then s
    else if s[..|pat|] == pat then
      assert OccursAt(s, pat, 0);
      rep + ReplaceAll(s[|pat|..], pat, rep)
    else
      var r := [s[0]] + ReplaceAll(s[1..], pat, rep);
      assert !Contains(s, pat) ==> !Contains(s[1..], pat) by {
        if Contains(s[1..], pat) {
          var i: nat :| OccursAt(s[1..], pat, i);
          assert s[i + 1..i + 1 + |pat|] == s[1..][i..i + |pat|];
          assert OccursAt(s, pat, i + 1);
        }
      }
      r
  }

  /** Python's `sep.join(parts)`. */
  function Join(parts: seq<string>, sep: string): string {
    if parts == [] then ""
    else if |parts| == 1 then parts[0]
    else parts[0] + sep + Join(parts[1..], sep)
  }

  /** Python's `s.split(pat)` for a non-empty `pat`: the pieces between the
      occurrences that `ReplaceAll` rewrites. */
  function Split(s: string, pat: string): (pieces: seq<string>)
    requires pat != []
    ensures pieces != []
    decreases |s|
  {
    if |s| < |pat| then [s]
    else if s[..|pat|] == pat then [""] + Split(s[|pat|..], pat)
    else
      var rest := Split(s[1..], pat);
      [[s[0]] + rest[0]] + rest[1..]
  }

  /** Prepending a character to the first piece prepends it to the join. */
  lemma {:induction false} JoinConsFirst(c: char, parts: seq<string>, sep: string)
    requires parts != []
    ensures Join([[c] + parts[0]] + parts[1..], sep) == [c] + Join(parts, sep)
  {
  }

  /** Joining the pieces of a split with the pattern gives back the string. */
  lemma {:induction false} SplitJoin(s: string, pat: string)
    requires pat != []
    ensures Join(Split(s, pat), pat) == s
    decreases |s|
  {
    if |s| < |pat| {
    } else if s[..|pat|] == pat {
      var rest := Split(s[|pat|..], pat);
      var pieces := [""] + rest;
      assert Split(s, pat) == pieces;
      assert pieces[1..] == rest;
      assert Join(pieces, pat) == "" + pat + Join(rest, pat);
      SplitJoin(s[|pat|..], pat);
      assert s == s[..|pat|] + s[|pat|..];
    } else {
      var rest := Split(s[1..], pat);
      assert Split(s, pat) == [[s[0]] + rest[0]] + rest[1..];
      JoinConsFirst(s[0], rest, pat);
      SplitJoin(s[1..], pat);
      assert s == [s[0]] + s[1..];
    }
  }

  /** `s.replace(pat, rep) == rep.join(s.split(pat))`: replacing is cutting
      the string at the occurrences of `pat` and gluing with `rep`. */
  lemma {:induction false} ReplaceIsSplitJoin(s: string, pat: string, rep: string)
    requires pat != []
    ensures ReplaceAll(s, pat, rep) == Join(Split(s, pat), rep)
    decreases |s|
  {
    if |s| < |pat| {
    } else if s[..|pat|] == pat {
      ReplaceIsSplitJoin(s[|pat|..], pat, rep);
      var rest := Split(s[|pat|..], pat);
      assert ([""] + rest)[1..] == rest;
    } else {
      ReplaceIsSplitJoin(s[1..], pat, rep);
      JoinConsFirst(s[0], Split(s[1..], pat), rep);
    }
  }

  /** No piece of a split contains the pattern. */
  lemma {:induction false} SplitPiecesFree(s: string, pat: string)
    requires pat != []
    ensures forall k :: 0 <= k < |Split(s, pat)| ==> !Contains(Split(s, pat)[k], pat)
    decreases |s|
  {
    var pieces := Split(s, pat);
    if |s| < |pat| {
      forall i: nat ensures !OccursAt(s, pat, i) { }
    } else if s[..|pat|] == pat {
      SplitPiecesFree(s[|pat|..], pat);
      forall i: nat ensures !OccursAt("", pat, i) { }
    } else {
      SplitPiecesFree(s[1..], pat);
      var rest := Split(s[1..], pat);
      var first := [s[0]] + rest[0];
      assert pieces[0] == first;
      SplitFirstIsPrefix(s[1..], pat);
      forall i: nat ensures !OccursAt(first, pat, i) {
        if i == 0 {
          // `first` is a prefix of `s`, which does not start with `pat`
          assert first == s[..|first|];
        } else {
          assert first[1..] == rest[0];
          OccursAtTail(first, pat, i - 1);
        }
      }
      forall k | 1 <= k < |pieces| ensures !Contains(pieces[k], pat) {
        assert pieces[k] == rest[k];
      }
    }
  }

  /** The cuts are made at the leftmost occurrence: the pattern does not
      occur before the end of the first piece, and when there is a second
      piece the pattern occurs right there. For a pattern that overlaps
      itself this fixes the split Python makes (`"aaa".split("aa")` is
      `["", "a"]`, not `["a", ""]`). */
  lemma {:induction false} SplitCutsLeftmost(s: string, pat: string)
    requires pat != []
    ensures forall i: nat :: i < |Split(s, pat)[0]| ==> !OccursAt(s, pat, i)
    ensures |Split(s, pat)| > 1 ==> OccursAt(s, pat, |Split(s, pat)[0]|)
    decreases |s|
  {
    if |s| < |pat| {
    } else if s[..|pat|] == pat {
    } else {
      SplitCutsLeftmost(s[1..], pat);
      var rest := Split(s[1..], pat);
      assert Split(s, pat) == [[s[0]] + rest[0]] + rest[1..];
      forall i: nat | i < |Split(s, pat)[0]| ensures !OccursAt(s, pat, i) {
        if i > 0 {
          OccursAtTail(s, pat, i - 1);
        }
      }
      if |Split(s, pat)| > 1 {
        OccursAtTail(s, pat, |rest[0]|);
      }
    }
  }

  /** After the first cut, the remaining pieces are the split of the text
      that follows the first occurrence: every later cut is again made at
      the leftmost occurrence of what is left. */
  lemma {:induction false} SplitAfterFirstCut(s: string, pat: string)
    requires pat != []
    requires |Split(s, pat)| > 1
    ensures |Split(s, pat)[0]| + |pat| <= |s|
    ensures Split(s, pat)[1..] == Split(s[|Split(s, pat)[0]| + |pat|..], pat)
    decreases |s|
  {
    if s[..|pat|] == pat {
      assert Split(s, pat) == [""] + Split(s[|pat|..], pat);
    } else {
      var rest := Split(s[1..], pat);
      assert Split(s, pat) == [[s[0]] + rest[0]] + rest[1..];
      SplitAfterFirstCut(s[1..], pat);
      assert s[1..][|rest[0]| + |pat|..] == s[1 + |rest[0]| + |pat|..];
    }
  }

  /** An occurrence in the tail of `s` is an occurrence in `s`, one place on. */
  lemma OccursAtTail(s: string, pat: string, i: nat)
    requires s != []
    ensures OccursAt(s[1..], pat, i) <==> OccursAt(s, pat, i + 1)
  {
    if i + 1 + |pat| <= |s| {
      assert s[1..][i..i + |pat|] == s[i + 1..i + 1 + |pat|];
    }
  }

  /** The first piece of a split is a prefix of the string. */
  lemma {:induction false} SplitFirstIsPrefix(s: string, pat: string)
    requires pat != []
    ensures |Split(s, pat)[0]| <= |s| && s[..|Split(s, pat)[0]|] == Split(s, pat)[0]
    decreases |s|
  {
    if |s| < |pat| {
    } else if s[..|pat|] == pat {
    } else {
      SplitFirstIsPrefix(s[1..], pat);
    }
  }
}
