/** The string operations the ranker and scraper rely on: ASCII `str.lower`,
    whitespace (`str.isspace` on ASCII), `str.strip`, the first token of
    `str.split()`, and the `in` operator on strings. */
module Text {
  import opened Outcomes

  /** Python's `str.isspace` on ASCII: space, \t \n \v \f \r and the
      separators \x1c..\x1f. */
  predicate IsSpace(c: char) {
    c == ' ' || 9 <= c as int <= 13 || 28 <= c as int <= 31
  }

  predicate AllSpace(s: string) {
    forall i :: 0 <= i < |s| ==> IsSpace(s[i])
  }

  predicate NoSpace(s: string) {
    forall i :: 0 <= i < |s| ==> !IsSpace(s[i])
  }

  /** No whitespace at either end. */
  predicate Stripped(s: string) {
    |s| == 0 || (!IsSpace(s[0]) && !IsSpace(s[|s| - 1]))
  }

  predicate IsUpper(c: char) {
    'A' <= c <= 'Z'
  }

  function LowerChar(c: char): char {
    if IsUpper(c) then (c as int + 32) as char else c
  }

  /** `str.lower()` restricted to ASCII case mapping. */
  function Lower(s: string): (r: string)
    ensures |r| == |s|
    ensures forall i :: 0 <= i < |s| ==> r[i] == LowerChar(s[i])
    ensures forall i :: 0 <= i < |r| ==> !IsUpper(r[i])
  {
    if |s| == 0 then [] else [LowerChar(s[0])] + Lower(s[1..])
  }

  /** How many whitespace characters `s` starts with. */
  function LeadingSpace(s: string): (n: nat)
    ensures n <= |s|
    ensures forall i :: 0 <= i < n ==> IsSpace(s[i])
    ensures n < |s| ==> !IsSpace(s[n])
  {
    if |s| > 0 && IsSpace(s[0]) then 1 + LeadingSpace(s[1..]) else 0
  }

  /** How many whitespace characters `s` ends with. */
  function TrailingSpace(s: string): (n: nat)
    ensures n <= |s|
    ensures forall i :: |s| - n <= i < |s| ==> IsSpace(s[i])
    ensures n < |s| ==> !IsSpace(s[|s| - n - 1])
  {
    if |s| > 0 && IsSpace(s[|s| - 1]) then 1 + TrailingSpace(s[..|s| - 1]) else 0
  }

  /** `s.strip()`: the middle of `s` left after removing whitespace at both
      ends; it is the unique stripped infix with only whitespace around it. */
  function Strip(s: string): (r: string)
    ensures Stripped(r)
    ensures exists i :: Padded(s, r, i)
  {
    var i := LeadingSpace(s);
    var t := s[i..];
    var j := TrailingSpace(t);
    var r := t[..|t| - j];
    assert Padded(s, r, i) by {
      assert r == s[i..i + |r|];
      assert forall k :: 0 <= k < i ==> s[..i][k] == s[k];
      assert s[i + |r|..] == t[|t| - j..];
    }
    assert Stripped(r) by {
      if |r| > 0 {
        assert r[0] == s[i];
        assert r[|r| - 1] == t[|t| - j - 1];
      }
    }
    r
  }

  /** `s` is `r` at position `i` with only whitespace before and after. */
  predicate Padded(s: string, r: string, i: int) {
    0 <= i && i + |r| <= |s| && r == s[i..i + |r|] && AllSpace(s[..i]) && AllSpace(s[i + |r|..])
  }

  /** A character absent from a string is absent from its stripped form. */
  lemma StripKeepsAbsent(s: string, c: char)
    requires c !in s
    ensures c !in Strip(s)
  {
    var r := Strip(s);
    var i :| Padded(s, r, i);
    forall m | 0 <= m < |r|
      ensures r[m] != c
    {
      assert r[m] == s[i + m];
    }
  }

  /** Stripping changes a string exactly when it has whitespace at an end. */
  lemma StripFixpoint(s: string)
    ensures Strip(s) == s <==> Stripped(s)
  {
    if Stripped(s) && |s| > 0 {
      assert LeadingSpace(s) == 0;
      assert TrailingSpace(s) == 0;
    }
  }

  /** Stripping removes all of a blank string, and only of a blank string. */
  lemma StripBlank(s: string)
    ensures Strip(s) == "" <==> AllSpace(s)
  {
    var r := Strip(s);
    var i :| Padded(s, r, i);
    if |r| == 0 {
      forall k | 0 <= k < |s|
        ensures IsSpace(s[k])
      {
        if k < i {
          assert s[k] == s[..i][k];
        } else {
          assert s[k] == s[i..][k - i];
        }
      }
    } else {
      assert r[0] == s[i];
    }
  }

  /** `str.strip` is idempotent. */
  lemma StripIdempotent(s: string)
    ensures Strip(Strip(s)) == Strip(s)
  {
    StripFixpoint(Strip(s));
  }

  /** Length of the run of non-whitespace characters that starts `s`. */
  function WordLength(s: string): (n: nat)
    ensures n <= |s|
    ensures forall i :: 0 <= i < n ==> !IsSpace(s[i])
    ensures n < |s| ==> IsSpace(s[n])
  {
    if |s| == 0 || IsSpace(s[0]) then 0 else 1 + WordLength(s[1..])
  }

  /** `s.split()[0]`: the first maximal run of non-whitespace characters;
      None exactly where Python raises `IndexError` (a blank string). */
  function FirstWord(s: string): (r: Option<string>)
    ensures r.None? <==> AllSpace(s)
    ensures r.Some? ==> |r.value| > 0 && NoSpace(r.value)
    ensures r.Some? ==> exists k :: WordAt(s, r.value, k)
  {
    var k := LeadingSpace(s);
    if k == |s| then
      None
    else
      var t := s[k..];
      var n := WordLength(t);
      assert WordAt(s, t[..n], k) by {
        assert s[k..k + n] == t[..n];
        assert forall i :: 0 <= i < k ==> s[..k][i] == s[i];
      }
      Some(t[..n])
  }

  /** `w` stands at position `k` of `s` with only whitespace before it and
      the end or whitespace after it. */
  predicate WordAt(s: string, w: string, k: int) {
    0 <= k && k + |w| <= |s| && AllSpace(s[..k]) && s[k..k + |w|] == w
    && (k + |w| == |s| || IsSpace(s[k + |w|]))
  }

  /** `p` starts `s`. */
  predicate IsPrefix(p: string, s: string) {
    |p| <= |s| && s[..|p|] == p
  }

  /** Python's `needle in hay` on strings. */
  predicate Contains(hay: string, needle: string) {
    IsPrefix(needle, hay) || (|hay| > 0 && Contains(hay[1..], needle))
  }

  /** `needle` occurs in `hay` starting at index `i`. */
  predicate OccursAt(hay: string, needle: string, i: int) {
    0 <= i && i + |needle| <= |hay| && hay[i..i + |needle|] == needle
  }

  /** An occurrence at any position is found by the recursive search. */
  lemma {:induction false} OccursImpliesContains(hay: string, needle: string, i: int)
    requires OccursAt(hay, needle, i)
    ensures Contains(hay, needle)
    decreases i
  {
    if i > 0 {
      assert hay[1..][i - 1..i - 1 + |needle|] == hay[i..i + |needle|];
      OccursImpliesContains(hay[1..], needle, i - 1);
    }
  }

  /** The recursive search only succeeds where an occurrence exists. */
  lemma {:induction false} ContainsImpliesOccurs(hay: string, needle: string)
    requires Contains(hay, needle)
    ensures exists i :: OccursAt(hay, needle, i)
  {
    if IsPrefix(needle, hay) {
      assert OccursAt(hay, needle, 0);
    } else {
      ContainsImpliesOccurs(hay[1..], needle);
      var i :| OccursAt(hay[1..], needle, i);
      assert hay[1..][i..i + |needle|] == hay[i + 1..i + 1 + |needle|];
      assert OccursAt(hay, needle, i + 1);
    }
  }

  /** The recursive search agrees with the positional definition of a substring. */
  lemma ContainsIffOccurs(hay: string, needle: string)
    ensures Contains(hay, needle) <==> exists i :: OccursAt(hay, needle, i)
  {
    if Contains(hay, needle) {
      ContainsImpliesOccurs(hay, needle);
    }
    forall i | OccursAt(hay, needle, i)
      ensures Contains(hay, needle)
    {
      OccursImpliesContains(hay, needle, i);
    }
  }

  /** The empty string occurs in every string, so an empty skill always matches. */
  lemma EmptyAlwaysContained(hay: string)
    ensures Contains(hay, "")
  {
  }

  /** Lower-casing keeps an occurrence in place. */
  lemma LowerKeepsOccurrence(hay: string, needle: string, k: int)
    requires OccursAt(hay, needle, k)
    ensures OccursAt(Lower(hay), Lower(needle), k)
  {
    var lh := Lower(hay);
    var ln := Lower(needle);
    forall i | 0 <= i < |needle|
      ensures lh[k + i] == ln[i]
    {
      assert hay[k + i] == hay[k..k + |needle|][i];
    }
    assert lh[k..k + |needle|] == ln;
  }

  /** The first word occurs in the text it was taken from. */
  lemma FirstWordOccurs(query: string, w: string)
    requires FirstWord(query) == Some(w)
    ensures exists k :: OccursAt(query, w, k)
  {
    var k :| WordAt(query, w, k);
    assert OccursAt(query, w, k);
  }

  /** A text that starts with `query`, lower-cased, holds the lower-cased
      first word of `query`. */
  lemma FirstWordInLower(query: string, w: string, tail: string)
    requires FirstWord(query) == Some(w)
    ensures Contains(Lower(query + tail), Lower(w))
  {
    FirstWordOccurs(query, w);
    var k :| OccursAt(query, w, k);
    var text := query + tail;
    assert text[k..k + |w|] == query[k..k + |w|];
    LowerKeepsOccurrence(text, w, k);
    OccursImpliesContains(Lower(text), Lower(w), k);
  }
}
