/** The three Python string operations the core applies to page text and console answers:
    `str.strip()`, `str.lower()` and `str.replace(label, '')`. */
module Text {

  /** Python's `str.isspace()`; it is also the set of characters that `\s` matches in a
      `str` regular expression. */
  predicate IsSpace(c: char) {
    ('\t' <= c <= '\r') || ('\U{1C}' <= c <= '\U{1F}') || c == ' ' || c == '\U{85}' || c == '\U{A0}'
    || c == '\U{1680}' || ('\U{2000}' <= c <= '\U{200A}') || c == '\U{2028}' || c == '\U{2029}'
    || c == '\U{202F}' || c == '\U{205F}' || c == '\U{3000}'
  }

  predicate AllSpace(w: string) {
    forall k :: 0 <= k < |w| ==> IsSpace(w[k])
  }

  /** Neither end of `t` is a space (the shape of every result of `Strip`). */
  predicate Trimmed(t: string) {
    t == [] || (!IsSpace(t[0]) && !IsSpace(t[|t| - 1]))
  }

  /** `s` is `t` with the all-space run `s[..i]` in front and an all-space run after it. */
  predicate PaddedAt(s: string, t: string, i: nat) {
    i + |t| <= |s| && s[i..i + |t|] == t && AllSpace(s[..i]) && AllSpace(s[i + |t|..])
  }

  /** Drops leading white space. */
  function TrimStart(s: string): (r: string)
    ensures |r| <= |s| && r == s[|s| - |r|..]
    ensures forall k :: 0 <= k < |s| - |r| ==> IsSpace(s[k])
    ensures r == [] || !IsSpace(r[0])
  {
    if s != [] && IsSpace(s[0]) then
      var r := TrimStart(s[1..]);
      assert s[1..][|s[1..]| - |r|..] == s[|s| - |r|..];
      r
    else
      s
  }

  /** Drops trailing white space. */
  function TrimEnd(s: string): (r: string)
    ensures |r| <= |s| && r == s[..|r|]
    ensures forall k :: |r| <= k < |s| ==> IsSpace(s[k])
    ensures r == [] || !IsSpace(r[|r| - 1])
  {
    if s != [] && IsSpace(s[|s| - 1]) then
      var r := TrimEnd(s[..|s| - 1]);
      assert s[..|s| - 1][..|r|] == s[..|r|];
      r
    else
      s
  }

  /** Cutting a run of spaces off the front of `s` and then another off the back leaves `s`
      padded around what remains. */
  lemma StripShape(s: string, a: string, r: string)
    requires |r| <= |a| <= |s| && a == s[|s| - |a|..] && r == a[..|r|]
    requires forall k :: 0 <= k < |s| - |a| ==> IsSpace(s[k])
    requires forall k :: |r| <= k < |a| ==> IsSpace(a[k])
    ensures PaddedAt(s, r, |s| - |a|)
  {
    var i := |s| - |a|;
    forall k | 0 <= k < i ensures IsSpace(s[..i][k]) {
      assert s[..i][k] == s[k];
    }
    var j := i + |r|;
    forall k | 0 <= k < |s| - j ensures IsSpace(s[j..][k]) {
      assert s[j..][k] == a[|r| + k];
    }
  }

  /** Python's `str.strip()` with no argument: the result is `s` with its leading and
      trailing white space removed, and nothing else changed. */
  function Strip(s: string): (r: string)
    ensures Trimmed(r)
    ensures exists i :: PaddedAt(s, r, i)
  {
    var a := TrimStart(s);
    var r := TrimEnd(a);
    StripShape(s, a, r);
    assert r == [] || r[0] == a[0];
    r
  }

  /** A trimmed text sits in a padded string at one place only. */
  lemma PaddedUnique(w1: string, t: string, w2: string, r: string, i: nat)
    requires AllSpace(w1) && AllSpace(w2) && Trimmed(t) && Trimmed(r)
    requires PaddedAt(w1 + t + w2, r, i)
    ensures r == t
  {
    var s := w1 + t + w2;
    if t != [] {
      // the first and last characters of t are not spaces, so the strip starts and ends on them
      assert s[|w1|] == t[0];
      assert s[|w1| + |t| - 1] == t[|t| - 1];
      assert i == |w1|;
      assert i + |r| == |w1| + |t|;
      assert r == s[|w1|..|w1| + |t|] == t;
    }
  }

  /** Stripping undoes padding: white space added around a trimmed text is exactly what
      `Strip` removes. */
  lemma StripPadded(w1: string, t: string, w2: string)
    requires AllSpace(w1) && AllSpace(w2) && Trimmed(t)
    ensures Strip(w1 + t + w2) == t
  {
    var r := Strip(w1 + t + w2);
    var i: nat :| PaddedAt(w1 + t + w2, r, i);
    PaddedUnique(w1, t, w2, r, i);
  }

  /** Stripping twice is stripping once. */
  lemma StripIdempotent(s: string)
    ensures Strip(Strip(s)) == Strip(s)
  {
    StripPadded([], Strip(s), []);
    assert [] + Strip(s) + [] == Strip(s);
  }

  predicate IsCapital(c: char) {
    'A' <= c <= 'Z'
  }

  function LowerChar(c: char): char {
    if IsCapital(c) then (c as int + 32) as char else c
  }

  /** Python's `str.lower()`, on the ASCII letters: the result has no capital letter left, and
      a text is left unchanged exactly when it has none. */
  function Lower(s: string): (r: string)
    ensures |r| == |s|
    ensures forall k :: 0 <= k < |r| ==> !IsCapital(r[k])
    ensures r == s <==> forall k :: 0 <= k < |s| ==> !IsCapital(s[k])
  {
    var r := seq(|s|, k requires 0 <= k < |s| => LowerChar(s[k]));
    assert r == s ==> forall k :: 0 <= k < |s| ==> !IsCapital(s[k]) by {
      if r == s {
        forall k | 0 <= k < |s| ensures !IsCapital(s[k]) {
          assert r[k] == LowerChar(s[k]);
        }
      }
    }
    r
  }

  /** Lower-casing twice is lower-casing once. */
  lemma LowerIdempotent(s: string)
    ensures Lower(Lower(s)) == Lower(s)
  {
  }

  /** `pat` occurs somewhere in `s`. */
  predicate Contains(s: string, pat: string) {
    exists i :: 0 <= i <= |s| && pat <= s[i..]
  }

  /** Python's `s.replace(pat, '')`: occurrences of `pat` are found from left to right, without
      overlapping, and each one is deleted; one pass, so deleting can make a new occurrence. */
  function RemoveAll(s: string, pat: string): (r: string)
    requires pat != []
    ensures |r| <= |s|
    ensures !Contains(s, pat) ==> r == s
    decreases |s|
  {
    if |s| < |pat| then
      assert !(pat <= s);
      s
    else if pat <= s then
      assert s[0..] == s;
      RemoveAll(s[|pat|..], pat)
    else
      var rest := RemoveAll(s[1..], pat);
      assert Contains(s[1..], pat) ==> Contains(s, pat) by {
        if Contains(s[1..], pat) {
          var i :| 0 <= i <= |s[1..]| && pat <= s[1..][i..];
          assert s[1..][i..] == s[i + 1..];
        }
      }
      assert !Contains(s, pat) ==> s == [s[0]] + s[1..];
      [s[0]] + rest
  }

  /** No proper prefix of `pat` is also a suffix of it, so two occurrences cannot overlap. */
  predicate Unbordered(pat: string) {
    forall m :: 0 < m < |pat| ==> pat[..m] != pat[|pat| - m..]
  }

  /** An occurrence starting inside `a` that ends inside `a` is an occurrence in `a`. */
  lemma OccurrenceWithin(a: string, pat: string, b: string, p: nat)
    requires p + |pat| <= |a|
    ensures (pat <= (a + pat + b)[p..]) == (pat <= a[p..])
  {
    assert (a + pat + b)[p..][..|pat|] == a[p..][..|pat|];
  }

  /** An occurrence starting inside `a` that runs into the following `pat` makes the part of
      `pat` it covers a border of `pat`. */
  lemma OccurrenceStraddles(a: string, pat: string, b: string, p: nat)
    requires p < |a| < p + |pat|
    ensures var n := p + |pat| - |a|;
      pat <= (a + pat + b)[p..] ==> pat[..n] == pat[|pat| - n..]
  {
    var s := a + pat + b;
    var m, n := |a| - p, p + |pat| - |a|;
    if pat <= s[p..] {
      forall k | 0 <= k < n ensures pat[..n][k] == pat[|pat| - n..][k] {
        assert s[p..][m + k] == pat[m + k];
        assert s[p + m + k] == (pat + b)[k];
      }
    }
  }

  /** An occurrence of an unbordered label right after a label-free text `a` is the first
      occurrence that starts inside `a + pat + b`. */
  lemma NoOccurrenceBefore(a: string, pat: string, b: string, p: nat)
    requires pat != [] && Unbordered(pat) && !Contains(a, pat) && p < |a|
    ensures !(pat <= (a + pat + b)[p..])
  {
    if p + |pat| <= |a| {
      OccurrenceWithin(a, pat, b, p);
    } else {
      OccurrenceStraddles(a, pat, b, p);
    }
  }

  /** The label does not occur in the tail of a label-free text either. */
  lemma ContainsTail(a: string, pat: string)
    requires a != [] && !Contains(a, pat)
    ensures !Contains(a[1..], pat)
  {
    forall i | 0 <= i <= |a[1..]| ensures !(pat <= a[1..][i..]) {
      assert a[1..][i..] == a[i + 1..];
    }
  }

  lemma ConsSplit(a: string, r: string)
    requires a != []
    ensures [a[0]] + (a[1..] + r) == a + r
  {
    assert a == [a[0]] + a[1..];
  }

  /** Where no occurrence starts, `replace` keeps the first character. */
  lemma RemoveAllKeeps(s: string, pat: string)
    requires pat != [] && s != [] && !(pat <= s)
    ensures RemoveAll(s, pat) == [s[0]] + RemoveAll(s[1..], pat)
  {
    if |s| < |pat| {
      assert [s[0]] + s[1..] == s;
    }
  }

  /** Where an occurrence starts, `replace` deletes it. */
  lemma RemoveAllDeletes(pat: string, b: string)
    requires pat != []
    ensures RemoveAll(pat + b, pat) == RemoveAll(b, pat)
  {
    assert pat <= pat + b;
    assert (pat + b)[|pat|..] == b;
  }

  /** `replace(pat, '')` keeps a label-free text and carries on after the label that follows
      it; applied in turn, this says what is deleted from any text. */
  lemma {:induction false} RemoveAllPassesOver(a: string, pat: string, b: string)
    requires pat != [] && Unbordered(pat) && !Contains(a, pat)
    ensures RemoveAll(a + pat + b, pat) == a + RemoveAll(b, pat)
    decreases |a|
  {
    if a == [] {
      assert a + pat + b == pat + b;
      RemoveAllDeletes(pat, b);
    } else {
      var s, t := a + pat + b, a[1..] + pat + b;
      assert s[1..] == t;
      NoOccurrenceBefore(a, pat, b, 0);
      assert s[0..] == s;
      RemoveAllKeeps(s, pat);
      ContainsTail(a, pat);
      RemoveAllPassesOver(a[1..], pat, b);
      assert RemoveAll(s, pat) == [s[0]] + RemoveAll(t, pat);
      ConsSplit(a, RemoveAll(b, pat));
    }
  }

  /** Deleting a label that prefixes a text in which the label does not otherwise occur
      gives back the text. */
  lemma RemoveLeadingLabel(pat: string, t: string)
    requires pat != [] && !Contains(t, pat)
    ensures RemoveAll(pat + t, pat) == t
  {
    assert pat <= pat + t;
    assert (pat + t)[|pat|..] == t;
  }
}
