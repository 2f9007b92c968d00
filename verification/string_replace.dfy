/** `String.prototype.replace(pattern, replacement)` with a string pattern,
    as the ECMAScript specification defines it: only the first occurrence
    of the pattern is replaced, and the replacement text is expanded by
    GetSubstitution, where `$$`, `$&`, `` $` `` and `$'` are special. With a
    string pattern there are no capture groups, so `$1` or `$<` stay literal. */
module StringReplace {
  import opened JsValues

  predicate OccursAt(s: string, pat: string, i: int) {
    0 <= i && i + |pat| <= |s| && s[i..i + |pat|] == pat
  }

  predicate Occurs(s: string, pat: string) {
    exists i :: 0 <= i <= |s| && OccursAt(s, pat, i)
  }

  predicate FirstOccurrence(s: string, pat: string, i: int) {
    OccursAt(s, pat, i) && forall j :: 0 <= j < i ==> !OccursAt(s, pat, j)
  }

  lemma OccursShift(s: string, pat: string, j: int)
    requires s != [] && 0 <= j
    ensures OccursAt(s[1..], pat, j) <==> OccursAt(s, pat, j + 1)
  {
    if j + 1 + |pat| <= |s| {
      assert s[1..][j..j + |pat|] == s[j + 1..j + 1 + |pat|];
    }
  }

  /** `s.indexOf(pat)`: the least index at which `pat` occurs. */
  function IndexOf(s: string, pat: string): (r: Option<nat>)
    ensures r.Some? ==> FirstOccurrence(s, pat, r.value)
    ensures r.None? <==> !Occurs(s, pat)
    decreases |s|
  {
    if |pat| > |s| then None
    else if s[..|pat|] == pat then Some(0)
    else
      var r := IndexOf(s[1..], pat);
      assert forall j :: 1 <= j ==> (OccursAt(s, pat, j) <==> OccursAt(s[1..], pat, j - 1)) by {
        forall j | 1 <= j
          ensures OccursAt(s, pat, j) <==> OccursAt(s[1..], pat, j - 1)
        {
          OccursShift(s, pat, j - 1);
        }
      }
      assert !OccursAt(s, pat, 0);
      if r.None? then None else Some(r.value + 1)
  }

  /** GetSubstitution with no captures: `matched` is the matched text,
      `before` and `after` the parts of the subject around it. */
  function Substitution(replacement: string, matched: string, before: string, after: string): string
    decreases |replacement|
  {
    if replacement == [] then ""
    else if replacement[0] == '$' && |replacement| >= 2 && replacement[1] in "$&`'" then
      var rest := Substitution(replacement[2..], matched, before, after);
      var c := replacement[1];
      (if c == '$' then "$" else if c == '&' then matched else if c == '`' then before else after) + rest
    else
      [replacement[0]] + Substitution(replacement[1..], matched, before, after)
  }

  /** A replacement without `$` is inserted as it is. */
  lemma {:induction false} SubstitutionLiteral(replacement: string, matched: string, before: string, after: string)
    requires '$' !in replacement
    ensures Substitution(replacement, matched, before, after) == replacement
  {
    if replacement != [] {
      SubstitutionLiteral(replacement[1..], matched, before, after);
      assert [replacement[0]] + replacement[1..] == replacement;
    }
  }

  /** The expansion only copies characters of its four inputs. */
  lemma {:induction false} SubstitutionChars(replacement: string, matched: string, before: string, after: string)
    ensures forall c :: c in Substitution(replacement, matched, before, after) ==>
      c in replacement || c in matched || c in before || c in after
    decreases |replacement|
  {
    if replacement == [] {
    } else if replacement[0] == '$' && |replacement| >= 2 && replacement[1] in "$&`'" {
      SubstitutionChars(replacement[2..], matched, before, after);
      assert forall c :: c in replacement[2..] ==> c in replacement;
    } else {
      SubstitutionChars(replacement[1..], matched, before, after);
      assert forall c :: c in replacement[1..] ==> c in replacement;
    }
  }

  /** `s.replace(pat, replacement)`. */
  function ReplaceFirst(s: string, pat: string, replacement: string): string {
    match IndexOf(s, pat)
    case None => s
    case Some(i) => s[..i] + Substitution(replacement, pat, s[..i], s[i + |pat|..]) + s[i + |pat|..]
  }

  /** When the pattern occurs, its first occurrence (and no other) is
      replaced by the expanded replacement text. */
  lemma ReplaceFirstAt(s: string, pat: string, replacement: string, i: int)
    requires FirstOccurrence(s, pat, i)
    ensures ReplaceFirst(s, pat, replacement) ==
      s[..i] + Substitution(replacement, pat, s[..i], s[i + |pat|..]) + s[i + |pat|..]
  {
    var r := IndexOf(s, pat);
    assert r.Some? && r.value == i;
  }

  /** When the pattern does not occur, the string is returned unchanged. */
  lemma ReplaceFirstNoMatch(s: string, pat: string, replacement: string)
    requires !Occurs(s, pat)
    ensures ReplaceFirst(s, pat, replacement) == s
  {
  }

  /** Replacing never brings in a character that is in neither the subject
      nor the replacement (whatever `$` patterns the replacement holds). */
  lemma ReplaceFirstChars(s: string, pat: string, replacement: string)
    ensures forall c :: c in ReplaceFirst(s, pat, replacement) ==> c in s || c in replacement
  {
    match IndexOf(s, pat)
    case None =>
    case Some(i) =>
      var before, after := s[..i], s[i + |pat|..];
      var middle := Substitution(replacement, pat, before, after);
      SubstitutionChars(replacement, pat, before, after);
      assert s[i..i + |pat|] == pat;
      SliceChars(s, 0, i);
      SliceChars(s, i, i + |pat|);
      SliceChars(s, i + |pat|, |s|);
      ConcatChars(before, middle, after);
  }

  lemma SliceChars(s: string, a: nat, b: nat)
    requires a <= b <= |s|
    ensures forall c :: c in s[a..b] ==> c in s
  {
    forall c | c in s[a..b]
      ensures c in s
    {
      var k :| 0 <= k < b - a && s[a..b][k] == c;
      assert s[a + k] == c;
    }
  }

  lemma ConcatChars(a: string, b: string, d: string)
    ensures forall c :: c in a + b + d ==> c in a || c in b || c in d
  {
  }

  lemma SliceRight(a: string, b: string, d: nat, n: nat)
    requires d + n <= |b|
    ensures (a + b)[|a| + d..|a| + d + n] == b[d..d + n]
  {
  }

  lemma SliceOfSuffix(s: string, a: nat, d: nat, n: nat)
    requires a + d + n <= |s|
    ensures s[a..][d..d + n] == s[a + d..a + d + n]
  {
  }

  /** With a `$`-free replacement, the first occurrence is swapped for the
      replacement text and nothing else changes. */
  lemma ReplaceFirstLiteral(s: string, pat: string, replacement: string, i: int)
    requires FirstOccurrence(s, pat, i) && '$' !in replacement
    ensures ReplaceFirst(s, pat, replacement) == s[..i] + replacement + s[i + |pat|..]
  {
    ReplaceFirstAt(s, pat, replacement, i);
    SubstitutionLiteral(replacement, pat, s[..i], s[i + |pat|..]);
  }

  /** Only the first occurrence is replaced: a later, non-overlapping
      occurrence is still there, shifted by the change in length. */
  lemma LaterOccurrenceStays(s: string, pat: string, replacement: string, i: int, j: int)
    requires FirstOccurrence(s, pat, i) && OccursAt(s, pat, j) && j >= i + |pat|
    requires '$' !in replacement
    ensures OccursAt(ReplaceFirst(s, pat, replacement), pat, j - |pat| + |replacement|)
  {
    ReplaceFirstLiteral(s, pat, replacement, i);
    var head, tail := s[..i] + replacement, s[i + |pat|..];
    var d := j - i - |pat|;
    SliceOfSuffix(s, i + |pat|, d, |pat|);
    SliceRight(head, tail, d, |pat|);
  }

  /** A pattern ending in `}` cannot match across into a suffix that holds
      no `}`: its occurrences in `p + q` are exactly those in `p`. */
  lemma SuffixOccurrences(p: string, q: string, pat: string)
    requires pat != [] && pat[|pat| - 1] == '}' && '}' !in q
    ensures forall i :: OccursAt(p + q, pat, i) <==> OccursAt(p, pat, i)
  {
    var s := p + q;
    forall i
      ensures OccursAt(s, pat, i) <==> OccursAt(p, pat, i)
    {
      if OccursAt(s, pat, i) {
        assert s[i..i + |pat|][|pat| - 1] == '}';
        if i + |pat| - 1 >= |p| {
          assert false;
        }
        assert s[i..i + |pat|] == p[i..i + |pat|];
      }
      if OccursAt(p, pat, i) {
        assert s[i..i + |pat|] == p[i..i + |pat|];
      }
    }
  }

  /** So replacing in `p + q` is replacing in `p` and keeping `q`. */
  lemma ReplaceFirstSuffix(p: string, q: string, pat: string, replacement: string)
    requires pat != [] && pat[|pat| - 1] == '}' && '}' !in q
    requires '$' !in replacement
    ensures ReplaceFirst(p + q, pat, replacement) == ReplaceFirst(p, pat, replacement) + q
  {
    SuffixOccurrences(p, q, pat);
    var s := p + q;
    match IndexOf(p, pat)
    case None =>
      assert !Occurs(s, pat);
      ReplaceFirstNoMatch(s, pat, replacement);
    case Some(i) =>
      assert FirstOccurrence(s, pat, i);
      ReplaceFirstLiteral(s, pat, replacement, i);
      ReplaceFirstLiteral(p, pat, replacement, i);
      var a, b := p[..i], p[i + |pat|..];
      assert s[..i] == a;
      assert s[i + |pat|..] == b + q;
      assert a + replacement + (b + q) == (a + replacement + b) + q;
  }

  /** `"/{id}/{id}".replace("{id}", "7")` is `"/7/{id}"`. */
  lemma RepeatedPlaceholderExample()
    ensures ReplaceFirst("/{id}/{id}", "{id}", "7") == "/7/{id}"
  {
    var s := "/{id}/{id}";
    assert s[0..4][0] == '/';
    assert !OccursAt(s, "{id}", 0);
    assert OccursAt(s, "{id}", 1);
    ReplaceFirstLiteral(s, "{id}", "7", 1);
  }
}
