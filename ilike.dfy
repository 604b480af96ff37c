/**
 * PostgreSQL's `ILIKE`: `%` matches any run of characters, `_` any one
 * character, `\` makes the next pattern character literal, and letters are
 * compared without regard to case. The application's search builds the
 * pattern `%<query>%`; for a query with no pattern characters in it that is
 * a case-insensitive substring test (`SubstringSearch`).
 */
module Ilike {

  /** Case folding of the ASCII letters. */
  function Fold(c: char): char {
    if 'A' <= c <= 'Z' then (c as int + 32) as char else c
  }

  /** `text ILIKE pattern`, with `\` as the escape character. */
  predicate Like(text: string, pattern: string)
    decreases |text| + |pattern|
  {
    if pattern == [] then text == []
    else if pattern[0] == '%' then
      Like(text, pattern[1..]) || (text != [] && Like(text[1..], pattern))
    else if pattern[0] == '_' then
      text != [] && Like(text[1..], pattern[1..])
    else if pattern[0] == '\\' then
      |pattern| >= 2 && text != [] && Fold(text[0]) == Fold(pattern[1]) && Like(text[1..], pattern[2..])
    else
      text != [] && Fold(text[0]) == Fold(pattern[0]) && Like(text[1..], pattern[1..])
  }

  /** No character of `q` has a meaning of its own in a pattern. */
  predicate NoPatternChars(q: string) {
    forall i :: 0 <= i < |q| ==> q[i] != '%' && q[i] != '_' && q[i] != '\\'
  }

  /** `t` starts with `q`, ignoring case. */
  predicate StartsWithFolded(t: string, q: string) {
    |q| <= |t| && forall i :: 0 <= i < |q| ==> Fold(t[i]) == Fold(q[i])
  }

  /** `q` occurs in `t`, ignoring case. */
  predicate ContainsFolded(t: string, q: string) {
    exists k :: 0 <= k <= |t| && StartsWithFolded(t[k..], q)
  }

  lemma {:induction false} PercentMatchesAll(t: string)
    ensures Like(t, "%")
  {
    if t != [] {
      PercentMatchesAll(t[1..]);
    }
  }

  lemma {:induction false} LiteralThenPercent(t: string, q: string)
    requires NoPatternChars(q)
    ensures Like(t, q + "%") <==> StartsWithFolded(t, q)
  {
    if q == [] {
      assert q + "%" == "%";
      PercentMatchesAll(t);
    } else {
      assert (q + "%")[1..] == q[1..] + "%";
      if t != [] {
        LiteralThenPercent(t[1..], q[1..]);
        if StartsWithFolded(t, q) {
          assert StartsWithFolded(t[1..], q[1..]) by {
            forall i | 0 <= i < |q[1..]| ensures Fold(t[1..][i]) == Fold(q[1..][i]) {
              assert t[1..][i] == t[i + 1] && q[1..][i] == q[i + 1];
            }
          }
        }
        if StartsWithFolded(t[1..], q[1..]) && Fold(t[0]) == Fold(q[0]) {
          forall i | 0 <= i < |q| ensures Fold(t[i]) == Fold(q[i]) {
            if i > 0 {
              assert t[1..][i - 1] == t[i] && q[1..][i - 1] == q[i];
            }
          }
        }
      }
    }
  }

  lemma {:induction false} LeadingPercent(t: string, r: string)
    ensures Like(t, "%" + r) <==> exists k :: 0 <= k <= |t| && Like(t[k..], r)
  {
    assert ("%" + r)[1..] == r;
    assert t[0..] == t;
    if t != [] {
      LeadingPercent(t[1..], r);
      if exists k :: 0 <= k <= |t| && Like(t[k..], r) {
        var k :| 0 <= k <= |t| && Like(t[k..], r);
        if k > 0 {
          assert t[1..][k - 1..] == t[k..];
        }
      }
      if exists k :: 0 <= k <= |t[1..]| && Like(t[1..][k..], r) {
        var k :| 0 <= k <= |t[1..]| && Like(t[1..][k..], r);
        assert t[1..][k..] == t[k + 1..];
      }
    }
  }

  /**
   * Searching with `%<q>%` for a query free of pattern characters finds
   * exactly the texts that contain the query, ignoring case.
   */
  lemma SubstringSearch(t: string, q: string)
    requires NoPatternChars(q)
    ensures Like(t, "%" + q + "%") <==> ContainsFolded(t, q)
  {
    assert "%" + q + "%" == "%" + (q + "%");
    LeadingPercent(t, q + "%");
    forall k | 0 <= k <= |t|
      ensures Like(t[k..], q + "%") <==> StartsWithFolded(t[k..], q)
    {
      LiteralThenPercent(t[k..], q);
    }
  }
}
