/**
 The project-code format `^[A-Z]{4}-[1-9]{4}$`: the regular expression written as a
 sequence of counted character classes, a matcher for such anchored patterns, and the
 plain description of the strings it accepts.
 */
module ProjectCodes {

  /** A bracket class `[lo-hi]`; a literal character `c` is `Span(c, c)`. */
  datatype CharClass = Span(lo: char, hi: char)

  /** A class repeated exactly `count` times, `[lo-hi]{count}`. */
  datatype Term = Repeat(cls: CharClass, count: nat)

  predicate InClass(c: char, cls: CharClass) {
    cls.lo <= c <= cls.hi
  }

  /** The whole of `s` matches the terms in order (the pattern is anchored by `^` and `$`). */
  predicate Matches(terms: seq<Term>, s: string)
    decreases |terms|
  {
    if terms == [] then s == []
    else
      var t := terms[0];
      t.count <= |s|
      && (forall i | 0 <= i < t.count :: InClass(s[i], t.cls))
      && Matches(terms[1..], s[t.count..])
  }

  /** The total number of characters the terms consume. */
  function Width(terms: seq<Term>): nat {
    if terms == [] then 0 else terms[0].count + Width(terms[1..])
  }

  /** An anchored pattern of counted classes only matches strings of its width. */
  lemma {:induction false} MatchHasWidth(terms: seq<Term>, s: string)
    requires Matches(terms, s)
    ensures |s| == Width(terms)
    decreases |terms|
  {
    if terms != [] {
      MatchHasWidth(terms[1..], s[terms[0].count..]);
    }
  }

  /** `/^[A-Z]{4}-[1-9]{4}$/` */
  const ProjectCodeRegex: seq<Term> :=
    [Repeat(Span('A', 'Z'), 4), Repeat(Span('-', '-'), 1), Repeat(Span('1', '9'), 4)]

  predicate IsUpperLetter(c: char) {
    'A' <= c <= 'Z'
  }

  /** A digit other than zero. */
  predicate IsCodeDigit(c: char) {
    '1' <= c <= '9'
  }

  /** Four capital letters A-Z, a hyphen, four digits 1-9, and nothing else. */
  predicate IsProjectCode(s: string) {
    |s| == 9
    && (forall i | 0 <= i < 4 :: IsUpperLetter(s[i]))
    && s[4] == '-'
    && (forall i | 5 <= i < 9 :: IsCodeDigit(s[i]))
  }

  lemma RegexAcceptsProjectCodes(s: string)
    ensures Matches(ProjectCodeRegex, s) <==> IsProjectCode(s)
  {
    var t := ProjectCodeRegex;
    if Matches(t, s) {
      MatchHasWidth(t, s);
      assert s[4..][0] == s[4];
      forall i | 5 <= i < 9 ensures IsCodeDigit(s[i]) {
        assert s[4..][1..][i - 5] == s[i];
      }
    }
    if IsProjectCode(s) {
      assert s[4..][..1] == [s[4]];
      assert Matches(t[2..], s[4..][1..]) by {
        assert s[4..][1..][4..] == [];
        forall i | 0 <= i < 4 ensures InClass(s[4..][1..][i], t[2].cls) {
          assert s[4..][1..][i] == s[i + 5];
        }
      }
    }
  }

  /** The examples the format message gives and the usual near misses. */
  lemma ProjectCodeExamples()
    ensures IsProjectCode("ABCD-1234")
    ensures !IsProjectCode("ABCD-0123") && !IsProjectCode("ABCD-0000")
    ensures !IsProjectCode("abcd-1234") && !IsProjectCode("ABC-1234")
    ensures !IsProjectCode("ABCD-12345") && !IsProjectCode("")
  {
    assert !IsCodeDigit("ABCD-0123"[5]);
    assert !IsCodeDigit("ABCD-0000"[5]);
    assert !IsUpperLetter("abcd-1234"[0]);
    assert "ABC-1234"[4] != '-';
  }
}
