/**
 * The e-mail check shared, character for character, by the form and by the intake
 * handler: the regular expression `^[^\s@]+@[^\s@]+\.[^\s@]+$` tested against the
 * trimmed text. It is a loose shape check, not the addr-spec grammar of RFC 5322.
 */
module Email {
  import opened JsText

  /** `[^\s@]`: any character that is neither whitespace nor '@'. */
  predicate IsPartChar(c: char) {
    !IsSpace(c) && c != '@'
  }

  predicate AllPartChars(s: string) {
    forall i | 0 <= i < |s| :: IsPartChar(s[i])
  }

  /** `[^\s@]+\.[^\s@]+`: part characters only, with a dot that has a part character on each side. */
  predicate MatchesDomain(d: string) {
    AllPartChars(d) && exists k | 1 <= k < |d| - 1 :: d[k] == '.'
  }

  /** `^[^\s@]+@[^\s@]+\.[^\s@]+$`: a non-empty local part, one '@', then a domain. */
  predicate MatchesPattern(t: string) {
    exists p | 0 < p < |t| :: t[p] == '@' && AllPartChars(t[..p]) && MatchesDomain(t[p + 1..])
  }

  /** `isValidEmail(email)` on a string: the pattern tested against `email.trim()`. */
  predicate IsValidEmail(email: string) {
    MatchesPattern(Trim(email))
  }

  /** A non-empty run of `[^\s@]`. */
  ghost predicate IsPart(s: string) {
    s != [] && AllPartChars(s)
  }

  /** The shape the pattern describes: `L "@" X "." Y` with L, X and Y each non-empty and free of whitespace and '@'. */
  ghost predicate HasEmailShape(t: string) {
    exists l, x, y {:trigger IsPart(l), IsPart(x), IsPart(y)} :: IsPart(l) && IsPart(x) && IsPart(y) && t == l + ['@'] + x + ['.'] + y
  }

  lemma AllPartCharsConcat(a: string, b: string)
    requires AllPartChars(a) && AllPartChars(b)
    ensures AllPartChars(a + b)
  {
    assert forall i | 0 <= i < |a + b| :: (a + b)[i] == if i < |a| then a[i] else b[i - |a|];
  }

  lemma AllPartCharsSlice(s: string, a: nat, b: nat)
    requires AllPartChars(s) && a <= b <= |s|
    ensures AllPartChars(s[a..b])
  {
    assert forall i | 0 <= i < b - a :: s[a..b][i] == s[a + i];
  }

  /** Cutting `t` at its '@' (index p) and at a dot of the domain (index k within it). */
  lemma SplitAtAtAndDot(t: string, p: nat, k: nat)
    requires p < |t| && t[p] == '@'
    requires k < |t| - p - 1 && t[p + 1..][k] == '.'
    ensures t == t[..p] + ['@'] + t[p + 1..][..k] + ['.'] + t[p + 1..][k + 1..]
  {
    var d := t[p + 1..];
    assert d == d[..k] + ['.'] + d[k + 1..];
    assert t == t[..p] + ['@'] + d;
  }

  lemma PatternGivesShape(t: string)
    requires MatchesPattern(t)
    ensures HasEmailShape(t)
  {
    var p :| 0 < p < |t| && t[p] == '@' && AllPartChars(t[..p]) && MatchesDomain(t[p + 1..]);
    var d := t[p + 1..];
    var k :| 1 <= k < |d| - 1 && d[k] == '.';
    SplitAtAtAndDot(t, p, k);
    AllPartCharsSlice(d, 0, k);
    AllPartCharsSlice(d, k + 1, |d|);
    assert IsPart(t[..p]) && IsPart(d[..k]) && IsPart(d[k + 1..]);
  }

  lemma ShapeGivesPattern(t: string)
    requires HasEmailShape(t)
    ensures MatchesPattern(t)
  {
    var l, x, y :| IsPart(l) && IsPart(x) && IsPart(y) && t == l + ['@'] + x + ['.'] + y;
    var p := |l|;
    var d := x + ['.'] + y;
    assert t == l + ['@'] + d;
    assert t[..p] == l && t[p] == '@' && t[p + 1..] == d;
    AllPartCharsConcat(x, ['.']);
    AllPartCharsConcat(x + ['.'], y);
    assert d[|x|] == '.';
    assert MatchesDomain(d);
  }

  /** The hand-written matcher accepts exactly the strings of the form `L "@" X "." Y`. */
  lemma MatchesPatternIffShape(t: string)
    ensures MatchesPattern(t) <==> HasEmailShape(t)
  {
    if MatchesPattern(t) { PatternGivesShape(t); }
    if HasEmailShape(t) { ShapeGivesPattern(t); }
  }

  /** Surrounding whitespace never changes the verdict. */
  lemma ValidityIgnoresSurroundingSpace(email: string)
    ensures IsValidEmail(Trim(email)) == IsValidEmail(email)
  {
    TrimIdempotent(email);
  }

  /** A valid address is never blank and never empty. */
  lemma ValidEmailIsNotBlank(email: string)
    requires IsValidEmail(email)
    ensures email != [] && !IsBlank(email)
  {
  }

  /** Whatever the pattern accepts has no whitespace and exactly one '@'. */
  lemma PatternHasOneAtNoSpace(t: string)
    requires MatchesPattern(t)
    ensures '@' in t
    ensures forall i | 0 <= i < |t| :: !IsSpace(t[i])
    ensures forall i, j | 0 <= i < j < |t| && t[i] == '@' :: t[j] != '@'
  {
    var p :| 0 < p < |t| && t[p] == '@' && AllPartChars(t[..p]) && MatchesDomain(t[p + 1..]);
    forall i | 0 <= i < |t|
      ensures !IsSpace(t[i])
      ensures t[i] == '@' ==> i == p
    {
      if i < p { assert t[..p][i] == t[i]; }
      else if i > p { assert t[p + 1..][i - p - 1] == t[i]; }
    }
  }

  /** "abc" has no '@' and is rejected. */
  lemma RejectsWithoutAt()
    ensures !IsValidEmail("abc")
  {
    TrimmedIsFixpoint("abc");
  }

  /** "a@b" has no dot after the '@' and is rejected. */
  lemma RejectsWithoutDot()
    ensures !IsValidEmail("a@b")
  {
    TrimmedIsFixpoint("a@b");
  }

  /** "a@b.co" is accepted. */
  lemma AcceptsSimpleAddress()
    ensures IsValidEmail("a@b.co")
  {
    var t := "a@b.co";
    TrimmedIsFixpoint(t);
    assert t[..1] == "a" && t[2..] == "b.co";
    assert MatchesDomain("b.co") by {
      assert "b.co"[1] == '.';
    }
    assert t[1] == '@';
  }

  /** Two '@' characters anywhere reject the text. */
  lemma TwoAtsRejected(t: string, i: nat, j: nat)
    requires i < j < |t| && t[i] == '@' && t[j] == '@'
    ensures !MatchesPattern(t)
  {
    if MatchesPattern(t) {
      PatternHasOneAtNoSpace(t);
    }
  }

  /** A whitespace character anywhere in the trimmed text rejects it. */
  lemma SpaceRejected(t: string, i: nat)
    requires i < |t| && IsSpace(t[i])
    ensures !MatchesPattern(t)
  {
    if MatchesPattern(t) {
      PatternHasOneAtNoSpace(t);
    }
  }

  /** A second '@' is rejected. */
  lemma RejectsSecondAt()
    ensures !IsValidEmail("a@b@c.co")
  {
    var t := "a@b@c.co";
    assert IsTrimmed(t) && t[1] == '@' && t[3] == '@';
    TrimmedIsFixpoint(t);
    TwoAtsRejected(t, 1, 3);
  }

  /** An embedded space is rejected. */
  lemma RejectsEmbeddedSpace()
    ensures !IsValidEmail("a@b.c d")
  {
    TrimmedIsFixpoint("a@b.c d");
    SpaceRejected("a@b.c d", 5);
  }

  /** A trailing space is trimmed away before the test, so "a@b.c " is accepted. */
  lemma AcceptsTrailingSpace()
    ensures IsValidEmail("a@b.c ")
  {
    var t := "a@b.c";
    assert t == "a" + ['@'] + "b" + ['.'] + "c";
    assert IsPart("a") && IsPart("b") && IsPart("c");
    ShapeGivesPattern(t);
    assert "a@b.c " == [] + t + " ";
    TrimSurrounded([], t, " ");
  }
}
