/**
 * The text helpers of the intake handler's e-mail rendering: the five-character
 * HTML escaper, the identifier-to-label lookup with identity fallback, and the
 * capitalisation of the interest type.
 */
module Html {
  import opened Wrappers
  import opened JsText

  /** `s.replaceAll(c, rep)` for a one-character pattern. */
  function ReplaceChar(s: string, c: char, rep: string): (r: string)
    ensures c !in rep ==> c !in r
    ensures c !in s ==> r == s
  {
    if s == [] then [] else (if s[0] == c then rep else [s[0]]) + ReplaceChar(s[1..], c, rep)
  }

  lemma {:induction false} ReplaceCharAppend(a: string, b: string, c: char, rep: string)
    ensures ReplaceChar(a + b, c, rep) == ReplaceChar(a, c, rep) + ReplaceChar(b, c, rep)
  {
    if a != [] {
      assert (a + b)[1..] == a[1..] + b;
      ReplaceCharAppend(a[1..], b, c, rep);
    } else {
      assert a + b == b;
    }
  }

  /** `escapeHtml(input)`: the five `replaceAll` passes, '&' first. */
  function EscapeHtml(input: string): string {
    var amp := ReplaceChar(input, '&', "&amp;");
    var lt := ReplaceChar(amp, '<', "&lt;");
    var gt := ReplaceChar(lt, '>', "&gt;");
    var quot := ReplaceChar(gt, '"', "&quot;");
    ReplaceChar(quot, '\'', "&#39;")
  }

  /** The characters the escaper rewrites. */
  predicate IsSpecial(c: char) {
    c == '&' || c == '<' || c == '>' || c == '"' || c == '\''
  }

  /** The entity that stands for one character in the escaped text. */
  function EscapeChar(c: char): (e: string)
    ensures IsSpecial(c) ==> |e| > 1 && e[0] == '&'
    ensures !IsSpecial(c) ==> e == [c]
  {
    if c == '&' then "&amp;"
    else if c == '<' then "&lt;"
    else if c == '>' then "&gt;"
    else if c == '"' then "&quot;"
    else if c == '\'' then "&#39;"
    else [c]
  }

  /** Escaping character by character: the reference the five passes are compared with. */
  function EscapeEach(s: string): string {
    if s == [] then [] else EscapeChar(s[0]) + EscapeEach(s[1..])
  }

  lemma EscapeHtmlAppend(a: string, b: string)
    ensures EscapeHtml(a + b) == EscapeHtml(a) + EscapeHtml(b)
  {
    ReplaceCharAppend(a, b, '&', "&amp;");
    var a1, b1 := ReplaceChar(a, '&', "&amp;"), ReplaceChar(b, '&', "&amp;");
    ReplaceCharAppend(a1, b1, '<', "&lt;");
    var a2, b2 := ReplaceChar(a1, '<', "&lt;"), ReplaceChar(b1, '<', "&lt;");
    ReplaceCharAppend(a2, b2, '>', "&gt;");
    var a3, b3 := ReplaceChar(a2, '>', "&gt;"), ReplaceChar(b2, '>', "&gt;");
    ReplaceCharAppend(a3, b3, '"', "&quot;");
    var a4, b4 := ReplaceChar(a3, '"', "&quot;"), ReplaceChar(b3, '"', "&quot;");
    ReplaceCharAppend(a4, b4, '\'', "&#39;");
  }

  lemma ReplaceCharOne(c: char, d: char, rep: string)
    ensures ReplaceChar([c], d, rep) == if c == d then rep else [c]
  {
    assert [c][1..] == [];
  }

  lemma EscapeOneAmpersand()
    ensures EscapeHtml("&") == "&amp;"
  {
    ReplaceCharOne('&', '&', "&amp;");
    var e := "&amp;";
    assert '<' !in e && '>' !in e && '"' !in e && '\'' !in e;
  }

  lemma EscapeOneLess()
    ensures EscapeHtml("<") == "&lt;"
  {
    ReplaceCharOne('<', '&', "&amp;");
    ReplaceCharOne('<', '<', "&lt;");
    var e := "&lt;";
    assert '>' !in e && '"' !in e && '\'' !in e;
  }

  lemma EscapeOneGreater()
    ensures EscapeHtml(">") == "&gt;"
  {
    ReplaceCharOne('>', '&', "&amp;");
    ReplaceCharOne('>', '<', "&lt;");
    ReplaceCharOne('>', '>', "&gt;");
    var e := "&gt;";
    assert '"' !in e && '\'' !in e;
  }

  lemma EscapeOneQuote()
    ensures EscapeHtml("\"") == "&quot;"
  {
    ReplaceCharOne('"', '&', "&amp;");
    ReplaceCharOne('"', '<', "&lt;");
    ReplaceCharOne('"', '>', "&gt;");
    ReplaceCharOne('"', '"', "&quot;");
    var e := "&quot;";
    assert '\'' !in e;
  }

  lemma EscapeOneApostrophe()
    ensures EscapeHtml("'") == "&#39;"
  {
    ReplaceCharOne('\'', '&', "&amp;");
    ReplaceCharOne('\'', '<', "&lt;");
    ReplaceCharOne('\'', '>', "&gt;");
    ReplaceCharOne('\'', '"', "&quot;");
    ReplaceCharOne('\'', '\'', "&#39;");
  }

  lemma EscapeHtmlOneChar(c: char)
    ensures EscapeHtml([c]) == EscapeChar(c)
  {
    if c == '&' { EscapeOneAmpersand(); }
    else if c == '<' { EscapeOneLess(); }
    else if c == '>' { EscapeOneGreater(); }
    else if c == '"' { EscapeOneQuote(); }
    else if c == '\'' { EscapeOneApostrophe(); }
  }

  /** Because '&' is replaced first, the five passes never re-escape an entity they produced: they escape each character on its own. */
  lemma {:induction false} EscapeHtmlIsCharwise(s: string)
    ensures EscapeHtml(s) == EscapeEach(s)
  {
    if s != [] {
      assert s == [s[0]] + s[1..];
      EscapeHtmlAppend([s[0]], s[1..]);
      EscapeHtmlOneChar(s[0]);
      EscapeHtmlIsCharwise(s[1..]);
    }
  }

  /** None of '<', '>', '"' and '\'' survives escaping. */
  lemma {:induction false} EscapedHasNoMarkup(s: string)
    ensures forall i | 0 <= i < |EscapeHtml(s)| :: !IsMarkup(EscapeHtml(s)[i])
  {
    EscapeHtmlIsCharwise(s);
    EscapeEachHasNoMarkup(s);
  }

  predicate IsMarkup(c: char) {
    c == '<' || c == '>' || c == '"' || c == '\''
  }

  lemma {:induction false} EscapeEachHasNoMarkup(s: string)
    ensures forall i | 0 <= i < |EscapeEach(s)| :: !IsMarkup(EscapeEach(s)[i])
  {
    if s != [] {
      EscapeEachHasNoMarkup(s[1..]);
      var e, rest := EscapeChar(s[0]), EscapeEach(s[1..]);
      assert forall i | 0 <= i < |e| :: !IsMarkup(e[i]);
      assert forall i | |e| <= i < |e + rest| :: (e + rest)[i] == rest[i - |e|];
    }
  }

  /** `e` occurs in `s` at index `i`. */
  predicate OccursAt(s: string, i: nat, e: string) {
    i + |e| <= |s| && s[i..i + |e|] == e
  }

  /** The text at `i` is one of the five entities. */
  predicate EntityAt(s: string, i: nat) {
    OccursAt(s, i, "&amp;") || OccursAt(s, i, "&lt;") || OccursAt(s, i, "&gt;") || OccursAt(s, i, "&quot;") || OccursAt(s, i, "&#39;")
  }

  lemma OccursAtShift(h: string, t: string, i: nat, e: string)
    requires OccursAt(t, i, e)
    ensures OccursAt(h + t, |h| + i, e)
  {
    assert (h + t)[|h| + i..|h| + i + |e|] == t[i..i + |e|];
  }

  lemma OccursAtFront(e: string, t: string)
    ensures OccursAt(e + t, 0, e)
  {
    assert (e + t)[..|e|] == e;
  }

  lemma {:induction false} EscapeEachAmpersands(s: string)
    ensures forall i | 0 <= i < |EscapeEach(s)| && EscapeEach(s)[i] == '&' :: EntityAt(EscapeEach(s), i)
  {
    if s != [] {
      EscapeEachAmpersands(s[1..]);
      var e, rest := EscapeChar(s[0]), EscapeEach(s[1..]);
      forall i | 0 <= i < |e + rest| && (e + rest)[i] == '&'
        ensures EntityAt(e + rest, i)
      {
        if i < |e| {
          assert e[i] == '&';
          OccursAtFront(e, rest);
        } else {
          assert rest[i - |e|] == '&';
          EntityAtShift(e, rest, i - |e|);
        }
      }
    }
  }

  lemma EntityAtShift(h: string, t: string, j: nat)
    requires EntityAt(t, j)
    ensures EntityAt(h + t, |h| + j)
  {
    if OccursAt(t, j, "&amp;") { OccursAtShift(h, t, j, "&amp;"); }
    else if OccursAt(t, j, "&lt;") { OccursAtShift(h, t, j, "&lt;"); }
    else if OccursAt(t, j, "&gt;") { OccursAtShift(h, t, j, "&gt;"); }
    else if OccursAt(t, j, "&quot;") { OccursAtShift(h, t, j, "&quot;"); }
    else { OccursAtShift(h, t, j, "&#39;"); }
  }

  /** Every '&' in the escaped text begins one of the five entities. */
  lemma EscapedAmpersandsBeginEntities(s: string)
    ensures forall i | 0 <= i < |EscapeHtml(s)| && EscapeHtml(s)[i] == '&' :: EntityAt(EscapeHtml(s), i)
  {
    EscapeHtmlIsCharwise(s);
    EscapeEachAmpersands(s);
  }

  /** Decoding the five entities, read left to right. */
  function Unescape(s: string): string
    decreases |s|
  {
    if s == [] then []
    else if OccursAt(s, 0, "&amp;") then "&" + Unescape(s[5..])
    else if OccursAt(s, 0, "&lt;") then "<" + Unescape(s[4..])
    else if OccursAt(s, 0, "&gt;") then ">" + Unescape(s[4..])
    else if OccursAt(s, 0, "&quot;") then "\"" + Unescape(s[6..])
    else if OccursAt(s, 0, "&#39;") then "'" + Unescape(s[5..])
    else [s[0]] + Unescape(s[1..])
  }

  /** A text that starts with something other than '&' decodes its first character as itself. */
  lemma UnescapePlainStep(c: char, t: string)
    requires c != '&'
    ensures Unescape([c] + t) == [c] + Unescape(t)
  {
    var s := [c] + t;
    assert s[1..] == t;
    assert !OccursAt(s, 0, "&amp;") && !OccursAt(s, 0, "&lt;") && !OccursAt(s, 0, "&gt;") by {
      assert s[0] == c;
    }
    assert !OccursAt(s, 0, "&quot;") && !OccursAt(s, 0, "&#39;") by {
      assert s[0] == c;
    }
  }

  lemma UnescapeEntityStep(e: string, c: char, t: string)
    requires e in ["&amp;", "&lt;", "&gt;", "&quot;", "&#39;"]
    requires c == if e == "&amp;" then '&' else if e == "&lt;" then '<' else if e == "&gt;" then '>' else if e == "&quot;" then '"' else '\''
    ensures Unescape(e + t) == [c] + Unescape(t)
  {
    OccursAtFront(e, t);
    assert (e + t)[|e|..] == t;
    if e != "&amp;" {
      assert (e + t)[1] == e[1] != 'a';
      if e != "&lt;" {
        assert (e + t)[1] == e[1] != 'l';
        if e != "&gt;" {
          assert (e + t)[1] == e[1] != 'g';
          if e != "&quot;" {
            assert (e + t)[1] == e[1] != 'q';
          }
        }
      }
    }
  }

  lemma UnescapeStep(c: char, t: string)
    ensures Unescape(EscapeChar(c) + t) == [c] + Unescape(t)
  {
    if IsSpecial(c) {
      UnescapeEntityStep(EscapeChar(c), c, t);
    } else {
      UnescapePlainStep(c, t);
    }
  }

  lemma {:induction false} UnescapeEscapeEach(s: string)
    ensures Unescape(EscapeEach(s)) == s
  {
    if s != [] {
      UnescapeStep(s[0], EscapeEach(s[1..]));
      UnescapeEscapeEach(s[1..]);
      assert s == [s[0]] + s[1..];
    }
  }

  /** Decoding the escaped text gives back the input: escaping loses nothing. */
  lemma UnescapeInvertsEscape(s: string)
    ensures Unescape(EscapeHtml(s)) == s
  {
    EscapeHtmlIsCharwise(s);
    UnescapeEscapeEach(s);
  }

  /** Text without any of the five characters is left as it is. */
  lemma PlainTextUnchanged(s: string)
    requires forall i | 0 <= i < |s| :: !IsSpecial(s[i])
    ensures EscapeHtml(s) == s
  {
  }

  /** The label table of the entrepreneurship options. */
  const BusinessOpportunityLabels: map<string, string> := map[
    "financial_freedom" := "Financial and Time Freedom",
    "own_business" := "Owning Your Own Business (No Business Experience Required)",
    "successful_entrepreneur" := "Becoming a Successful Entrepreneur",
    "million_income" := "Million Dollar Income (Dreamer)"]

  /** The label table of the wealth-building options. */
  const WealthSolutionLabels: map<string, string> := map[
    "protection_planning" := "Protection Planning",
    "investment_planning" := "Investment Planning",
    "lifetime_income" := "Lifetime Income, Guaranteed Income Stream",
    "will_trust" := "Will & Trust (W&T), Estate Planning",
    "college_tuition" := "College Tuition Planning",
    "tax_optimization" := "Tax Optimization",
    "retirement" := "Retirement",
    "legacy" := "Legacy"]

  /**
   * `labelsFor(ids, labels)` on the string identifiers its signature declares: each identifier replaced by its label,
   * or kept when the table has none; a missing list gives []. The mail builds its list items from whatever JSON values
   * were sent, so `Register.ItemText` restates the lookup over `Value`; `Register.ItemsOfStrings` shows the two agree on strings.
   */
  function LabelsFor(ids: Option<seq<string>>, labels: map<string, string>): (r: seq<string>)
    ensures ids.None? ==> r == []
    ensures ids.Some? ==> |r| == |ids.value|
    ensures ids.Some? ==> forall i | 0 <= i < |r| :: ids.value[i] in labels ==> r[i] == labels[ids.value[i]]
    ensures ids.Some? ==> forall i | 0 <= i < |r| :: ids.value[i] !in labels ==> r[i] == ids.value[i]
  {
    match ids
    case None => []
    case Some(xs) => seq(|xs|, i requires 0 <= i < |xs| => if xs[i] in labels then labels[xs[i]] else xs[i])
  }

  /** Known identifiers all come out as labels from the table. */
  lemma KnownIdsGetLabels(ids: seq<string>, labels: map<string, string>)
    requires forall i | 0 <= i < |ids| :: ids[i] in labels
    ensures forall x | x in LabelsFor(Some(ids), labels) :: x in labels.Values
  {
    var r := LabelsFor(Some(ids), labels);
    forall x | x in r ensures x in labels.Values {
      var i :| 0 <= i < |r| && r[i] == x;
      assert labels[ids[i]] in labels.Values;
    }
  }

  /** With no identifier in the table, the labels are the identifiers themselves. */
  lemma UnknownIdsPassThrough(ids: seq<string>, labels: map<string, string>)
    requires forall i | 0 <= i < |ids| :: ids[i] !in labels
    ensures LabelsFor(Some(ids), labels) == ids
  {
  }

  /** `titleCase(x)`: "" stays "", otherwise the first character is upper-cased and the rest kept. */
  function TitleCase(x: string): (r: string)
    ensures |r| == |x|
    ensures x != [] ==> r[0] == UpperChar(x[0]) && r[1..] == x[1..]
  {
    if x == [] then x else [UpperChar(x[0])] + x[1..]
  }

  /** Capitalising twice is capitalising once. */
  lemma TitleCaseIdempotent(x: string)
    ensures TitleCase(TitleCase(x)) == TitleCase(x)
  {
  }

  /** `interestTypeFormatted`: "Both" for "both", `titleCase` of the type otherwise. The special case agrees with `titleCase`, so the result is `titleCase` of the type for every input. */
  function InterestTypeFormatted(interestType: string): (r: string)
    ensures r == TitleCase(interestType)
    ensures |r| == |interestType|
  {
    assert TitleCase("both") == "Both";
    if interestType == "both" then "Both" else TitleCase(interestType)
  }

  /** The three offered interest types as the confirmation e-mail shows them. */
  lemma FormattedEntrepreneurship()
    ensures InterestTypeFormatted("entrepreneurship") == "Entrepreneurship"
  {
    var x := "entrepreneurship";
    assert UpperChar(x[0]) == 'E';
    assert [UpperChar(x[0])] + x[1..] == "Entrepreneurship";
  }

  lemma FormattedClient()
    ensures InterestTypeFormatted("client") == "Client"
    ensures InterestTypeFormatted("both") == "Both"
  {
    var x := "client";
    assert UpperChar(x[0]) == 'C';
    assert [UpperChar(x[0])] + x[1..] == "Client";
  }
}
