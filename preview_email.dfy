/**
 * The automate-page preview (`renderContent` and the displayed recipient):
 * each mapping entry's literal `{{placeholder}}` token is replaced, in
 * entry order, by the first CSV row's value for the mapped column.
 */
module PreviewEmail {
  import opened Wrappers
  import opened Text
  import opened Seqs
  import opened Records
  import opened Types
  import Email

  /** The literal token `{{placeholder}}` the regular expression matches. */
  function TokenFor(placeholder: string): (t: string)
    ensures |t| == |placeholder| + 4
    ensures t[0] == '{' && t[1] == '{' && t[|t| - 2] == '}' && t[|t| - 1] == '}'
    ensures forall k :: 2 <= k < |t| - 2 ==> t[k] == placeholder[k - 2]
  {
    "{{" + placeholder + "}}"
  }

  /**
   * `s.replace(new RegExp(pat, 'g'), v)` for a pattern without regular
   * expression metacharacters: occurrences are found left to right and
   * replaced without overlapping.
   */
  function ReplaceAll(s: string, pat: string, v: string): string
    requires |pat| > 0
    decreases |s|
  {
    if |s| < |pat| then s
    else if s[..|pat|] == pat then v + ReplaceAll(s[|pat|..], pat, v)
    else [s[0]] + ReplaceAll(s[1..], pat, v)
  }

  /** Text in which the pattern does not occur comes back unchanged. */
  lemma {:induction false} NoOccurrenceUnchanged(s: string, pat: string, v: string)
    requires |pat| > 0 && !Contains(s, pat)
    ensures ReplaceAll(s, pat, v) == s
  {
    if |s| >= |pat| {
      assert !OccursAt(s, pat, 0);
      assert !Contains(s[1..], pat) by {
        forall i | 0 <= i <= |s[1..]| - |pat| ensures !OccursAt(s[1..], pat, i) {
          assert !OccursAt(s, pat, i + 1);
          assert s[1..][i..i + |pat|] == s[i + 1..i + 1 + |pat|];
        }
      }
      NoOccurrenceUnchanged(s[1..], pat, v);
      assert s == [s[0]] + s[1..];
    }
  }

  /** Replacing the pattern by itself changes nothing. */
  lemma {:induction false} ReplaceBySelf(s: string, pat: string)
    requires |pat| > 0
    ensures ReplaceAll(s, pat, pat) == s
  {
    if |s| >= |pat| {
      if s[..|pat|] == pat {
        ReplaceBySelf(s[|pat|..], pat);
        assert s == s[..|pat|] + s[|pat|..];
      } else {
        ReplaceBySelf(s[1..], pat);
        assert s == [s[0]] + s[1..];
      }
    }
  }

  /** Text holding no first character of the pattern is copied, then the pattern is replaced. */
  lemma {:induction false} ReplaceAfterPlain(before: string, pat: string, after: string, v: string)
    requires |pat| > 0 && pat[0] !in before
    ensures ReplaceAll(before + pat + after, pat, v) == before + v + ReplaceAll(after, pat, v)
  {
    if |before| == 0 {
      assert before + pat + after == pat + after;
      ReplaceAtStart(pat, after, v);
    } else {
      var c, rest := before[0], before[1..];
      ConsConcat(before, pat, after);
      ReplaceSkip(c, rest + pat + after, pat, v);
      ReplaceAfterPlain(rest, pat, after, v);
      ConsConcat(before, v, ReplaceAll(after, pat, v));
    }
  }

  /** A pattern at the start is replaced and the scan goes on after it. */
  lemma ReplaceAtStart(pat: string, after: string, v: string)
    requires |pat| > 0
    ensures ReplaceAll(pat + after, pat, v) == v + ReplaceAll(after, pat, v)
  {
    var s := pat + after;
    assert s[..|pat|] == pat;
    assert s[|pat|..] == after;
  }

  /** A first character that cannot start the pattern is copied. */
  lemma ReplaceSkip(c: char, rest: string, pat: string, v: string)
    requires |pat| > 0 && c != pat[0] && |rest| + 1 >= |pat|
    ensures ReplaceAll([c] + rest, pat, v) == [c] + ReplaceAll(rest, pat, v)
  {
    var s := [c] + rest;
    assert s[..|pat|][0] == c;
    assert s[1..] == rest;
  }

  /** No brace in the text: true of every name `extractPlaceholders` returns. */
  predicate BraceFree(s: string) {
    '{' !in s && '}' !in s
  }

  /**
   * The last `i` characters of `a` followed by the first `|pat| - i` of `c`
   * spell `pat`: an occurrence across the border between the two.
   */
  predicate StraddlesAt(a: string, c: string, pat: string, i: int) {
    0 < i < |pat| && i <= |a| && |pat| - i <= |c| && a[|a| - i..] + c[..|pat| - i] == pat
  }

  /** No occurrence of `pat` in `a + c` crosses the border between `a` and `c`. */
  ghost predicate NoStraddle(a: string, c: string, pat: string) {
    forall i :: !StraddlesAt(a, c, pat, i)
  }

  /** Dropping characters from the front of `a` keeps the border free of occurrences. */
  lemma NoStraddleSuffix(a: string, k: nat, c: string, pat: string)
    requires k <= |a| && NoStraddle(a, c, pat)
    ensures NoStraddle(a[k..], c, pat)
  {
    forall i ensures !StraddlesAt(a[k..], c, pat, i) {
      assert !StraddlesAt(a, c, pat, i);
      if 0 < i <= |a| - k {
        assert a[k..][|a| - k - i..] == a[|a| - i..];
      }
    }
  }

  /** When no occurrence crosses the border, replacing in a concatenation replaces in each part. */
  lemma {:induction false} ReplaceConcat(a: string, c: string, pat: string, v: string)
    requires |pat| > 0 && NoStraddle(a, c, pat)
    ensures ReplaceAll(a + c, pat, v) == ReplaceAll(a, pat, v) + ReplaceAll(c, pat, v)
    decreases |a|
  {
    var s := a + c;
    if |a| == 0 {
      assert s == c;
    } else if |s| < |pat| {
      assert ReplaceAll(a, pat, v) == a && ReplaceAll(c, pat, v) == c;
    } else {
      if |pat| > |a| {
        assert !StraddlesAt(a, c, pat, |a|);
        assert a[|a| - |a|..] == a;
        assert s[..|pat|] == a + c[..|pat| - |a|];
      }
      if s[..|pat|] == pat {
        assert a[..|pat|] == pat;
        assert s[|pat|..] == a[|pat|..] + c;
        NoStraddleSuffix(a, |pat|, c, pat);
        ReplaceConcat(a[|pat|..], c, pat, v);
        ConsConcatAll(v, ReplaceAll(a[|pat|..], pat, v), ReplaceAll(c, pat, v));
      } else {
        assert s[1..] == a[1..] + c;
        NoStraddleSuffix(a, 1, c, pat);
        ReplaceConcat(a[1..], c, pat, v);
        if |a| >= |pat| {
          assert a[..|pat|] == s[..|pat|];
        } else {
          assert ReplaceAll(a[1..], pat, v) == a[1..];
          assert a == [a[0]] + a[1..];
        }
        ConsConcatAll([s[0]], ReplaceAll(a[1..], pat, v), ReplaceAll(c, pat, v));
      }
    }
  }

  /** Concatenation is associative (stated for the three parts used above). */
  lemma ConsConcatAll(x: string, y: string, z: string)
    ensures x + (y + z) == (x + y) + z
  {
  }

  /** Characters of a token after its opening braces: none is `{` when the placeholder holds none. */
  lemma TokenTailNoOpen(placeholder: string, k: int)
    requires '{' !in placeholder && 2 <= k < |TokenFor(placeholder)|
    ensures TokenFor(placeholder)[k] != '{'
  {
    var t := TokenFor(placeholder);
    if k < |t| - 2 {
      assert t[k] == placeholder[k - 2];
    }
  }

  /**
   * Text that starts with `{{` cannot complete an occurrence of a token
   * begun before it: a token holds `{` only at its first two places.
   */
  lemma OpenBracesBlockStraddle(a: string, c: string, placeholder: string)
    requires |c| >= 2 && c[0] == '{' && c[1] == '{' && '{' !in placeholder
    ensures NoStraddle(a, c, TokenFor(placeholder))
  {
    var pat := TokenFor(placeholder);
    forall i ensures !StraddlesAt(a, c, pat, i) {
      if 0 < i < |pat| && i <= |a| && |pat| - i <= |c| {
        var w := a[|a| - i..] + c[..|pat| - i];
        assert w[i] == '{';
        if i == 1 {
          assert w[2] == '{';
          TokenTailNoOpen(placeholder, 2);
          assert w[2] != pat[2];
        } else {
          TokenTailNoOpen(placeholder, i);
          assert w[i] != pat[i];
        }
      }
    }
  }

  /**
   * Every occurrence of a mapped token becomes the value, wherever it
   * stands: the text on either side is replaced on its own.
   */
  lemma TokenReplaced(before: string, placeholder: string, after: string, v: string)
    requires '{' !in placeholder
    ensures ReplaceAll(before + TokenFor(placeholder) + after, TokenFor(placeholder), v)
            == ReplaceAll(before, TokenFor(placeholder), v) + v + ReplaceAll(after, TokenFor(placeholder), v)
  {
    var pat := TokenFor(placeholder);
    assert before + pat + after == before + (pat + after);
    OpenBracesBlockStraddle(before, pat + after, placeholder);
    ReplaceConcat(before, pat + after, pat, v);
    ReplaceAtStart(pat, after, v);
  }

  /** A token of another brace-free name holds no occurrence of a token and ends none. */
  lemma OtherTokenNoMatch(other: string, placeholder: string, after: string)
    requires BraceFree(other) && BraceFree(placeholder) && other != placeholder
    ensures !Contains(TokenFor(other), TokenFor(placeholder))
    ensures NoStraddle(TokenFor(other), after, TokenFor(placeholder))
  {
    var t, pat := TokenFor(other), TokenFor(placeholder);
    forall j | 0 <= j <= |t| - |pat| ensures !OccursAt(t, pat, j) {
      if j == 0 {
        if |pat| == |t| {
          assert exists k :: 0 <= k < |other| && other[k] != placeholder[k];
          var k :| 0 <= k < |other| && other[k] != placeholder[k];
          assert t[..|pat|][k + 2] != pat[k + 2];
        } else {
          var k := |placeholder| + 2;
          assert t[k] == other[|placeholder|] && pat[k] == '}';
          assert t[..|pat|][k] != pat[k];
        }
      } else if j == 1 {
        assert t[2] != '{';
        assert t[j..j + |pat|][1] != pat[1];
      } else {
        TokenTailNoOpen(other, j);
        assert t[j..j + |pat|][0] != pat[0];
      }
    }
    forall i ensures !StraddlesAt(t, after, pat, i) {
      if 0 < i < |pat| && i <= |t| && |pat| - i <= |after| {
        var w := t[|t| - i..] + after[..|pat| - i];
        if i == |t| {
          var k := |other| + 2;
          assert w[k] == '}' && pat[k] == placeholder[|other|];
        } else if i == |t| - 1 {
          assert w[1] == t[2] && t[2] != '{';
        } else {
          TokenTailNoOpen(other, |t| - i);
          assert w[0] != pat[0];
        }
      }
    }
  }

  /** Replacing one token leaves a token of another brace-free name as written, wherever it stands. */
  lemma OtherTokenKept(before: string, other: string, after: string, placeholder: string, v: string)
    requires BraceFree(other) && BraceFree(placeholder) && other != placeholder
    ensures ReplaceAll(before + TokenFor(other) + after, TokenFor(placeholder), v)
            == ReplaceAll(before, TokenFor(placeholder), v) + TokenFor(other) + ReplaceAll(after, TokenFor(placeholder), v)
  {
    var t, pat := TokenFor(other), TokenFor(placeholder);
    assert before + t + after == before + (t + after);
    OpenBracesBlockStraddle(before, t + after, placeholder);
    ReplaceConcat(before, t + after, pat, v);
    OtherTokenFirst(other, after, placeholder, v);
  }

  /** Text starting with a token of another brace-free name keeps that token and is replaced after it. */
  lemma OtherTokenFirst(other: string, after: string, placeholder: string, v: string)
    requires BraceFree(other) && BraceFree(placeholder) && other != placeholder
    ensures ReplaceAll(TokenFor(other) + after, TokenFor(placeholder), v)
            == TokenFor(other) + ReplaceAll(after, TokenFor(placeholder), v)
  {
    var t, pat := TokenFor(other), TokenFor(placeholder);
    OtherTokenNoMatch(other, placeholder, after);
    ReplaceConcat(t, after, pat, v);
    NoOccurrenceUnchanged(t, pat, v);
  }

  /** The token with a space inside each pair of braces, `{{ p }}`. */
  function SpacedToken(placeholder: string): string {
    "{{ " + placeholder + " }}"
  }

  /** A spaced token is not the literal token of its placeholder, so it is left verbatim. */
  lemma SpacedTokenKept(placeholder: string, v: string)
    ensures ReplaceAll(SpacedToken(placeholder), TokenFor(placeholder), v) == SpacedToken(placeholder)
  {
    var s := SpacedToken(placeholder);
    var pat := TokenFor(placeholder);
    assert !Contains(s, pat) by {
      // `s` is two characters longer than `pat`: only offsets 0, 1 and 2 fit.
      forall i | 0 <= i <= |s| - |pat| ensures !OccursAt(s, pat, i) {
        var last := |pat| - 1;
        if i == 0 {
          assert s[last] == ' ' && pat[last] == '}';
          assert s[i..i + |pat|][last] != pat[last];
        } else {
          assert s[2] == ' ';
          assert s[i..i + |pat|][2 - i] != pat[2 - i];
        }
      }
    }
    NoOccurrenceUnchanged(s, pat, v);
  }

  /** `previewData[csvField] || ''`. */
  function ValueFor(previewData: Record<string>, csvField: string): string {
    match Lookup(previewData, csvField)
    case Some(value) => value
    case None => ""
  }

  /** The content after substituting the given mapping entries, first to last. */
  function Rendered(content: string, entries: Record<string>, previewData: Record<string>): string {
    if |entries| == 0 then content
    else
      var (placeholder, csvField) := entries[|entries| - 1];
      ReplaceAll(Rendered(content, entries[..|entries| - 1], previewData), TokenFor(placeholder),
                 ValueFor(previewData, csvField))
  }

  /**
   * `renderContent()`: `''` without a template; otherwise the template's
   * content with every mapping entry substituted in entry order, and the
   * content untouched when there are no mappings.
   */
  method RenderContent(template: Option<Template>, previewData: Record<string>, fieldMappings: Record<string>)
    returns (content: string)
    ensures template.None? ==> content == ""
    ensures template.Some? ==> content == Rendered(template.value.content, fieldMappings, previewData)
    ensures template.Some? && fieldMappings == [] ==> content == template.value.content
  {
    if template.None? {
      return "";
    }
    content := template.value.content;
    for n := 0 to |fieldMappings|
      invariant content == Rendered(template.value.content, fieldMappings[..n], previewData)
    {
      var (placeholder, csvField) := fieldMappings[n];
      var value := ValueFor(previewData, csvField);
      assert fieldMappings[..n + 1][..n] == fieldMappings[..n];
      content := ReplaceAll(content, TokenFor(placeholder), value);
    }
    assert fieldMappings[..|fieldMappings|] == fieldMappings;
  }

  /** Content holding none of the mapped tokens is shown as it is. */
  lemma {:induction false} UnmappedTokensKept(content: string, entries: Record<string>, previewData: Record<string>)
    requires forall n :: 0 <= n < |entries| ==> !Contains(content, TokenFor(entries[n].0))
    ensures Rendered(content, entries, previewData) == content
  {
    if |entries| > 0 {
      var prefix := entries[..|entries| - 1];
      UnmappedTokensKept(content, prefix, previewData);
      var (placeholder, csvField) := entries[|entries| - 1];
      NoOccurrenceUnchanged(content, TokenFor(placeholder), ValueFor(previewData, csvField));
    }
  }

  /** Every mapped placeholder is free of braces. */
  predicate BraceFreeKeys(entries: Record<string>) {
    forall n :: 0 <= n < |entries| ==> BraceFree(entries[n].0)
  }

  /**
   * A token whose brace-free name no entry maps stays as written wherever it
   * stands, and the text on either side is rendered on its own.
   */
  lemma {:induction false} UnmappedTokenStays(before: string, other: string, after: string,
                                              entries: Record<string>, previewData: Record<string>)
    requires BraceFree(other) && BraceFreeKeys(entries)
    requires forall n :: 0 <= n < |entries| ==> entries[n].0 != other
    ensures Rendered(before + TokenFor(other) + after, entries, previewData)
            == Rendered(before, entries, previewData) + TokenFor(other) + Rendered(after, entries, previewData)
  {
    if |entries| > 0 {
      var prefix := entries[..|entries| - 1];
      var (placeholder, csvField) := entries[|entries| - 1];
      UnmappedTokenStays(before, other, after, prefix, previewData);
      OtherTokenKept(Rendered(before, prefix, previewData), other, Rendered(after, prefix, previewData),
                     placeholder, ValueFor(previewData, csvField));
    }
  }

  /** Rendering with two runs of entries is rendering with the first run, then the second. */
  lemma {:induction false} RenderedConcat(content: string, first: Record<string>, second: Record<string>,
                                          previewData: Record<string>)
    ensures Rendered(content, first + second, previewData) == Rendered(Rendered(content, first, previewData), second, previewData)
  {
    if |second| > 0 {
      var all := first + second;
      assert all[..|all| - 1] == first + second[..|second| - 1];
      assert all[|all| - 1] == second[|second| - 1];
      RenderedConcat(content, first, second[..|second| - 1], previewData);
    } else {
      assert first + second == first;
    }
  }

  /**
   * Every occurrence of a mapped token becomes its value, wherever it
   * stands: the entries before its own leave it as written, its own entry
   * puts the value in with the text on either side rendered on its own,
   * and the later entries then apply to the whole.
   */
  lemma MappedTokenSubstituted(before: string, after: string, entries: Record<string>,
                               previewData: Record<string>, k: nat)
    requires k < |entries| && BraceFreeKeys(entries)
    requires forall n :: 0 <= n < k ==> entries[n].0 != entries[k].0
    ensures var placeholder := entries[k].0;
            var done := entries[..k + 1];
            Rendered(before + TokenFor(placeholder) + after, entries, previewData)
            == Rendered(Rendered(before, done, previewData) + ValueFor(previewData, entries[k].1)
                        + Rendered(after, done, previewData), entries[k + 1..], previewData)
  {
    var done := entries[..k + 1];
    var content := before + TokenFor(entries[k].0) + after;
    OwnEntrySubstitutes(before, after, done, previewData);
    assert entries == done + entries[k + 1..];
    RenderedConcat(content, done, entries[k + 1..], previewData);
  }

  /** Right after the last entry, the first to map its placeholder, its token holds the value. */
  lemma OwnEntrySubstitutes(before: string, after: string, done: Record<string>, previewData: Record<string>)
    requires |done| > 0 && BraceFreeKeys(done)
    requires forall n :: 0 <= n < |done| - 1 ==> done[n].0 != done[|done| - 1].0
    ensures Rendered(before + TokenFor(done[|done| - 1].0) + after, done, previewData)
            == Rendered(before, done, previewData) + ValueFor(previewData, done[|done| - 1].1) + Rendered(after, done, previewData)
  {
    var (placeholder, csvField) := done[|done| - 1];
    var earlier := done[..|done| - 1];
    UnmappedTokenStays(before, placeholder, after, earlier, previewData);
    TokenReplaced(Rendered(before, earlier, previewData), placeholder, Rendered(after, earlier, previewData),
                  ValueFor(previewData, csvField));
  }

  /**
   * Substitution is sequential: when the value put in for an earlier entry
   * is a later entry's token, that token is replaced too.
   */
  lemma ChainedSubstitution(a: string, columnA: string, b: string, columnB: string,
                            previewData: Record<string>, w: string)
    requires ValueFor(previewData, columnA) == TokenFor(b)
    requires ValueFor(previewData, columnB) == w
    ensures Rendered(TokenFor(a), [(a, columnA), (b, columnB)], previewData) == w
  {
    var entries := [(a, columnA), (b, columnB)];
    ReplaceAfterPlain("", TokenFor(a), "", TokenFor(b));
    assert "" + TokenFor(a) + "" == TokenFor(a);
    ReplaceAfterPlain("", TokenFor(b), "", w);
    assert "" + TokenFor(b) + "" == TokenFor(b);
    assert entries[..1] == [(a, columnA)];
    assert entries[..1][..0] == [];
    assert Rendered(TokenFor(a), [], previewData) == TokenFor(a);
    assert Rendered(TokenFor(a), entries[..1], previewData) == ReplaceAll(TokenFor(a), TokenFor(a), TokenFor(b));
    assert Rendered(TokenFor(a), entries[..1], previewData) == TokenFor(b);
  }

  /**
   * The displayed recipient: `previewData['email'] || previewData['email_address']
   * || previewData['Email'] || previewData['EMAIL'] || 'Recipient'`.
   */
  function RecipientLabel(previewData: Record<string>): (r: string)
    ensures r != ""
  {
    var email := ValueFor(previewData, "email");
    if email != "" then email
    else
      var emailAddress := ValueFor(previewData, "email_address");
      if emailAddress != "" then emailAddress
      else
        var capitalised := ValueFor(previewData, "Email");
        if capitalised != "" then capitalised
        else
          var upper := ValueFor(previewData, "EMAIL");
          if upper != "" then upper else "Recipient"
  }

  /** The preview row as the cells `createEmailRequest` reads. */
  function AsRow(previewData: Record<string>): (row: Email.Row)
    ensures Keys(row) == Keys(previewData)
    ensures forall n :: 0 <= n < |row| ==> row[n] == (previewData[n].0, Email.Str(previewData[n].1))
  {
    seq(|previewData|, n requires 0 <= n < |previewData| => (previewData[n].0, Email.Str(previewData[n].1)))
  }

  /**
   * The preview shows the same address the request sends to, taken by the
   * same priority list as `getEmailFromRow`, except that with none it shows
   * 'Recipient' where the request would use ''.
   */
  lemma RecipientLabelMatchesRequest(previewData: Record<string>)
    ensures RecipientLabel(previewData) == Email.FirstTruthy(AsRow(previewData), Email.EmailFields, "Recipient")
  {
    var row := AsRow(previewData);
    AsRowCells(previewData);
    var fields := Email.EmailFields;
    assert fields[0] == "email" && fields[1] == "email_address" && fields[2] == "Email" && fields[3] == "EMAIL";
    if Email.TruthyAt(row, fields[0]) {
      Email.FirstTruthyPriority(row, fields, "Recipient", 0);
    } else if Email.TruthyAt(row, fields[1]) {
      Email.FirstTruthyPriority(row, fields, "Recipient", 1);
    } else if Email.TruthyAt(row, fields[2]) {
      Email.FirstTruthyPriority(row, fields, "Recipient", 2);
    } else if Email.TruthyAt(row, fields[3]) {
      Email.FirstTruthyPriority(row, fields, "Recipient", 3);
    } else {
      Email.FirstTruthyFallback(row, fields, "Recipient");
    }
  }

  /** A cell of the preview data, read as a CSV row, is truthy exactly when its value is non-empty, and prints as that value. */
  lemma AsRowCells(previewData: Record<string>)
    ensures forall k :: Email.TruthyAt(AsRow(previewData), k) <==> ValueFor(previewData, k) != ""
    ensures forall k :: Email.TruthyAt(AsRow(previewData), k) ==>
      Email.Stringify(Lookup(AsRow(previewData), k).value) == ValueFor(previewData, k)
  {
    var row := AsRow(previewData);
    forall k ensures Lookup(row, k) == (match Lookup(previewData, k) case Some(v) => Some(Email.Str(v)) case None => None) {
      if k in Keys(previewData) {
        assert row[IndexOf(Keys(row), k)] == (k, Email.Str(Lookup(previewData, k).value));
      }
    }
  }

}
