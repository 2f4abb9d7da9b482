/**
 * Placeholder extraction (`extractPlaceholders`): the tokens matched by the
 * global regular expression `{{([^}]+)}}`, stripped of every brace, trimmed
 * and de-duplicated by first occurrence.
 */
module Template {
  import opened Wrappers
  import opened Text
  import opened Seqs

  /** A whole match of `{{([^}]+)}}`: two opening braces, at least one non-`}`, two closing braces. */
  predicate IsToken(t: string) {
    |t| >= 5 && t[0] == '{' && t[1] == '{' && t[|t| - 2] == '}' && t[|t| - 1] == '}'
    && forall m :: 2 <= m < |t| - 2 ==> t[m] != '}'
  }

  /** Index of the first `}` at or after `k`, or `|s|` when there is none. */
  function CloseFrom(s: string, k: nat): (j: nat)
    requires k <= |s|
    ensures k <= j <= |s|
    ensures j < |s| ==> s[j] == '}'
    ensures forall m :: k <= m < j ==> s[m] != '}'
    decreases |s| - k
  {
    if k == |s| || s[k] == '}' then k else CloseFrom(s, k + 1)
  }

  /**
   * Where the regular expression, tried at index `i`, ends its match:
   * `[^}]+` runs greedily up to the first `}`, which must be followed by a
   * second `}`. A token starts at `i` exactly when this gives its end.
   */
  function MatchAt(s: string, i: nat): (r: Option<nat>)
    requires i <= |s|
    ensures r.Some? ==> i < r.value <= |s| && IsToken(s[i..r.value])
    ensures forall e :: i < e <= |s| && IsToken(s[i..e]) ==> r == Some(e)
  {
    TokensAreRegexMatches(s, i);
    if i + 2 <= |s| && s[i] == '{' && s[i + 1] == '{' then
      var j := CloseFrom(s, i + 2);
      if j > i + 2 && j + 1 < |s| && s[j + 1] == '}' then
        var t := s[i..j + 2];
        forall m | 2 <= m < |t| - 2 ensures t[m] != '}' {
          assert t[m] == s[i + m];
        }
        Some(j + 2)
      else
        None
    else
      None
  }

  /** A token at `s[i..e]` is what the greedy run to the first `}` finds. */
  lemma TokensAreRegexMatches(s: string, i: nat)
    requires i <= |s|
    ensures forall e :: i < e <= |s| && IsToken(s[i..e]) ==>
      i + 2 <= |s| && s[i] == '{' && s[i + 1] == '{' && CloseFrom(s, i + 2) == e - 2
      && e - 2 > i + 2 && s[e - 1] == '}'
  {
    forall e | i < e <= |s| && IsToken(s[i..e])
      ensures i + 2 <= |s| && s[i] == '{' && s[i + 1] == '{' && CloseFrom(s, i + 2) == e - 2
    {
      var t := s[i..e];
      assert t[0] == s[i] && t[1] == s[i + 1] && t[|t| - 2] == s[e - 2];
      assert forall m :: i + 2 <= m < e - 2 ==> s[m] == t[m - i];
    }
  }

  /** The matches of the global scan from index `i` on, left to right and without overlap. */
  function Scan(s: string, i: nat): (r: seq<string>)
    requires i <= |s|
    ensures forall k :: 0 <= k < |r| ==> IsToken(r[k])
    decreases |s| - i
  {
    if i == |s| then []
    else
      match MatchAt(s, i)
      case Some(e) => [s[i..e]] + Scan(s, e)
      case None => Scan(s, i + 1)
  }

  /** `content.match(/{{([^}]+)}}/g) || []`. */
  function Matches(content: string): seq<string> {
    Scan(content, 0)
  }

  /** `match.replace(/[{}]/g, '')`. */
  function RemoveBraces(t: string): (r: string)
    ensures '{' !in r && '}' !in r
  {
    if |t| == 0 then ""
    else (if t[0] == '{' || t[0] == '}' then "" else [t[0]]) + RemoveBraces(t[1..])
  }

  /** The placeholder name a matched token stands for. */
  function TokenName(t: string): (r: string)
    ensures IsTrimmed(r) && '{' !in r && '}' !in r
  {
    var stripped := RemoveBraces(t);
    var r := Trim(stripped);
    assert forall c :: c in r ==> c in stripped by {
      TrimInfix(stripped);
    }
    r
  }

  /** Trimming only removes characters. */
  lemma TrimInfix(s: string)
    ensures forall c :: c in Trim(s) ==> c in s
  {
    var t := TrimStart(s);
    assert forall c :: c in TrimEnd(t) ==> c in t;
    assert forall c :: c in t ==> c in s;
  }

  function Names(tokens: seq<string>): (r: seq<string>)
    ensures |r| == |tokens|
    ensures forall k :: 0 <= k < |r| ==> r[k] == TokenName(tokens[k])
  {
    Map(tokens, TokenName)
  }

  /**
   * `extractPlaceholders(content)`: the names of the matched tokens, each
   * once, in order of first occurrence; every name is trimmed and brace-free.
   */
  function ExtractPlaceholders(content: string): (r: seq<string>)
    ensures NoDuplicates(r)
    ensures var names := Names(Matches(content));
      && (forall x :: x in r <==> x in names)
      && (forall a, b :: 0 <= a < b < |r| ==> IndexOf(names, r[a]) < IndexOf(names, r[b]))
    ensures forall k :: 0 <= k < |r| ==> IsTrimmed(r[k]) && '{' !in r[k] && '}' !in r[k]
    ensures |r| <= |Matches(content)|
  {
    var names := Names(Matches(content));
    var r := FirstOccurrences(names);
    forall k | 0 <= k < |r| ensures IsTrimmed(r[k]) && '{' !in r[k] && '}' !in r[k] {
      var j := IndexOf(names, r[k]);
      assert names[j] == TokenName(Matches(content)[j]);
    }
    r
  }

  /** A token starts at some index `j >= i` of `s`. */
  predicate TokenFrom(s: string, i: nat) {
    exists j, e :: i <= j < e <= |s| && IsToken(s[j..e])
  }

  /** The scan from `i` finds nothing exactly when no token starts at or after `i`. */
  lemma {:induction false} ScanEmpty(s: string, i: nat)
    requires i <= |s|
    ensures Scan(s, i) == [] <==> !TokenFrom(s, i)
    decreases |s| - i
  {
    if i < |s| {
      match MatchAt(s, i)
      case Some(e) =>
        assert IsToken(s[i..e]);
      case None =>
        ScanEmpty(s, i + 1);
        if TokenFrom(s, i) {
          var j, e :| i <= j < e <= |s| && IsToken(s[j..e]);
          assert j != i;
          assert TokenFrom(s, i + 1);
        }
    }
  }

  /** Content without any `{{`, non-`}` run, `}}` token yields no placeholder, and conversely. */
  lemma NoTokenNoPlaceholders(content: string)
    ensures ExtractPlaceholders(content) == [] <==> !TokenFrom(content, 0)
  {
    ScanEmpty(content, 0);
    var names := Names(Matches(content));
    if names != [] {
      assert names[0] in names;
    }
  }

  /** Each extracted name comes from a token the scan actually matched, so there are at most as many names as tokens. */
  lemma PlaceholdersComeFromTokens(content: string, x: string)
    requires x in ExtractPlaceholders(content)
    ensures exists k :: 0 <= k < |Matches(content)| && TokenName(Matches(content)[k]) == x
  {
    var names := Names(Matches(content));
    var k := IndexOf(names, x);
    assert names[k] == x;
  }
}

/** Worked examples of the extraction. */
module TemplateExamples {
  import opened Wrappers
  import opened Text
  import opened Seqs
  import opened Template

  /** Text without any `{` holds no token. */
  lemma NoBraceNoToken(s: string)
    requires '{' !in s
    ensures ExtractPlaceholders(s) == []
  {
    forall j, e | 0 <= j < e <= |s| ensures !IsToken(s[j..e]) {
      assert s[j..e][0] == s[j];
    }
    NoTokenNoPlaceholders(s);
  }

  lemma EmptyAndPlainContent()
    ensures ExtractPlaceholders("") == []
    ensures ExtractPlaceholders("no placeholders") == []
  {
    NoBraceNoToken("");
    NoBraceNoToken("no placeholders");
  }

  /** Empty braces are not a token: `[^}]+` needs at least one character. */
  lemma EmptyBraces()
    ensures ExtractPlaceholders("{{}}") == []
  {
    var s := "{{}}";
    forall j, e | 0 <= j < e <= |s| ensures !IsToken(s[j..e]) {
    }
    NoTokenNoPlaceholders(s);
  }

  /** A token holding only spaces yields the empty name; it is not dropped. */
  lemma BlankToken()
    ensures ExtractPlaceholders("{{  }}") == [""]
  {
    var s := "{{  }}";
    assert MatchAt(s, 0) == Some(6);
    assert Scan(s, 6) == [];
    assert s[0..6] == s;
    assert Scan(s, 0) == [s[0..6]] + Scan(s, 6);
    assert Matches(s) == [s];
    assert RemoveBraces(s[5..]) == "";
    assert RemoveBraces(s[4..]) == "";
    assert RemoveBraces(s[3..]) == " ";
    assert RemoveBraces(s[2..]) == "  ";
    assert RemoveBraces(s[1..]) == "  ";
    assert RemoveBraces(s) == "  ";
    assert TokenName(s) == "";
  }

  /** The name inside a one-character token. */
  lemma BracedName(c: char)
    requires c != '{' && c != '}' && !IsSpace(c)
    ensures TokenName(['{', '{', c, '}', '}']) == [c]
  {
    var t := ['{', '{', c, '}', '}'];
    assert RemoveBraces(t[4..]) == "";
    assert RemoveBraces(t[3..]) == "";
    assert RemoveBraces(t[2..]) == [c];
    assert RemoveBraces(t[1..]) == [c];
    assert RemoveBraces(t) == [c];
  }

  lemma NamesOfAB()
    ensures TokenName("{{a}}") == "a" && TokenName("{{b}}") == "b"
  {
    BracedName('a');
    BracedName('b');
  }

  lemma RepeatedTokenMatches(s: string)
    requires s == "{{a}}{{b}}{{a}}"
    ensures Matches(s) == ["{{a}}", "{{b}}", "{{a}}"]
  {
    assert MatchAt(s, 0) == Some(5);
    assert MatchAt(s, 5) == Some(10);
    assert MatchAt(s, 10) == Some(15);
    assert Scan(s, 15) == [];
    assert Scan(s, 10) == [s[10..15]] + Scan(s, 15);
    assert Scan(s, 5) == [s[5..10]] + Scan(s, 10);
    assert Scan(s, 0) == [s[0..5]] + Scan(s, 5);
    assert s[0..5] == "{{a}}" && s[5..10] == "{{b}}" && s[10..15] == "{{a}}";
  }

  /** Mapping over three elements, the first and last alike. */
  lemma MapABA<A, B>(xs: seq<A>, f: A -> B, x: A, y: A)
    requires xs == [x, y, x]
    ensures Map(xs, f) == [f(x), f(y), f(x)]
  {
    assert xs[1..] == [y, x] && xs[2..] == [x] && xs[3..] == [];
  }

  lemma KeepFirstOfA<T(!new)>(a: T)
    ensures FirstOccurrences([a]) == [a]
  {
    var e: seq<T> := [];
    FirstOccurrencesSnoc(e, a);
    assert e + [a] == [a];
  }

  lemma KeepFirstOfAB<T(!new)>(a: T, b: T)
    requires a != b
    ensures FirstOccurrences([a, b]) == [a, b]
  {
    KeepFirstOfA(a);
    FirstOccurrencesSnoc([a], b);
    assert [a] + [b] == [a, b];
  }

  /** Of `[a, b, a]` the de-duplicating filter keeps `[a, b]`. */
  lemma KeepFirstOfABA<T(!new)>(names: seq<T>, a: T, b: T)
    requires a != b && names == [a, b, a]
    ensures FirstOccurrences(names) == [a, b]
  {
    KeepFirstOfAB(a, b);
    FirstOccurrencesSnoc([a, b], a);
    assert [a, b] + [a] == names;
  }

  /** Three tokens, the first and last alike, with different names give the two names in order. */
  lemma ThreeTokensTwoNames(s: string, ta: string, tb: string, a: string, b: string)
    requires Matches(s) == [ta, tb, ta] && TokenName(ta) == a && TokenName(tb) == b && a != b
    ensures ExtractPlaceholders(s) == [a, b]
  {
    MapABA(Matches(s), TokenName, ta, tb);
    KeepFirstOfABA(Names(Matches(s)), a, b);
  }

  /** Tokens are matched left to right without overlap and repeated names are kept once. */
  lemma RepeatedToken(s: string)
    requires s == "{{a}}{{b}}{{a}}"
    ensures ExtractPlaceholders(s) == ["a", "b"]
  {
    RepeatedTokenMatches(s);
    NamesOfAB();
    ThreeTokensTwoNames(s, "{{a}}", "{{b}}", "a", "b");
  }
}
