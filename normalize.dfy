/**
 * Column-name normalisation (`normalizeString`): lower-case, drop every
 * character outside `[a-z0-9]`, then trim. Used only as a comparison key.
 */
module Normalize {
  import opened Text

  predicate IsLowerAlnum(c: char) {
    'a' <= c <= 'z' || '0' <= c <= '9'
  }

  /** `s.replace(/[^a-z0-9]/g, '')`. */
  function KeepLowerAlnum(s: string): (r: string)
    ensures |r| <= |s|
    ensures forall k :: 0 <= k < |r| ==> IsLowerAlnum(r[k])
  {
    if |s| == 0 then ""
    else (if IsLowerAlnum(s[0]) then [s[0]] else "") + KeepLowerAlnum(s[1..])
  }

  /** `a` can be obtained from `b` by deleting characters. */
  ghost predicate IsSubsequence(a: string, b: string)
    decreases |b|
  {
    a == [] || (b != [] && ((a[0] == b[0] && IsSubsequence(a[1..], b[1..])) || IsSubsequence(a, b[1..])))
  }

  /** How many characters of `s` are in `[a-z0-9]`. */
  function CountLowerAlnum(s: string): nat {
    if |s| == 0 then 0 else (if IsLowerAlnum(s[0]) then 1 else 0) + CountLowerAlnum(s[1..])
  }

  /** The kept characters are exactly the `[a-z0-9]` characters of the input, in order. */
  lemma {:induction false} KeepLowerAlnumIsFilter(s: string)
    ensures IsSubsequence(KeepLowerAlnum(s), s)
    ensures |KeepLowerAlnum(s)| == CountLowerAlnum(s)
  {
    if |s| > 0 {
      KeepLowerAlnumIsFilter(s[1..]);
      var rest := KeepLowerAlnum(s[1..]);
      if IsLowerAlnum(s[0]) {
        assert KeepLowerAlnum(s) == [s[0]] + rest;
        assert ([s[0]] + rest)[1..] == rest;
      } else {
        assert KeepLowerAlnum(s) == rest;
        assert rest == [] || IsSubsequence(rest, s[1..]);
      }
    }
  }

  /**
   * `normalizeString(s)`: only `[a-z0-9]` characters, never longer than the
   * input.
   */
  function NormalizeString(s: string): (r: string)
    ensures forall k :: 0 <= k < |r| ==> IsLowerAlnum(r[k])
    ensures |r| <= |s|
  {
    Trim(KeepLowerAlnum(Lower(s)))
  }

  /**
   * The normalised name is exactly the `[a-z0-9]` characters of the
   * lower-cased input, in their order.
   */
  lemma NormalizeIsFilter(s: string)
    ensures IsSubsequence(NormalizeString(s), Lower(s))
    ensures |NormalizeString(s)| == CountLowerAlnum(Lower(s))
  {
    KeepLowerAlnumIsFilter(Lower(s));
    TrimIsNoOp(KeepLowerAlnum(Lower(s)));
  }

  /** Normalising is lower-casing and filtering: the final `trim` has nothing left to remove. */
  lemma NormalizeIsKept(s: string)
    ensures NormalizeString(s) == KeepLowerAlnum(Lower(s))
  {
    TrimIsNoOp(KeepLowerAlnum(Lower(s)));
  }

  /** The final `trim` never removes anything: no kept character is white space. */
  lemma TrimIsNoOp(s: string)
    requires forall k :: 0 <= k < |s| ==> IsLowerAlnum(s[k])
    ensures Trim(s) == s
  {
    NoSpaceIsTrimmed(s);
  }

  /** A string made only of `[a-z0-9]` keeps every character. */
  lemma {:induction false} KeepAllLowerAlnum(s: string)
    requires forall k :: 0 <= k < |s| ==> IsLowerAlnum(s[k])
    ensures KeepLowerAlnum(s) == s
  {
    if |s| > 0 {
      KeepAllLowerAlnum(s[1..]);
      assert s == [s[0]] + s[1..];
    }
  }

  /** Normalising twice is normalising once. */
  lemma NormalizeIdempotent(s: string)
    ensures NormalizeString(NormalizeString(s)) == NormalizeString(s)
  {
    var n := NormalizeString(s);
    assert Lower(n) == n;
    KeepAllLowerAlnum(n);
    NormalizeIsKept(s);
    NormalizeIsKept(n);
  }

  /** Upper-casing the input first makes no difference: case is ignored. */
  lemma NormalizeIgnoresCase(s: string)
    ensures NormalizeString(Upper(s)) == NormalizeString(s)
  {
    LowerUpper(s);
    NormalizeIsKept(s);
    NormalizeIsKept(Upper(s));
  }
}

/** Worked examples of normalisation. */
module NormalizeExamples {
  import opened Text
  import opened Normalize

  lemma {:induction false} KeepConcat(a: string, b: string)
    ensures KeepLowerAlnum(a + b) == KeepLowerAlnum(a) + KeepLowerAlnum(b)
  {
    if |a| > 0 {
      KeepConcat(a[1..], b);
      assert (a + b)[1..] == a[1..] + b;
    } else {
      assert a + b == b;
    }
  }

  /** Lower-casing works character by character, so it distributes over concatenation. */
  lemma LowerConcat(a: string, b: string)
    ensures Lower(a + b) == Lower(a) + Lower(b)
  {
  }

  /**
   * Two words around one separator that is not in `[a-z0-9]` normalise to
   * the two lower-cased words joined.
   */
  lemma TwoWords(first: string, sep: char, second: string, w1: string, w2: string)
    requires Lower(first) == w1 && Lower(second) == w2
    requires forall k :: 0 <= k < |w1| ==> IsLowerAlnum(w1[k])
    requires forall k :: 0 <= k < |w2| ==> IsLowerAlnum(w2[k])
    requires !IsLowerAlnum(LowerChar(sep))
    ensures NormalizeString(first + [sep] + second) == w1 + w2
  {
    LowerAround(first, sep, second);
    KeepDropsSeparator(w1, LowerChar(sep), w2);
    NormalizeIsKept(first + [sep] + second);
  }

  /** Lower-casing two words around a separator lower-cases each part. */
  lemma LowerAround(first: string, sep: char, second: string)
    ensures Lower(first + [sep] + second) == Lower(first) + [LowerChar(sep)] + Lower(second)
  {
    LowerConcat(first + [sep], second);
    LowerConcat(first, [sep]);
    assert Lower([sep]) == [LowerChar(sep)];
  }

  /** Filtering two all-`[a-z0-9]` words around any other character drops just that character. */
  lemma KeepDropsSeparator(w1: string, c: char, w2: string)
    requires forall k :: 0 <= k < |w1| ==> IsLowerAlnum(w1[k])
    requires forall k :: 0 <= k < |w2| ==> IsLowerAlnum(w2[k])
    requires !IsLowerAlnum(c)
    ensures KeepLowerAlnum(w1 + [c] + w2) == w1 + w2
  {
    KeepConcat(w1 + [c], w2);
    KeepConcat(w1, [c]);
    KeepAllLowerAlnum(w1);
    KeepAllLowerAlnum(w2);
    assert KeepLowerAlnum([c]) == "";
    assert w1 + "" == w1;
  }


  /**
   * The words `email` and `address` in any case, around any separator that
   * is not a lower-case letter or digit once lower-cased (`Email Address`,
   * `email_address`, `EMAIL-ADDRESS`), normalise to `emailaddress`.
   */
  lemma EmailAddressSpelling(first: string, sep: char, second: string)
    requires Lower(first) == "email" && Lower(second) == "address" && !IsLowerAlnum(LowerChar(sep))
    ensures NormalizeString(first + [sep] + second) == "emailaddress"
  {
    assert forall k :: 0 <= k < |"email"| ==> IsLowerAlnum("email"[k]);
    assert forall k :: 0 <= k < |"address"| ==> IsLowerAlnum("address"[k]);
    assert "email" + "address" == "emailaddress";
    TwoWords(first, sep, second, "email", "address");
  }
}
