/**
 * API-key generation (`generateApiKey`): the prefix `nib_` followed by 32
 * characters of the 62-character alphabet. The 32 random indices the
 * source draws with `Math.floor(Math.random() * chars.length)` are passed
 * in as `draws`.
 */
module ApiKey {

  const Uppercase: string := "ABCDEFGHIJKLMNOPQRSTUVWXYZ"
  const Lowercase: string := "abcdefghijklmnopqrstuvwxyz"
  const Digits: string := "0123456789"
  /** The 62-character alphabet, upper-case letters, then lower-case letters, then digits. */
  const Chars: string := Uppercase + Lowercase + Digits
  const Prefix: string := "nib_"
  const RandomLength: nat := 32

  /** The alphabet position by position: upper-case letters, lower-case letters, digits. */
  function AlphabetChar(i: nat): char
    requires i < 62
  {
    if i < 26 then ('A' as int + i) as char
    else if i < 52 then ('a' as int + (i - 26)) as char
    else ('0' as int + (i - 52)) as char
  }

  /** The position of an alphabet character. */
  function AlphabetIndex(c: char): (i: nat)
    requires c in Chars
    ensures i < 62 && Chars[i] == c
  {
    AlphabetIsChars();
    var k :| 0 <= k < |Chars| && Chars[k] == c;
    assert c == AlphabetChar(k);
    if k < 26 then c as int - 'A' as int
    else if k < 52 then 26 + (c as int - 'a' as int)
    else 52 + (c as int - '0' as int)
  }

  lemma UppercaseAt(i: nat)
    requires i < 26
    ensures Uppercase[i] == ('A' as int + i) as char
  {
  }

  lemma LowercaseAt(i: nat)
    requires i < 26
    ensures Lowercase[i] == ('a' as int + i) as char
  {
  }

  lemma DigitsAt(i: nat)
    requires i < 10
    ensures Digits[i] == ('0' as int + i) as char
  {
  }

  /** The alphabet string spells out AlphabetChar. */
  lemma AlphabetIsChars()
    ensures |Chars| == 62
    ensures forall i :: 0 <= i < 62 ==> Chars[i] == AlphabetChar(i)
  {
    forall i | 0 <= i < 62 ensures Chars[i] == AlphabetChar(i) {
      if i < 26 {
        UppercaseAt(i);
      } else if i < 52 {
        LowercaseAt(i - 26);
      } else {
        DigitsAt(i - 52);
      }
    }
  }

  predicate ValidDraws(draws: seq<nat>) {
    |draws| == RandomLength && forall i :: 0 <= i < |draws| ==> draws[i] < |Chars|
  }

  /** The key the given draws produce. */
  function KeyFor(draws: seq<nat>): (key: string)
    requires ValidDraws(draws)
  {
    Prefix + seq(RandomLength, i requires 0 <= i < RandomLength => Chars[draws[i]])
  }

  /** The shape of every key: `nib_`, then 32 alphabet characters. */
  predicate WellFormedKey(key: string) {
    && |key| == |Prefix| + RandomLength
    && key[..|Prefix|] == Prefix
    && forall i :: |Prefix| <= i < |key| ==> key[i] in Chars
  }

  /**
   * `generateApiKey()`: starts from the prefix and appends one alphabet
   * character per draw, so character `4 + i` is `chars[draws[i]]`.
   */
  method GenerateApiKey(draws: seq<nat>) returns (key: string)
    requires ValidDraws(draws)
    ensures key == KeyFor(draws)
    ensures |key| == 36 && key[..4] == "nib_"
    ensures forall i :: 0 <= i < 32 ==> key[4 + i] == Chars[draws[i]]
    ensures WellFormedKey(key)
  {
    key := Prefix;
    for i := 0 to RandomLength
      invariant |key| == |Prefix| + i
      invariant key[..|Prefix|] == Prefix
      invariant forall j :: 0 <= j < i ==> key[|Prefix| + j] == Chars[draws[j]]
    {
      key := key + [Chars[draws[i]]];
    }
  }

  /** The alphabet positions of the characters of `s`. */
  function IndicesOf(s: string): (d: seq<nat>)
    requires forall k :: 0 <= k < |s| ==> s[k] in Chars
    ensures |d| == |s|
    ensures forall k :: 0 <= k < |s| ==> d[k] < |Chars| && Chars[d[k]] == s[k]
  {
    if |s| == 0 then [] else [AlphabetIndex(s[0])] + IndicesOf(s[1..])
  }

  /** Every well-formed key is what some draws produce: the generator can reach the whole key space. */
  lemma EveryKeyReachable(key: string)
    requires WellFormedKey(key)
    ensures exists draws :: ValidDraws(draws) && KeyFor(draws) == key
  {
    var draws := IndicesOf(key[|Prefix|..]);
    assert KeyFor(draws) == key;
  }

  /** After the prefix a key holds only ASCII letters and digits. */
  lemma KeyCharsAlphanumeric(key: string)
    requires WellFormedKey(key)
    ensures forall i :: 4 <= i < |key| ==> 'A' <= key[i] <= 'Z' || 'a' <= key[i] <= 'z' || '0' <= key[i] <= '9'
  {
    AlphabetIsChars();
    forall i | 4 <= i < |key| ensures 'A' <= key[i] <= 'Z' || 'a' <= key[i] <= 'z' || '0' <= key[i] <= '9' {
      var k := AlphabetIndex(key[i]);
      assert key[i] == AlphabetChar(k);
    }
  }

  /** Different draws give different keys: the key determines the draws. */
  lemma DrawsDetermineKey(d1: seq<nat>, d2: seq<nat>)
    requires ValidDraws(d1) && ValidDraws(d2) && KeyFor(d1) == KeyFor(d2)
    ensures d1 == d2
  {
    AlphabetIsChars();
    forall i | 0 <= i < RandomLength ensures d1[i] == d2[i] {
      assert KeyFor(d1)[|Prefix| + i] == Chars[d1[i]];
      assert KeyFor(d2)[|Prefix| + i] == Chars[d2[i]];
    }
  }
}
