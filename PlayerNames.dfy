/** The names the player-names screen of App.tsx hands to `startGame`:
    every typed name is trimmed as JavaScript's `String.prototype.trim`
    does, and a name that is blank becomes `Player <n>` for the player's
    one-based number. */
module PlayerNames {

  /** The characters `trim` removes: the white space and line terminator
      code points of ECMAScript (section 12.2 and 12.3 of ECMA-262). */
  predicate IsSpace(c: char)
  {
    || c == '\t' || c == '\n' || c == '\U{B}' || c == '\U{C}' || c == '\r' || c == ' '
    || c == '\U{A0}' || c == '\U{1680}' || ('\U{2000}' <= c <= '\U{200A}')
    || c == '\U{2028}' || c == '\U{2029}' || c == '\U{202F}' || c == '\U{205F}'
    || c == '\U{3000}' || c == '\U{FEFF}'
  }

  predicate AllSpace(s: string)
  {
    forall k :: 0 <= k < |s| ==> IsSpace(s[k])
  }

  /** The index of the first character of `s` at or after `i` that is
      not white space, or `|s|`. */
  function SkipSpace(s: string, i: nat): (j: nat)
    requires i <= |s|
    ensures i <= j <= |s|
    ensures AllSpace(s[i..j])
    ensures j < |s| ==> !IsSpace(s[j])
    decreases |s| - i
  {
    if i == |s| || !IsSpace(s[i]) then i else SkipSpace(s, i + 1)
  }

  /** One past the index of the last character of `s[..j]` that is not
      white space, or 0. */
  function SkipSpaceBack(s: string, j: nat): (i: nat)
    requires j <= |s|
    ensures i <= j
    ensures AllSpace(s[i..j])
    ensures i > 0 ==> !IsSpace(s[i - 1])
  {
    if j == 0 || !IsSpace(s[j - 1]) then j
    else
      var i := SkipSpaceBack(s, j - 1);
      assert s[i..j] == s[i..j - 1] + [s[j - 1]];
      i
  }

  /** Where the text of `s` begins: the end of its leading white space. */
  function TextStart(s: string): (a: nat)
    ensures a <= |s| && AllSpace(s[..a])
    ensures a < |s| ==> !IsSpace(s[a])
  {
    var a := SkipSpace(s, 0);
    assert s[..a] == s[0..a];
    a
  }

  /** Where the text of `s` ends: the start of its trailing white space,
      which for a string of white space only is its start. */
  function TextEnd(s: string): (b: nat)
    ensures TextStart(s) <= b <= |s| && AllSpace(s[b..])
    ensures b > TextStart(s) ==> !IsSpace(s[b - 1])
    ensures b == TextStart(s) <==> TextStart(s) == |s|
  {
    var a := TextStart(s);
    var b := SkipSpaceBack(s, |s|);
    assert s[b..] == s[b..|s|];
    if a == |s| then
      assert s[a..] == [];
      a
    else
      b
  }

  /** `s.trim()`: `s` without its leading and trailing white space. */
  function Trim(s: string): (r: string)
    ensures |r| > 0 ==> !IsSpace(r[0]) && !IsSpace(r[|r| - 1])
    ensures r == [] <==> AllSpace(s)
  {
    var a, b := TextStart(s), TextEnd(s);
    if a == |s| then
      assert s == s[..a];
      []
    else
      assert !AllSpace(s) by { assert !IsSpace(s[a]); }
      s[a..b]
  }

  /** What `trim` removes is white space, at either end of `s`. */
  lemma TrimIsInfix(s: string)
    ensures exists a, b :: 0 <= a <= b <= |s| && Trim(s) == s[a..b] && AllSpace(s[..a]) && AllSpace(s[b..])
  {
    var a, b := TextStart(s), TextEnd(s);
    if a == |s| {
      assert Trim(s) == s[a..a];
      assert s[a..] == [];
    } else {
      assert Trim(s) == s[a..b];
    }
  }

  /** A string that neither starts nor ends with white space is its own
      trim. */
  lemma TrimmedIsFixed(s: string)
    requires |s| > 0 ==> !IsSpace(s[0]) && !IsSpace(s[|s| - 1])
    ensures Trim(s) == s
  {
    if |s| > 0 {
      assert SkipSpace(s, 0) == 0;
      assert SkipSpaceBack(s, |s|) == |s|;
      assert s[0..|s|] == s;
    }
  }

  /** Trimming what is already trimmed changes nothing. */
  lemma TrimIdempotent(s: string)
    ensures Trim(Trim(s)) == Trim(s)
  {
    TrimmedIsFixed(Trim(s));
  }

  // ---------------------------------------------------------------------
  // Decimal numerals (the `${index + 1}` of the template literal)
  // ---------------------------------------------------------------------

  function Digit(d: nat): (c: char)
    requires d < 10
    ensures '0' <= c <= '9'
  {
    ('0' as int + d) as char
  }

  /** `String(n)` for a natural number: its decimal numeral, without
      leading zeros. */
  function NatToString(n: nat): (s: string)
    ensures |s| > 0
    ensures forall k :: 0 <= k < |s| ==> '0' <= s[k] <= '9'
    ensures s[0] == '0' ==> n == 0
  {
    if n < 10 then [Digit(n)] else NatToString(n / 10) + [Digit(n % 10)]
  }

  /** The value of a numeral. */
  function ParseNat(s: string): nat
    requires forall k :: 0 <= k < |s| ==> '0' <= s[k] <= '9'
  {
    if |s| == 0 then 0
    else ParseNat(s[..|s| - 1]) * 10 + (s[|s| - 1] as int - '0' as int)
  }

  /** Reading back the numeral of `n` gives `n`. */
  lemma {:induction false} ParseNatToString(n: nat)
    ensures ParseNat(NatToString(n)) == n
  {
    if n >= 10 {
      var s := NatToString(n);
      assert s[..|s| - 1] == NatToString(n / 10);
      ParseNatToString(n / 10);
    }
  }

  /** Different numbers have different numerals. */
  lemma NatToStringInjective(m: nat, n: nat)
    requires NatToString(m) == NatToString(n)
    ensures m == n
  {
    ParseNatToString(m);
    ParseNatToString(n);
  }

  // ---------------------------------------------------------------------
  // The names handed to startGame
  // ---------------------------------------------------------------------

  const Prefix: string := "Player "

  /** The name of player `index` (counting from 0) who typed `name`. */
  function FinalName(name: string, index: nat): (r: string)
    ensures Trim(name) != [] ==> r == Trim(name)
    ensures Trim(name) == [] ==> r == Prefix + NatToString(index + 1)
  {
    if Trim(name) == [] then Prefix + NatToString(index + 1) else Trim(name)
  }

  /** `names.map((name, index) => name.trim() === '' ? \`Player ${index + 1}\` : name.trim())`. */
  function FinalNames(names: seq<string>): (r: seq<string>)
    ensures |r| == |names|
    ensures forall i :: 0 <= i < |names| ==> r[i] == FinalName(names[i], i)
  {
    seq(|names|, i requires 0 <= i < |names| => FinalName(names[i], i))
  }

  /** No player ends up with an empty name, nor with one that starts or
      ends with white space. */
  lemma FinalNamesAreTrimmed(names: seq<string>, i: nat)
    requires i < |names|
    ensures |FinalNames(names)[i]| > 0
    ensures Trim(FinalNames(names)[i]) == FinalNames(names)[i]
  {
    var r := FinalName(names[i], i);
    if Trim(names[i]) == [] {
      var digits := NatToString(i + 1);
      assert r[0] == 'P' && r[|r| - 1] == digits[|digits| - 1];
      TrimmedIsFixed(r);
    } else {
      TrimIdempotent(names[i]);
    }
  }

  /** Two players who both left their name blank get different names. */
  lemma DefaultNamesDiffer(names: seq<string>, i: nat, j: nat)
    requires i < |names| && j < |names| && i != j
    requires Trim(names[i]) == [] && Trim(names[j]) == []
    ensures FinalNames(names)[i] != FinalNames(names)[j]
  {
    var a, b := NatToString(i + 1), NatToString(j + 1);
    if Prefix + a == Prefix + b {
      assert a == (Prefix + a)[|Prefix|..];
      assert b == (Prefix + b)[|Prefix|..];
      NatToStringInjective(i + 1, j + 1);
    }
  }

  /** Filling in the names twice gives what filling them in once gives. */
  lemma FinalNamesIdempotent(names: seq<string>)
    ensures FinalNames(FinalNames(names)) == FinalNames(names)
  {
    var r := FinalNames(names);
    forall i | 0 <= i < |names|
      ensures FinalName(r[i], i) == r[i]
    {
      FinalNamesAreTrimmed(names, i);
    }
  }
}
