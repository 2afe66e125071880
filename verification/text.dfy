/** The pieces of Python's string built-ins the risk normaliser relies on:
    `str.strip()`, `str.split()` with no separator, `str.lower()` and the
    decimal rendering of an integer inside an f-string. */
module Text {

  import opened Wrappers

  /** Python's `str.isspace()` character class, which is also the separator
      class of `str.strip()` and `str.split()` without arguments: tab to
      carriage return, the four information separators, space, NEL,
      no-break space and the Unicode space separators. */
  predicate IsSpace(c: char)
  {
    var n := c as int;
    || 0x09 <= n <= 0x0D
    || 0x1C <= n <= 0x20
    || n == 0x85 || n == 0xA0 || n == 0x1680
    || 0x2000 <= n <= 0x200A
    || n == 0x2028 || n == 0x2029 || n == 0x202F || n == 0x205F || n == 0x3000
  }

  predicate AllSpace(s: string)
  {
    forall i :: 0 <= i < |s| ==> IsSpace(s[i])
  }

  predicate NoSpace(s: string)
  {
    forall i :: 0 <= i < |s| ==> !IsSpace(s[i])
  }

  /** Length of the longest all-whitespace prefix of `s`. */
  function LeadingSpace(s: string): (n: nat)
    ensures n <= |s|
    ensures forall i :: 0 <= i < n ==> IsSpace(s[i])
    ensures n < |s| ==> !IsSpace(s[n])
  {
    if |s| == 0 || !IsSpace(s[0]) then 0
    else 1 + LeadingSpace(s[1..])
  }

  /** Length of the longest all-whitespace suffix of `s`. */
  function TrailingSpace(s: string): (n: nat)
    ensures n <= |s|
    ensures forall i :: |s| - n <= i < |s| ==> IsSpace(s[i])
    ensures n < |s| ==> !IsSpace(s[|s| - n - 1])
  {
    if |s| == 0 || !IsSpace(s[|s| - 1]) then 0
    else 1 + TrailingSpace(s[..|s| - 1])
  }

  /** Length of the longest whitespace-free prefix of `s`. */
  function TokenLength(s: string): (n: nat)
    ensures n <= |s|
    ensures forall i :: 0 <= i < n ==> !IsSpace(s[i])
    ensures n < |s| ==> IsSpace(s[n])
  {
    if |s| == 0 || IsSpace(s[0]) then 0
    else 1 + TokenLength(s[1..])
  }

  lemma LeadingSpaceUnique(s: string, k: nat)
    requires k <= |s| && forall i :: 0 <= i < k ==> IsSpace(s[i])
    requires k < |s| ==> !IsSpace(s[k])
    ensures LeadingSpace(s) == k
  {
  }

  lemma TrailingSpaceUnique(s: string, k: nat)
    requires k <= |s| && forall i :: |s| - k <= i < |s| ==> IsSpace(s[i])
    requires k < |s| ==> !IsSpace(s[|s| - k - 1])
    ensures TrailingSpace(s) == k
  {
  }

  lemma TokenLengthUnique(s: string, k: nat)
    requires k <= |s| && forall i :: 0 <= i < k ==> !IsSpace(s[i])
    requires k < |s| ==> IsSpace(s[k])
    ensures TokenLength(s) == k
  {
  }

  /** Python's `s.strip()`: the result is empty exactly when `s` is blank,
      and otherwise starts and ends with a non-whitespace character. */
  function Strip(s: string): (r: string)
    ensures r == [] <==> AllSpace(s)
    ensures r != [] ==> !IsSpace(r[0]) && !IsSpace(r[|r| - 1])
  {
    var a := LeadingSpace(s);
    if a == |s| then []
    else
      var b := TrailingSpace(s[a..]);
      assert s[a..][0] == s[a];
      assert s[a..|s| - b][|s| - b - a - 1] == s[a..][|s| - a - b - 1];
      s[a..|s| - b]
  }

  /** `Strip` removes exactly the whitespace padding around a core that
      does not itself begin or end with whitespace. */
  lemma StripPadded(lead: string, core: string, trail: string)
    requires AllSpace(lead) && AllSpace(trail)
    requires core != [] ==> !IsSpace(core[0]) && !IsSpace(core[|core| - 1])
    ensures Strip(lead + core + trail) == core
  {
    var s := lead + core + trail;
    if core == [] {
      assert AllSpace(s) by {
        forall i | 0 <= i < |s| ensures IsSpace(s[i]) {
          if i < |lead| { assert s[i] == lead[i]; } else { assert s[i] == trail[i - |lead|]; }
        }
      }
    } else {
      assert s[..|lead|] == lead;
      LeadingSpaceUnique(s, |lead|);
      var t := s[|lead|..];
      assert t == core + trail;
      assert t[|t| - |trail|..] == trail;
      assert t[|t| - |trail| - 1] == core[|core| - 1];
      TrailingSpaceUnique(t, |trail|);
      assert s[|lead|..|s| - |trail|] == core;
    }
  }

  /** Python's `s.split()`: the maximal runs of non-whitespace characters,
      in order. */
  function Split(s: string): (r: seq<string>)
    ensures forall i :: 0 <= i < |r| ==> r[i] != [] && NoSpace(r[i])
    ensures r == [] <==> AllSpace(s)
    decreases |s|
  {
    var k := LeadingSpace(s);
    if k == |s| then
      assert s[..k] == s;
      []
    else
      var t := s[k..];
      var n := TokenLength(t);
      assert n >= 1 by { assert t[0] == s[k]; }
      assert !AllSpace(s) by { assert !IsSpace(s[k]); }
      [t[..n]] + Split(t[n..])
  }

  /** The first element of `Split` is the first whitespace-delimited token,
      whatever whitespace precedes it and whatever follows it. */
  lemma SplitFirstToken(lead: string, tok: string, rest: string)
    requires AllSpace(lead)
    requires tok != [] && NoSpace(tok)
    requires rest != [] ==> IsSpace(rest[0])
    ensures Split(lead + tok + rest) == [tok] + Split(rest)
  {
    var s := lead + tok + rest;
    assert s[..|lead|] == lead;
    assert s[|lead|] == tok[0];
    LeadingSpaceUnique(s, |lead|);
    var t := s[|lead|..];
    assert t == tok + rest;
    assert t[..|tok|] == tok;
    TokenLengthUnique(t, |tok|);
    assert t[|tok|..] == rest;
  }

  /** `SplitFirstToken` for a string that starts with its token. */
  lemma SplitLeadingToken(tok: string, rest: string)
    requires tok != [] && NoSpace(tok)
    requires rest != [] ==> IsSpace(rest[0])
    ensures Split(tok + rest) == [tok] + Split(rest)
  {
    var s := tok + rest;
    assert s[0] == tok[0];
    LeadingSpaceUnique(s, 0);
    assert s[0..] == s;
    assert s[..|tok|] == tok;
    TokenLengthUnique(s, |tok|);
    assert s[|tok|..] == rest;
  }

  /** A single token splits into itself. */
  lemma SplitSingleToken(tok: string)
    requires tok != [] && NoSpace(tok)
    ensures Split(tok) == [tok]
  {
    assert !IsSpace(tok[0]);
    LeadingSpaceUnique(tok, 0);
    assert tok[0..] == tok;
    assert tok[..|tok|] == tok;
    TokenLengthUnique(tok, |tok|);
    assert tok[|tok|..] == [];
  }

  /** ASCII case folding; every other character is left unchanged. */
  function LowerChar(c: char): char
  {
    if 'A' <= c <= 'Z' then (c as int + 32) as char else c
  }

  /** `s.lower()`: each ASCII capital becomes the small letter at the same
      place in the alphabet, every other character is kept, so the
      whitespace layout is that of `s` and no ASCII capital is left. */
  function Lower(s: string): (r: string)
    ensures |r| == |s|
    ensures forall i :: 0 <= i < |s| && 'A' <= s[i] <= 'Z' ==> r[i] as int - 'a' as int == s[i] as int - 'A' as int
    ensures forall i :: 0 <= i < |s| && !('A' <= s[i] <= 'Z') ==> r[i] == s[i]
    ensures forall i :: 0 <= i < |s| ==> (IsSpace(r[i]) <==> IsSpace(s[i]))
    ensures forall i :: 0 <= i < |r| ==> !('A' <= r[i] <= 'Z')
  {
    seq(|s|, i requires 0 <= i < |s| => LowerChar(s[i]))
  }

  lemma LowerAppend(a: string, b: string)
    ensures Lower(a + b) == Lower(a) + Lower(b)
  {
  }

  /** Only lower-case ASCII letters and decimal digits. */
  predicate LowerWord(s: string)
  {
    forall i :: 0 <= i < |s| ==> 'a' <= s[i] <= 'z' || '0' <= s[i] <= '9'
  }

  /** Such a word has no whitespace and is its own lower-case form. */
  lemma LowerWordFixed(s: string)
    requires LowerWord(s)
    ensures NoSpace(s) && Lower(s) == s
  {
  }

  lemma LowerIdempotent(s: string)
    ensures Lower(Lower(s)) == Lower(s)
  {
  }

  /** The character for a decimal digit value. */
  function DigitChar(d: nat): (c: char)
    requires d < 10
    ensures '0' <= c <= '9'
  {
    ('0' as int + d) as char
  }

  predicate IsDigit(c: char)
  {
    '0' <= c <= '9'
  }

  /** Python's `str(n)` for a non-negative integer: canonical decimal, no
      leading zero except for zero itself. */
  function NatToString(n: nat): (s: string)
    ensures |s| >= 1
    ensures forall i :: 0 <= i < |s| ==> IsDigit(s[i])
    ensures s[0] == '0' ==> n == 0 && s == "0"
    decreases n
  {
    if n < 10 then [DigitChar(n)]
    else NatToString(n / 10) + [DigitChar(n % 10)]
  }

  /** Value of a string of decimal digits, read left to right. */
  function DigitsValue(s: string): nat
    requires forall i :: 0 <= i < |s| ==> IsDigit(s[i])
  {
    if s == [] then 0
    else
      assert IsDigit(s[|s| - 1]);
      DigitsValue(s[..|s| - 1]) * 10 + (s[|s| - 1] as int - '0' as int) as nat
  }

  /** Reads a non-empty string of decimal digits; anything else is None. */
  function ParseNat(s: string): (r: Option<nat>)
    ensures r.Some? <==> s != [] && forall i :: 0 <= i < |s| ==> IsDigit(s[i])
  {
    if s != [] && forall i :: 0 <= i < |s| ==> IsDigit(s[i]) then Some(DigitsValue(s))
    else None
  }

  /** Reading back the decimal rendering gives the number. */
  lemma {:induction false} ParseNatOfNatToString(n: nat)
    ensures ParseNat(NatToString(n)) == Some(n)
    decreases n
  {
    var s := NatToString(n);
    if n < 10 {
      assert DigitsValue(s) == DigitsValue(s[..0]) * 10 + n;
    } else {
      var p := NatToString(n / 10);
      ParseNatOfNatToString(n / 10);
      assert s[..|s| - 1] == p;
      assert DigitsValue(s) == DigitsValue(p) * 10 + n % 10;
    }
  }
}
