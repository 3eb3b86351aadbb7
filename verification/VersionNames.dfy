/** Fresh display names for transferred versions. */
module VersionNames {
  import opened Wrappers

  const INT_MAX: int := 0x7fff_ffff
  const INT_MIN: int := -0x8000_0000

  // ------------------------------------------------- decimals and std::stoi

  predicate IsDigit(ch: char) {
    '0' <= ch <= '9'
  }

  function DigitChar(d: nat): (ch: char)
    requires d < 10
    ensures IsDigit(ch) && DigitOf(ch) == d
  {
    (d + '0' as int) as char
  }

  function DigitOf(ch: char): (d: nat)
    requires IsDigit(ch)
  {
    ch as int - '0' as int
  }

  /** std::to_string of a number that is not negative. */
  function Decimal(n: nat): (s: string)
    ensures s != [] && forall i :: 0 <= i < |s| ==> IsDigit(s[i])
  {
    if n < 10 then [DigitChar(n)] else Decimal(n / 10) + [DigitChar(n % 10)]
  }

  predicate IsSpace(ch: char) {
    ch == ' ' || 9 as char <= ch <= 13 as char
  }

  function SkipSpaces(s: string): string {
    if s != [] && IsSpace(s[0]) then SkipSpaces(s[1..]) else s
  }

  /** The value of the digits at the front, after those read before. */
  function DigitsValue(s: string, acc: nat): nat {
    if s == [] || !IsDigit(s[0]) then acc else DigitsValue(s[1..], 10 * acc + DigitOf(s[0]))
  }

  /** std::stoi: leading spaces, a sign, digits, and anything after them; None where it throws. */
  function StoI(s: string): Option<int> {
    var t := SkipSpaces(s);
    var signed := t != [] && (t[0] == '-' || t[0] == '+');
    var digits := if signed then t[1..] else t;
    if digits == [] || !IsDigit(digits[0]) then None
    else
      var v: int := DigitsValue(digits, 0) * if signed && t[0] == '-' then -1 else 1;
      if INT_MIN <= v <= INT_MAX then Some(v) else None
  }

  lemma {:induction false} DigitsValueSnoc(s: string, ch: char, acc: nat)
    requires IsDigit(ch) && forall i :: 0 <= i < |s| ==> IsDigit(s[i])
    ensures DigitsValue(s + [ch], acc) == 10 * DigitsValue(s, acc) + DigitOf(ch)
  {
    if s == [] {
      assert s + [ch] == [ch];
    } else {
      assert (s + [ch])[1..] == s[1..] + [ch];
      DigitsValueSnoc(s[1..], ch, 10 * acc + DigitOf(s[0]));
    }
  }

  lemma {:induction false} DecimalValue(n: nat)
    ensures DigitsValue(Decimal(n), 0) == n
  {
    if n < 10 {
      assert Decimal(n)[1..] == [];
    } else {
      DecimalValue(n / 10);
      DigitsValueSnoc(Decimal(n / 10), DigitChar(n % 10), 0);
    }
  }

  /** Printing and parsing a number gives it back, as far as an int reaches. */
  lemma StoIDecimal(n: nat)
    ensures StoI(Decimal(n)) == if n <= INT_MAX then Some(n) else None
  {
    DecimalValue(n);
    var s := Decimal(n);
    assert IsDigit(s[0]) && !IsSpace(s[0]);
    assert SkipSpaces(s) == s;
  }

  // ------------------------------------------------------------------ names

  /** std::to_string of any int. */
  function Printed(k: int): string {
    if k < 0 then "-" + Decimal(-k) else Decimal(k)
  }

  function Numbered(base: string, k: int): string {
    base + " (" + Printed(k) + ")"
  }

  /** The number in parentheses after the base name, if it is at least two. */
  function SuffixOf(base: string, name: string): Option<int> {
    var prefix := base + " (";
    if name == base || |name| <= |prefix| + 1 || name[|name| - 1] != ')' || !(prefix <= name) then None
    else
      var parsed := StoI(name[|prefix|..|name| - 1]);
      if parsed.Some? && parsed.value > 1 then parsed else None
  }

  lemma SuffixOfNumbered(base: string, k: int)
    requires 1 < k <= INT_MAX
    ensures SuffixOf(base, Numbered(base, k)) == Some(k)
  {
    var prefix, name := base + " (", Numbered(base, k);
    assert name == prefix + Decimal(k) + ")";
    assert name[|prefix|..|name| - 1] == Decimal(k);
    StoIDecimal(k);
  }

  function BaseName(requested: string, fallback: string): string {
    if requested == [] then fallback else requested
  }

  /** Some name has the largest int as its number. */
  ghost predicate Exhausted(base: string, names: seq<string>) {
    exists name :: name in names && SuffixOf(base, name) == Some(INT_MAX)
  }

  /** Whether the base name or a numbered form of it is taken, and the largest number, at least one. */
  method ScanNames(names: seq<string>, base: string) returns (baseExists: bool, maxSuffix: int)
    ensures baseExists <==> base in names || exists name :: name in names && SuffixOf(base, name).Some?
    ensures 1 <= maxSuffix <= INT_MAX
    ensures forall name :: name in names && SuffixOf(base, name).Some? ==> SuffixOf(base, name).value <= maxSuffix
    ensures maxSuffix == 1 || exists name :: name in names && SuffixOf(base, name) == Some(maxSuffix)
  {
    baseExists := false;
    maxSuffix := 1;
    var prefix := base + " (";
    for i := 0 to |names|
      invariant 1 <= maxSuffix <= INT_MAX
      invariant baseExists <==> base in names[..i] || exists name :: name in names[..i] && SuffixOf(base, name).Some?
      invariant forall name :: name in names[..i] && SuffixOf(base, name).Some? ==> SuffixOf(base, name).value <= maxSuffix
      invariant maxSuffix == 1 || exists name :: name in names[..i] && SuffixOf(base, name) == Some(maxSuffix)
    {
      var existing := names[i];
      assert names[..i + 1] == names[..i] + [existing];
      if existing == base {
        baseExists := true;
        continue;
      }
      if |existing| <= |prefix| + 1 || existing[|existing| - 1] != ')' || !(prefix <= existing) {
        continue;
      }
      var suffix := existing[|prefix|..|existing| - 1];
      var parsed := StoI(suffix);
      if parsed.Some? && parsed.value > 1 {
        assert SuffixOf(base, existing) == parsed;
        if parsed.value > maxSuffix {
          maxSuffix := parsed.value;
        }
        baseExists := true;
      }
    }
    assert names[..|names|] == names;
  }

  /**
   The requested name if neither it nor a numbered form is taken, else one number more than the
   largest.  After the largest int that sum is undefined; `overflow` is the int it gives.
   */
  method UniqueVersionDisplayName(names: seq<string>, requested: string, fallback: string, overflow: int)
    returns (r: string)
    ensures var base := BaseName(requested, fallback);
            && (r !in names <==> !Exhausted(base, names) || Numbered(base, overflow) !in names)
            && (r == base <==> base !in names && forall name :: name in names ==> SuffixOf(base, name).None?)
            && (Exhausted(base, names) ==> r == Numbered(base, overflow))
    ensures var base := BaseName(requested, fallback);
            r != base && !Exhausted(base, names) ==>
              exists k :: 2 <= k <= INT_MAX && r == Numbered(base, k)
                && (forall name :: name in names && SuffixOf(base, name).Some? ==> SuffixOf(base, name).value < k)
                && (k == 2 || exists name :: name in names && SuffixOf(base, name) == Some(k - 1))
  {
    var baseName := BaseName(requested, fallback);
    var baseExists, maxSuffix := ScanNames(names, baseName);
    if !baseExists {
      return baseName;
    }
    var next := if maxSuffix == INT_MAX then overflow else maxSuffix + 1;
    r := baseName + " (" + Printed(next) + ")";
    assert r == Numbered(baseName, next) && |r| > |baseName|;
    if maxSuffix < INT_MAX {
      assert !Exhausted(baseName, names);
      SuffixOfNumbered(baseName, maxSuffix + 1);
    }
  }

  /** At the largest int there is no next number: both of these names can be taken already. */
  lemma LargestSuffixHasNoSuccessor(base: string)
    ensures SuffixOf(base, Numbered(base, INT_MAX)) == Some(INT_MAX)
    ensures SuffixOf(base, Numbered(base, INT_MAX + 1)) == None
  {
    SuffixOfNumbered(base, INT_MAX);
    var k := INT_MAX + 1;
    var prefix, name := base + " (", Numbered(base, k);
    assert name == prefix + Decimal(k) + ")";
    assert name[|prefix|..|name| - 1] == Decimal(k);
    StoIDecimal(k);
  }
}
