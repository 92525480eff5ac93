/**
 * The character-set resolver of the combination-lock game: the alphabet a
 * lock's wheels cycle through is the concatenation of the enabled character
 * classes, digits first, then upper-case letters, then a fixed set of ten
 * symbols.  With no class enabled it falls back to the digits and switches
 * the numbers checkbox back on.
 */
module Charset {

  const Digits: string := "0123456789"
  const Letters: string := "ABCDEFGHIJKLMNOPQRSTUVWXYZ"
  const Symbols: string := "!@#$%&*?+="

  /** The three checkboxes of a lock's settings card. */
  datatype CharClasses = CharClasses(numbers: bool, letters: bool, symbols: bool)

  /** The alphabet together with the checkbox state after the fallback correction. */
  datatype Resolution = Resolution(alphabet: string, classes: CharClasses)

  predicate Distinct(s: string) {
    forall i, j :: 0 <= i < j < |s| ==> s[i] != s[j]
  }

  predicate AnySelected(c: CharClasses) {
    c.numbers || c.letters || c.symbols
  }

  /** The enabled classes concatenated in priority order. */
  function Selected(c: CharClasses): string {
    (if c.numbers then Digits else []) + (if c.letters then Letters else []) + (if c.symbols then Symbols else [])
  }

  /** The resolved alphabet and the (possibly corrected) checkboxes. */
  function Resolve(c: CharClasses): (r: Resolution)
    ensures r.alphabet != []
    ensures r.alphabet == Selected(r.classes)
    ensures AnySelected(c) ==> r.classes == c
    ensures !AnySelected(c) ==> r.classes == CharClasses(true, false, false)
  {
    var chars := Selected(c);
    if |chars| == 0 then Resolution(Digits, c.(numbers := true)) else Resolution(chars, c)
  }

  lemma DigitsAscending()
    ensures forall i :: 0 <= i < |Digits| ==> Digits[i] as int == '0' as int + i
  {
  }

  lemma LettersAscending()
    ensures forall i :: 0 <= i < |Letters| ==> Letters[i] as int == 'A' as int + i
  {
  }

  lemma SymbolsShape()
    ensures Distinct(Symbols)
    ensures forall i :: 0 <= i < |Symbols| ==> !('0' <= Symbols[i] <= '9') && !('A' <= Symbols[i] <= 'Z') && !('a' <= Symbols[i] <= 'z')
  {
  }

  /** Every character of a class lies in its own code-point range. */
  lemma ClassRanges(x: char)
    ensures x in Digits <==> '0' <= x <= '9'
    ensures x in Letters <==> 'A' <= x <= 'Z'
    ensures x in Symbols ==> !('0' <= x <= '9') && !('A' <= x <= 'Z') && !('a' <= x <= 'z')
  {
    DigitsAscending();
    LettersAscending();
    SymbolsShape();
    if '0' <= x <= '9' {
      assert Digits[x as int - '0' as int] == x;
    }
    if 'A' <= x <= 'Z' {
      assert Letters[x as int - 'A' as int] == x;
    }
  }

  lemma DistinctConcat(a: string, b: string)
    requires Distinct(a) && Distinct(b)
    requires forall x :: x in a ==> x !in b
    ensures Distinct(a + b)
  {
    var s := a + b;
    forall i, j | 0 <= i < j < |s| ensures s[i] != s[j] {
      if j < |a| {
        assert s[i] == a[i] && s[j] == a[j];
      } else if i >= |a| {
        assert s[i] == b[i - |a|] && s[j] == b[j - |a|];
      } else {
        assert s[i] == a[i] && s[j] == b[j - |a|];
        assert a[i] in a && b[j - |a|] in b;
      }
    }
  }

  /**
   * The base classes are disjoint and duplicate-free, so a resolved alphabet
   * never lists a character twice: each character sits at exactly one wheel
   * position.
   */
  lemma ResolveDistinct(c: CharClasses)
    ensures Distinct(Resolve(c).alphabet)
  {
    DigitsAscending();
    LettersAscending();
    SymbolsShape();
    var k := Resolve(c).classes;
    var d := if k.numbers then Digits else [];
    var l := if k.letters then Letters else [];
    var y := if k.symbols then Symbols else [];
    forall x | x in d ensures x !in l {
      ClassRanges(x);
    }
    DistinctConcat(d, l);
    forall x | x in d + l ensures x !in y {
      ClassRanges(x);
    }
    DistinctConcat(d + l, y);
  }

  /**
   * A character is on the wheels exactly when it belongs to a class whose
   * checkbox is ticked after resolution.
   */
  lemma ResolveMembership(c: CharClasses, x: char)
    ensures var r := Resolve(c);
      x in r.alphabet <==>
        (r.classes.numbers && x in Digits) || (r.classes.letters && x in Letters) || (r.classes.symbols && x in Symbols)
  {
  }

  /** No resolved alphabet contains an ASCII lower-case letter. */
  lemma {:induction false} ResolveHasNoLowerCase(c: CharClasses, x: char)
    requires x in Resolve(c).alphabet
    ensures !('a' <= x <= 'z')
  {
    ResolveMembership(c, x);
    ClassRanges(x);
  }

  /** The size of the alphabet is the sum of the enabled class sizes. */
  lemma ResolveSize(c: CharClasses)
    ensures |Resolve(c).alphabet| ==
      (if AnySelected(c) then (if c.numbers then 10 else 0) + (if c.letters then 26 else 0) + (if c.symbols then 10 else 0) else 10)
  {
  }
}
