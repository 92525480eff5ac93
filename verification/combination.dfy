/**
 * Combination handling at setup time: the typed combination is upper-cased,
 * an empty one is replaced by a randomly drawn combination, and the result is
 * validated for its length and for every character being on the lock's
 * wheels.  Changing a card's digit count cuts an over-long entry down.
 */
module Combination {
  import opened Wrappers
  import opened Charset

  /** Why a lock's combination was refused; the round then does not start. */
  datatype SetupError = WrongLength | InvalidCharacters

  /** `toUpperCase` on one character, for the ASCII range. */
  function UpperChar(c: char): char {
    if 'a' <= c <= 'z' then (c as int - 32) as char else c
  }

  /** `toUpperCase` on the typed combination. */
  function Upper(s: string): (r: string)
    ensures |r| == |s|
    ensures forall k :: 0 <= k < |r| ==> !('a' <= r[k] <= 'z')
    ensures forall k :: 0 <= k < |s| && !('a' <= s[k] <= 'z') ==> r[k] == s[k]
    ensures forall k :: 0 <= k < |s| && 'a' <= s[k] <= 'z' ==> r[k] as int == s[k] as int - 32
  {
    seq(|s|, k requires 0 <= k < |s| => UpperChar(s[k]))
  }

  /**
   * The digit-count handler: an entry longer than the new digit count keeps
   * only its first `digitCount` characters; a shorter one is left alone.
   */
  function Truncate(input: string, digitCount: nat): (r: string)
    ensures r <= input
    ensures |r| == if |input| > digitCount then digitCount else |input|
  {
    if |input| > digitCount then input[..digitCount] else input
  }

  /** Picks that can stand for `Math.floor(Math.random() * alphabet.length)`. */
  predicate PicksFit(picks: seq<nat>, alphabet: string) {
    forall k :: 0 <= k < |picks| ==> picks[k] < |alphabet|
  }

  /** The combination drawn by the picks, one wheel character per pick. */
  function Drawn(alphabet: string, picks: seq<nat>): (r: string)
    requires PicksFit(picks, alphabet)
    ensures |r| == |picks|
    ensures forall k :: 0 <= k < |r| ==> r[k] in alphabet
  {
    seq(|picks|, k requires 0 <= k < |picks| => alphabet[picks[k]])
  }

  /** The random-combination loop: one character appended per wheel. */
  method Generate(alphabet: string, digitCount: nat, picks: seq<nat>) returns (combo: string)
    requires |picks| == digitCount && PicksFit(picks, alphabet)
    ensures combo == Drawn(alphabet, picks)
    ensures |combo| == digitCount
    ensures forall k :: 0 <= k < digitCount ==> combo[k] == alphabet[picks[k]]
  {
    combo := "";
    var j := 0;
    while j < digitCount
      invariant 0 <= j <= digitCount
      invariant |combo| == j
      invariant forall k :: 0 <= k < j ==> combo[k] == alphabet[picks[k]]
    {
      combo := combo + [alphabet[picks[j]]];
      j := j + 1;
    }
  }

  /** The two checks `startGame` applies to a lock's combination, in order. */
  function Validate(combo: string, alphabet: string, digitCount: nat): Option<SetupError> {
    if |combo| != digitCount then Some(WrongLength)
    else if exists k :: 0 <= k < |combo| && combo[k] !in alphabet then Some(InvalidCharacters)
    else None
  }

  /**
   * The length check followed by the character loop, which stops at the first
   * character that is not on the wheels.
   */
  method ValidateCombination(combo: string, alphabet: string, digitCount: nat) returns (error: Option<SetupError>)
    ensures error == Validate(combo, alphabet, digitCount)
    ensures error == None <==> |combo| == digitCount && forall k :: 0 <= k < |combo| ==> combo[k] in alphabet
    ensures error == Some(WrongLength) <==> |combo| != digitCount
  {
    if |combo| != digitCount {
      return Some(WrongLength);
    }
    var k := 0;
    while k < |combo|
      invariant 0 <= k <= |combo|
      invariant forall m :: 0 <= m < k ==> combo[m] in alphabet
    {
      if combo[k] !in alphabet {
        return Some(InvalidCharacters);
      }
      k := k + 1;
    }
    return None;
  }

  /** A drawn combination always passes validation against the same alphabet. */
  lemma GeneratedAccepted(alphabet: string, picks: seq<nat>)
    requires PicksFit(picks, alphabet)
    ensures Validate(Drawn(alphabet, picks), alphabet, |picks|) == None
  {
  }

  /**
   * Characters on the wheels are never lower-case, so upper-casing an accepted
   * combination leaves it as it is: typing it in lower case yields the same lock.
   */
  lemma {:induction false} UpperFixesAccepted(combo: string, c: CharClasses, digitCount: nat)
    requires Validate(combo, Resolve(c).alphabet, digitCount) == None
    ensures Upper(combo) == combo
  {
    forall k | 0 <= k < |combo| ensures Upper(combo)[k] == combo[k] {
      assert combo[k] in Resolve(c).alphabet;
      ResolveHasNoLowerCase(c, combo[k]);
    }
  }

  /** A lower-case entry is accepted exactly when its upper-case form is on the wheels. */
  lemma {:induction false} UpperCaseInsensitive(input: string, alphabet: string, digitCount: nat)
    ensures Validate(Upper(input), alphabet, digitCount) == None <==>
      |input| == digitCount && forall k :: 0 <= k < |input| ==> UpperChar(input[k]) in alphabet
  {
    var u := Upper(input);
    assert forall k :: 0 <= k < |input| ==> u[k] == UpperChar(input[k]);
  }
}
