/**
 * `isValidWord`: the checks a guess must pass, in their fixed order. Both
 * front ends carry the same copy; they differ only in where the message goes.
 */
module Validation {
  import opened Text
  import opened Letters

  /** Why a guess is invalid; the first failing check decides. */
  datatype Rejection = TooShort | LetterNotAllowed(letter: char) | NotASolution

  /** The verdict of `isValidWord`: `true`, or `false` together with the reason reported. */
  datatype Check = Pass | Fail(reason: Rejection)

  /** Index of the first character of `word` that is not in `letters`, or `|word|` if there is none. */
  function FirstMissing(word: string, letters: string): (i: nat)
    ensures i <= |word|
    ensures forall k :: 0 <= k < i ==> word[k] in letters
    ensures i < |word| ==> word[i] !in letters
  {
    if word == [] || word[0] !in letters then 0 else 1 + FirstMissing(word[1..], letters)
  }

  /** The specification of `isValidWord`: length, then letters in order, then membership. */
  function Validate(word: string, letters: string, solutions: seq<string>): Check {
    if |word| < 2 then Fail(TooShort)
    else
      var i := FirstMissing(word, letters);
      if i < |word| then Fail(LetterNotAllowed(word[i]))
      else if word in solutions then Pass
      else Fail(NotASolution)
  }

  /** `isValidWord`, with its early-exit loop over the characters of the word. */
  method IsValidWord(word: string, letters: string, solutions: seq<string>) returns (r: Check)
    ensures r == Validate(word, letters, solutions)
  {
    if |word| < 2 {
      return Fail(TooShort);
    }
    for i := 0 to |word|
      invariant forall k :: 0 <= k < i ==> word[k] in letters
    {
      if word[i] !in letters {
        return Fail(LetterNotAllowed(word[i]));
      }
    }
    if word !in solutions {
      return Fail(NotASolution);
    }
    return Pass;
  }

  /** Position `i` holds the first character of `word` that is not in `letters`. */
  predicate FirstRefused(word: string, letters: string, i: int) {
    0 <= i < |word| && word[i] !in letters && forall k :: 0 <= k < i ==> word[k] in letters
  }

  /**
   * The order of the checks: a short word is refused before anything else;
   * a refused letter is the first one in the word that is not allowed, and
   * membership is only looked at when every letter is allowed.
   */
  lemma CheckOrder(word: string, letters: string, solutions: seq<string>)
    ensures |word| < 2 ==> Validate(word, letters, solutions) == Fail(TooShort)
    ensures forall c :: Validate(word, letters, solutions) == Fail(LetterNotAllowed(c)) <==>
      (2 <= |word| && exists i :: FirstRefused(word, letters, i) && word[i] == c)
    ensures Validate(word, letters, solutions) == Fail(NotASolution) <==>
      (2 <= |word| && (forall k :: 0 <= k < |word| ==> word[k] in letters) && word !in solutions)
  {
    var m := FirstMissing(word, letters);
    forall c ensures Validate(word, letters, solutions) == Fail(LetterNotAllowed(c)) <==>
      (2 <= |word| && exists i :: FirstRefused(word, letters, i) && word[i] == c)
    {
      if 2 <= |word| && exists i :: FirstRefused(word, letters, i) && word[i] == c {
        var i :| FirstRefused(word, letters, i) && word[i] == c;
        assert m == i;
      }
      if m < |word| {
        assert FirstRefused(word, letters, m);
      }
    }
  }

  /**
   * With the letter set derived from the solutions, a word is valid exactly
   * when it has at least two characters and is a solution: a solution word
   * never fails the letter check.
   */
  lemma ValidIffSolution(word: string, solutions: seq<string>)
    ensures Validate(word, UniqueLetters(solutions), solutions) == Pass <==>
      (2 <= |word| && word in solutions)
  {
    var letters := UniqueLetters(solutions);
    if 2 <= |word| && word in solutions {
      var m := FirstMissing(word, letters);
      if m < |word| {
        SolutionLettersAllowed(solutions, word, m);
      }
    }
  }
}
