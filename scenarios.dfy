/**
 * Concrete cases: the letters of a three-word list and guesses judged
 * against it, and what a blank word-list file leads to in each front end.
 */
module Scenarios {
  import opened Text
  import opened Letters
  import opened WordList
  import opened Validation
  import opened Game

  /** Their letter set is "ACDGOT". */
  lemma CatDogActLetters(sols: seq<string>)
    requires sols == ["CAT", "DOG", "ACT"]
    ensures UniqueLetters(sols) == "ACDGOT"
  {
    forall c ensures c in "ACDGOT" <==> Occurs(c, sols) {
      OccursInThree(c, sols);
    }
    StrictlySortedUnique("ACDGOT", UniqueLetters(sols));
  }

  lemma OccursInThree(c: char, sols: seq<string>)
    requires sols == ["CAT", "DOG", "ACT"]
    ensures Occurs(c, sols) <==> c in "ACDGOT"
  {
    assert forall w :: w in sols ==> w == "CAT" || w == "DOG" || w == "ACT";
    assert "CAT" in sols && "DOG" in sols;
  }

  /** A blank file gives one empty solution and no letters. */
  lemma BlankFile(text: string)
    requires AllSpace(text)
    ensures ParseWordList(text) == [""]
    ensures UniqueLetters(ParseWordList(text)) == ""
  {
    BlankText(text);
    var sols := ParseWordList(text);
    assert forall w :: w in sols ==> w == "";
    StrictlySortedUnique(UniqueLetters(sols), "");
  }

  /**
   * With a blank file loaded the browser reports that no list is loaded,
   * whatever is typed; the command line has no such check, but its letter
   * check refuses every guess of two or more characters.
   */
  lemma BlankFileRefusesEverything(text: string, found: seq<string>, input: string)
    requires AllSpace(text)
    ensures var sols := ParseWordList(text);
      BrowserOutcome(UniqueLetters(sols), sols, found, input) == NotLoaded
    ensures var sols := ParseWordList(text);
      var o := CliOutcome(UniqueLetters(sols), sols, found, input);
      o == Invalid(if |input| < 2 then TooShort else LetterNotAllowed(Upper(input)[0]))
  {
    BlankFile(text);
  }

  /** Guesses judged against the letters and solutions of "cat", "dog", "act". */
  lemma CatDogActGuesses(letters: string, sols: seq<string>)
    requires letters == "ACDGOT" && sols == ["CAT", "DOG", "ACT"]
    ensures Judge("CAT", letters, sols, []) == Accepted("CAT")
    ensures Judge("CAT", letters, sols, ["CAT"]) == AlreadyFound
    ensures Judge("COT", letters, sols, []) == Invalid(NotASolution)
    ensures Judge("CAB", letters, sols, []) == Invalid(LetterNotAllowed('B'))
    ensures Judge("A", letters, sols, []) == Invalid(TooShort)
  {
    assert letters[0] == 'A' && letters[1] == 'C' && letters[4] == 'O' && letters[5] == 'T';
    assert 'B' !in letters;
    assert FirstMissing("CAT", letters) == 3 && FirstMissing("COT", letters) == 3;
    assert "CAB"[2] == 'B' && "CAB"[0] == 'C' && "CAB"[1] == 'A';
    assert "COT" !in sols;
  }
}
