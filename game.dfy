/**
 * The game session: solutions, letters, found words and score, held by both
 * front ends as four globals and updated in place. The command-line copy
 * (`guessWord(word)`) and the browser copy (`guessWord()` reading the input
 * box) are two methods over the same state.
 */
module Game {
  import opened Text
  import opened Letters
  import opened WordList
  import opened Validation

  /** What one guess leads to; each front end reports it as a message. */
  datatype Outcome =
    | NotLoaded               // browser only: no letters yet
    | Ignored                 // browser only: empty input, nothing reported
    | Invalid(reason: Rejection)
    | AlreadyFound
    | Accepted(word: string)

  /** The part of `guessWord` both copies share, for an upper-cased word. */
  function Judge(word: string, letters: string, solutions: seq<string>, found: seq<string>): Outcome {
    match Validate(word, letters, solutions)
    case Fail(why) => Invalid(why)
    case Pass => if word in found then AlreadyFound else Accepted(word)
  }

  /** The outcome of the command-line `guessWord(input)`. */
  function CliOutcome(letters: string, solutions: seq<string>, found: seq<string>, input: string): Outcome {
    Judge(Upper(input), letters, solutions, found)
  }

  /** The outcome of the browser `guessWord()` with `input` in the input box. */
  function BrowserOutcome(letters: string, solutions: seq<string>, found: seq<string>, input: string): Outcome {
    if letters == [] then NotLoaded
    else if Upper(input) == [] then Ignored
    else Judge(Upper(input), letters, solutions, found)
  }

  /** The found words after a guess with outcome `o`: an accepted word goes at the end. */
  function Record(found: seq<string>, o: Outcome): seq<string> {
    if o.Accepted? then found + [o.word] else found
  }

  /**
   * Both copies accept exactly the upper-cased input that is at least two
   * characters long, is a solution and has not been found yet; the letter
   * check never refuses a solution word.
   */
  lemma AcceptedIff(solutions: seq<string>, found: seq<string>, input: string)
    ensures var w := Upper(input);
      CliOutcome(UniqueLetters(solutions), solutions, found, input).Accepted? <==>
        (2 <= |w| && w in solutions && w !in found)
    ensures var w := Upper(input);
      BrowserOutcome(UniqueLetters(solutions), solutions, found, input).Accepted? <==>
        (2 <= |w| && w in solutions && w !in found)
  {
    var w := Upper(input);
    ValidIffSolution(w, solutions);
    if 2 <= |w| && w in solutions {
      SolutionLettersAllowed(solutions, w, 0);
    }
  }

  /**
   * An accepted guess keeps the found words free of repeats and grows them
   * by exactly the accepted word, which is at least two characters long
   * and upper case.
   */
  lemma AcceptKeepsDistinct(letters: string, solutions: seq<string>, found: seq<string>, input: string)
    requires Distinct(found)
    ensures var o := CliOutcome(letters, solutions, found, input);
      Distinct(Record(found, o)) &&
      |Record(found, o)| == |found| + (if o.Accepted? then 1 else 0) &&
      (o.Accepted? ==> o.word == Upper(input) && 2 <= |o.word| && IsUpperCase(o.word))
    ensures var o := BrowserOutcome(letters, solutions, found, input);
      Distinct(Record(found, o)) &&
      |Record(found, o)| == |found| + (if o.Accepted? then 1 else 0) &&
      (o.Accepted? ==> o.word == Upper(input) && 2 <= |o.word| && IsUpperCase(o.word))
  {
  }

  /**
   * Guessing again after an acceptance, in any letter case, reports the
   * word as already found.
   */
  lemma SecondGuessAlreadyFound(letters: string, solutions: seq<string>, found: seq<string>,
                                input: string, again: string)
    requires CliOutcome(letters, solutions, found, input).Accepted?
    requires Upper(again) == Upper(input)
    ensures var found' := Record(found, CliOutcome(letters, solutions, found, input));
      CliOutcome(letters, solutions, found', again) == AlreadyFound &&
      BrowserOutcome(letters, solutions, found', again) == AlreadyFound
  {
  }

  /**
   * Where the copies differ: the browser reports a missing word list and
   * ignores an empty input; the command line sends an empty line to the
   * length check. Otherwise they agree.
   */
  lemma VariantsDiffer(letters: string, solutions: seq<string>, found: seq<string>, input: string)
    ensures letters == [] ==> BrowserOutcome(letters, solutions, found, input) == NotLoaded
    ensures letters != [] && input == [] ==> BrowserOutcome(letters, solutions, found, input) == Ignored
    ensures input == [] ==> CliOutcome(letters, solutions, found, input) == Invalid(TooShort)
    ensures letters != [] && input != [] ==>
      BrowserOutcome(letters, solutions, found, input) == CliOutcome(letters, solutions, found, input)
  {
  }

  lemma DistinctAppend(s: seq<string>, x: string)
    requires Distinct(s) && x !in s
    ensures Distinct(s + [x])
  {
  }

  /** The command-line line handler stops on `quit` in any letter case. */
  predicate IsQuit(line: string) {
    Lower(line) == "quit"
  }

  /** Under ASCII case mapping, a line is the quit command exactly when it is `quit` up to letter case. */
  lemma QuitIff(line: string)
    ensures IsQuit(line) <==> |line| == 4 && Upper(line) == "QUIT"
  {
    if |line| == 4 {
      QuitFourLetters(line);
    } else {
      assert |Lower(line)| != |"quit"|;
    }
  }

  lemma QuitFourLetters(line: string)
    requires |line| == 4
    ensures Lower(line) == "quit" <==> Upper(line) == "QUIT"
  {
    LowerIs(line, "quit");
    UpperIs(line, "QUIT");
    forall i | 0 <= i < 4 ensures LowerChar(line[i]) == "quit"[i] <==> UpperChar(line[i]) == "QUIT"[i] {
      SameLetter(line[i], "quit"[i], "QUIT"[i]);
    }
  }

  /** A character lower-cases to a small letter exactly when it upper-cases to its capital. */
  lemma SameLetter(c: char, small: char, cap: char)
    requires 'a' <= small <= 'z' && cap as int == small as int - 32
    ensures LowerChar(c) == small <==> UpperChar(c) == cap
  {
  }

  /** What the command-line line handler does with one line. */
  datatype LineResult = Quit(finalScore: nat, found: seq<string>) | Guessed(outcome: Outcome)

  /** The text the display shows for the letter set. */
  function LettersLine(letters: string): (r: string)
    ensures |r| == 9 + |letters| && r[..9] == "Letters: " && r[9..] == letters
  {
    "Letters: " + letters
  }

  /** The text the display shows for the score; the number reads back as the score. */
  function ScoreLine(score: nat): (r: string)
    ensures |r| > 7 && r[..7] == "Score: "
    ensures forall i :: 7 <= i < |r| ==> '0' <= r[i] <= '9'
    ensures DecimalValue(r[7..]) == score
    ensures |r| > 8 ==> r[7] != '0'
  {
    DecimalRoundTrip(score);
    var r := "Score: " + NatToString(score);
    assert r[7..] == NatToString(score);
    r
  }

  /**
   * The text the display shows for the found words: the prefix, then the
   * words in the order they were found, with ", " between each two.
   */
  function FoundWordsLine(found: seq<string>): (r: string)
    ensures |r| >= 13 && r[..13] == "Found Words: "
    ensures |r| == 13 + (if found == [] then 0 else TotalLength(found) + 2 * (|found| - 1))
    ensures forall k :: 0 <= k < |found| ==>
      13 + PieceStart(found, ", ", k) + |found[k]| <= |r| &&
      r[13 + PieceStart(found, ", ", k)..13 + PieceStart(found, ", ", k) + |found[k]|] == found[k]
    ensures forall k :: 0 <= k < |found| - 1 ==>
      13 + PieceStart(found, ", ", k) + |found[k]| + 2 <= |r| &&
      r[13 + PieceStart(found, ", ", k) + |found[k]|..13 + PieceStart(found, ", ", k) + |found[k]| + 2] == ", "
  {
    var j := JoinWith(found, ", ");
    assert found != [] ==> |j| == TotalLength(found) + 2 * (|found| - 1) by {
      if found != [] {
        JoinWithLength(found, ", ");
      }
    }
    var r := "Found Words: " + j;
    assert forall a, b :: 0 <= a <= b <= |j| ==> r[13 + a..13 + b] == j[a..b];
    assert forall k :: 0 <= k < |found| ==>
      PieceStart(found, ", ", k) + |found[k]| <= |j| &&
      j[PieceStart(found, ", ", k)..PieceStart(found, ", ", k) + |found[k]|] == found[k] &&
      (k < |found| - 1 ==>
        (PieceStart(found, ", ", k) + |found[k]| + 2 <= |j| &&
         j[PieceStart(found, ", ", k) + |found[k]|..PieceStart(found, ", ", k) + |found[k]| + 2] == ", "))
    by {
      forall k | 0 <= k < |found| {
        JoinWithLayout(found, ", ", k);
      }
    }
    r
  }

  /** The game state both front ends keep in module-level variables. */
  class Session {
    var letters: string
    var solutions: seq<string>
    var foundWords: seq<string>
    var score: nat

    /**
     * The letters are those of the current solutions, the score counts the
     * found words and no word is found twice.
     */
    ghost predicate Valid()
      reads this
    {
      letters == UniqueLetters(solutions) && score == |foundWords| && Distinct(foundWords)
    }

    /** The initial values of the four globals. */
    constructor ()
      ensures Valid()
      ensures letters == [] && solutions == [] && foundWords == [] && score == 0
    {
      letters, solutions, foundWords, score := [], [], [], 0;
    }

    /** `generateUniqueLetters`: recomputes the letter set from the solutions. */
    method GenerateUniqueLetters()
      modifies this
      ensures letters == UniqueLetters(solutions)
      ensures solutions == old(solutions) && foundWords == old(foundWords) && score == old(score)
    {
      letters := UniqueLetters(solutions);
    }

    /**
     * The command-line load, once the file is read: replaces the solutions
     * and the letters. Found words and score are kept.
     */
    method LoadWordList(data: string)
      requires Valid()
      modifies this
      ensures Valid()
      ensures solutions == ParseWordList(data) && letters == UniqueLetters(solutions)
      ensures foundWords == old(foundWords) && score == old(score)
    {
      solutions := ParseWordList(data);
      GenerateUniqueLetters();
    }

    /**
     * `processFileContents`: the browser load. Its "file is empty" branch
     * cannot be taken, since parsing always yields at least one entry.
     */
    method ProcessFileContents(contents: string)
      requires Valid()
      modifies this
      ensures Valid()
      ensures solutions == ParseWordList(contents) && letters == UniqueLetters(solutions)
      ensures foundWords == old(foundWords) && score == old(score)
    {
      solutions := ParseWordList(contents);
      if |solutions| > 0 {
        GenerateUniqueLetters();
      } else {
        assert false;
      }
    }

    /** The command-line `guessWord(word)`. */
    method GuessWordCli(input: string) returns (o: Outcome)
      requires Valid()
      modifies this
      ensures Valid()
      ensures o == CliOutcome(letters, solutions, old(foundWords), input)
      ensures letters == old(letters) && solutions == old(solutions)
      ensures foundWords == Record(old(foundWords), o)
      ensures score == old(score) + (if o.Accepted? then 1 else 0)
    {
      var word := Upper(input);
      var check := IsValidWord(word, letters, solutions);
      assert Judge(word, letters, solutions, foundWords) ==
        if check.Fail? then Invalid(check.reason)
        else if word in foundWords then AlreadyFound
        else Accepted(word);
      if check.Fail? {
        return Invalid(check.reason);
      }
      if word in foundWords {
        return AlreadyFound;
      }
      DistinctAppend(foundWords, word);
      foundWords := foundWords + [word];
      score := score + 1;
      o := Accepted(word);
    }

    /** The browser `guessWord()`, with the input box's value passed in. */
    method GuessWordBrowser(input: string) returns (o: Outcome)
      requires Valid()
      modifies this
      ensures Valid()
      ensures o == BrowserOutcome(letters, solutions, old(foundWords), input)
      ensures letters == old(letters) && solutions == old(solutions)
      ensures foundWords == Record(old(foundWords), o)
      ensures score == old(score) + (if o.Accepted? then 1 else 0)
    {
      if letters == [] {
        return NotLoaded;
      }
      var word := Upper(input);
      if word == [] {
        return Ignored;
      }
      var check := IsValidWord(word, letters, solutions);
      assert Judge(word, letters, solutions, foundWords) ==
        if check.Fail? then Invalid(check.reason)
        else if word in foundWords then AlreadyFound
        else Accepted(word);
      if check.Fail? {
        return Invalid(check.reason);
      }
      if word in foundWords {
        return AlreadyFound;
      }
      DistinctAppend(foundWords, word);
      foundWords := foundWords + [word];
      score := score + 1;
      o := Accepted(word);
    }

    /** The command-line line handler: `quit` ends the game, any other line is a guess. */
    method HandleLine(line: string) returns (r: LineResult)
      requires Valid()
      modifies this
      ensures Valid()
      ensures r.Quit? <==> IsQuit(line)
      ensures r.Quit? ==> r == Quit(score, foundWords)
      ensures r.Quit? ==> foundWords == old(foundWords) && score == old(score)
      ensures r.Guessed? ==> r.outcome == CliOutcome(letters, solutions, old(foundWords), line)
      ensures r.Guessed? ==> foundWords == Record(old(foundWords), r.outcome)
      ensures r.Guessed? ==> score == old(score) + (if r.outcome.Accepted? then 1 else 0)
      ensures letters == old(letters) && solutions == old(solutions)
    {
      if Lower(line) == "quit" {
        r := Quit(score, foundWords);
      } else {
        var o := GuessWordCli(line);
        r := Guessed(o);
      }
    }
  }
}
