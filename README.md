# Word-guessing game: a Dafny model of its game logic

The game gives the player a set of letters taken from a list of solution
words and asks for words spelled from those letters. It has two front ends:
a Node command-line program (`cli-game.js`) and a browser page (`app.js`).
Each keeps its own copy of the same logic, and that logic is what this
project models:

- **Word-list parsing.** The file text is trimmed and split on line breaks,
  and every line is trimmed and upper-cased (`WordList`).
- **Letter-set derivation.** `generateUniqueLetters` takes the distinct
  characters of all solution words and sorts them (`Letters`).
- **Guess validation.** `isValidWord` runs its checks in a fixed order and
  the first failure decides: too short, then the first letter that is not
  allowed, then not a solution (`Validation`). Its loop is the method
  `IsValidWord`, proved against the function `Validate`.
- **Guess handling.** The four module-level variables (`letters`,
  `solutions`, `foundWords`, `score`) are the class `Game.Session`. The
  command-line `guessWord(word)` and the browser `guessWord()` are two
  methods on it, so the browser's extra checks are explicit. The
  command-line line handler that tells `quit` from a guess is
  `HandleLine`. The texts shown for the letters, the score and the found
  words are functions in `Game`.
- **Notifications.** Which toast each outcome shows, and its colour
  (`Toast`).

String functions of JavaScript that the game relies on are written out in
`Text`: `trim`, `toUpperCase`, `toLowerCase`, `split` on one character,
`join`, and number-to-decimal rendering.

The model follows the code:

- Loading a list replaces the solutions and the letters only. Neither front
  end resets the found words or the score.
- Parsing never yields an empty list. A blank file gives the single empty
  solution `""` and the empty letter set. So the "file is empty" branch of
  `processFileContents` (app.js:31-32) can never run, and no load error
  exists. In the browser, the empty letter set is what makes later guesses
  report that no list is loaded.
- The command-line copy has no "not loaded" check and no empty-input check.
  An empty line is refused as too short.

## Model

| member | source | states |
|---|---|---|
| Text.Trim | cli-game.js:28 | `trim` returns the slice of the input left after dropping the longest whitespace prefix and then the longest whitespace suffix; the result is empty exactly when the input is all whitespace |
| Text.TrimStart | cli-game.js:28 | the result is a suffix of the input; everything dropped is whitespace; the result does not start with whitespace |
| Text.TrimEnd | cli-game.js:28 | the result is a prefix of the input; everything dropped is whitespace; the result does not end with whitespace |
| Text.TrimmedIsFixed | cli-game.js:28 | `trim` leaves a string with no whitespace at either end unchanged |
| Text.TrimIdempotent | cli-game.js:28 | trimming twice is trimming once |
| Text.Upper | cli-game.js:72 | `toUpperCase` keeps the length, maps each character to its capital and leaves no small letter |
| Text.Lower | cli-game.js:94 | `toLowerCase` keeps the length and maps each character to its small letter |
| Text.UpperOfUpperCase | cli-game.js:72 | upper-casing an upper-case string changes nothing |
| Text.UpperIs | cli-game.js:72 | for a word of the same length, upper-casing gives it exactly when each character upper-cases to that word's character at the same place |
| Text.LowerIs | cli-game.js:94 | for a word of the same length, lower-casing gives it exactly when each character lower-cases to that word's character at the same place |
| Text.UpperKeepsTrimmed | cli-game.js:28 | upper-casing keeps a trimmed string trimmed |
| Text.Split | cli-game.js:28 | `split` gives one piece more than there are separators, and no piece holds a separator |
| Text.JoinSplit | cli-game.js:28 | joining the pieces of a split with the separator gives back the string |
| Text.SplitJoin | cli-game.js:28 | splitting a join of separator-free pieces gives back the pieces |
| Text.JoinWith | cli-game.js:39 | `join(sep)`: nothing for no pieces, the piece itself for one, otherwise the first piece, the separator and the join of the rest |
| Text.JoinWithLayout | cli-game.js:84 | in a join, piece k starts after the earlier pieces and one separator after each, and a separator follows every piece but the last |
| Text.JoinWithLength | cli-game.js:84 | a join holds every piece plus one separator between each two neighbours |
| Text.ConcatChars | cli-game.js:39 | a character is in `solutions.join('')` exactly when it is in one of the words |
| Text.NatToString | cli-game.js:83 | a number renders as a non-empty string of decimal digits with no leading zero |
| Text.DecimalRoundTrip | cli-game.js:83 | reading back the rendered number gives the number |
| Letters.Dedup | cli-game.js:40 | `[...new Set(s)]` has no repeats and holds exactly the characters of `s` |
| Letters.Insert | cli-game.js:40 | inserting into a sorted string keeps it sorted and adds exactly that character |
| Letters.SortChars | cli-game.js:40 | `sort()` on characters gives a sorted permutation of its input |
| Letters.DistinctPermutation | cli-game.js:40 | sorting a repeat-free string keeps it repeat-free |
| Letters.UniqueLetters | cli-game.js:38-41 | the letter set is strictly sorted, and a character is in it exactly when it occurs in some solution word |
| Letters.StrictlySortedUnique | cli-game.js:38-41 | two strictly sorted strings with the same characters are equal, so the letter set is determined by its characters |
| Letters.LettersIgnoreOrderAndRepeats | cli-game.js:39-40 | two solution lists holding the same words, in any order and with any repeats, give the same letter set |
| Letters.SolutionLettersAllowed | cli-game.js:38-41 | every character of every solution word is in the letter set |
| WordList.Lines | cli-game.js:28 | the lines of the trimmed text are never an empty sequence, hold no line break, and joined with line breaks give the trimmed text back |
| WordList.Normalize | cli-game.js:28 | a parsed entry is trimmed and upper case, and holds no line break if its line held none |
| WordList.ParseWordList | cli-game.js:28 | parsing gives one entry per line of the trimmed text (one more than its line breaks, so never none); entry k is line k trimmed and upper-cased |
| WordList.BlankText | app.js:26-27 | a blank text parses to the single empty word, not to an empty list |
| WordList.WriteThenParse | cli-game.js:28 | writing trimmed upper-case words one per line and parsing the text gives the words back, if the first and last words are not empty |
| Validation.Validate | cli-game.js:48-65 | the verdict of `isValidWord`: too short if under two characters, else the first character not in the letters, else not a solution if missing from the solutions, else valid |
| Validation.FirstMissing | cli-game.js:54-59 | the position of the first character not in the letters, or the length if every character is allowed |
| Validation.IsValidWord | cli-game.js:48-65 | the loop returns exactly the verdict of `Validate`: too short, else the first refused letter, else not a solution, else valid |
| Validation.CheckOrder | cli-game.js:49-63 | a short word is refused before any other check; a refused letter is exactly the first disallowed character of a word of length at least 2; "not a solution" is reported exactly when the length and letter checks pass and the word is missing from the solutions |
| Validation.ValidIffSolution | cli-game.js:38-41 | with the letter set derived from the solutions, a word is valid exactly when it has at least two characters and is a solution |
| Game.Judge | cli-game.js:73-80 | the checks both copies of `guessWord` share, on the upper-cased word: the `isValidWord` verdict, then already found, then accepted |
| Game.CliOutcome | cli-game.js:71-80 | the command-line guess: the shared checks on the upper-cased input, with no other guard |
| Game.BrowserOutcome | app.js:41-55 | the browser guess: "not loaded" while there are no letters, then an empty upper-cased input is ignored, then the shared checks |
| Game.Record | cli-game.js:80 | an accepted word is appended at the end of the found words; every other outcome leaves them as they were |
| Game.AcceptedIff | cli-game.js:71-85 | both copies of `guessWord` accept exactly an upper-cased input that is at least two characters long, is a solution and has not been found |
| Game.AcceptKeepsDistinct | app.js:51-56 | a guess keeps the found words repeat-free and grows them by one exactly on acceptance; the accepted word is the upper-cased input |
| Game.SecondGuessAlreadyFound | cli-game.js:72-79 | after an acceptance, a guess of the same word in any letter case is reported as already found by both copies |
| Game.VariantsDiffer | app.js:42-47 | the browser reports "not loaded" while there are no letters and ignores an empty input; the command line refuses an empty line as too short; otherwise the two copies agree |
| Game.IsQuit | cli-game.js:94 | a line is the quit command when it lower-cases to `quit` |
| Game.QuitIff | cli-game.js:94 | under ASCII case mapping, a line ends the game exactly when it is four characters long and upper-cases to `QUIT` |
| Game.LettersLine | cli-game.js:91 | the letters display is `Letters: ` followed by the letters |
| Game.ScoreLine | app.js:82 | the score display is `Score: ` followed by decimal digits with no leading zero that read back as the score |
| Game.FoundWordsLine | app.js:81 | the found-words display is `Found Words: ` followed by the found words in the order they were found, each at its place with `, ` between each two, and nothing else (its length counts exactly the words and separators) |
| Game.Session.constructor | cli-game.js:5-8 | the game starts with no letters, no solutions, no found words and score 0, and the session invariant holds |
| Game.Session.GenerateUniqueLetters | cli-game.js:38-41 | the letters become the letter set of the current solutions, and nothing else changes |
| Game.Session.LoadWordList | cli-game.js:28-29 | the command-line load sets the solutions to the parsed text and the letters to their letter set; found words and score are kept; the invariant is preserved |
| Game.Session.ProcessFileContents | app.js:25-34 | the browser load does the same, and its "file is empty" branch is unreachable |
| Game.Session.GuessWordCli | cli-game.js:71-85 | the outcome is that of the upper-cased input; an acceptance appends the word and adds 1 to the score; any other outcome changes nothing; the score stays the number of found words and the found words stay repeat-free |
| Game.Session.GuessWordBrowser | app.js:41-60 | the same for the browser copy, which first reports "not loaded" when there are no letters and ignores an empty input, leaving the state unchanged |
| Game.Session.HandleLine | cli-game.js:93-102 | a line that lower-cases to `quit` ends the game with the current score and found words and changes nothing; every other line goes to `guessWord` |
| Toast.NoticeFor | app.js:41-78 | an ignored guess (an empty input once letters exist) shows no toast; an already-found word shows a warning; an acceptance shows a success; every other outcome, "not loaded" included, shows an error |
| Toast.Background | app.js:91 | `showToast` colours an error `#ff6b6b`, a warning `#feca57` and anything else `#48dbfb` |
| Toast.BackgroundsDiffer | app.js:91 | each toast kind has its own background colour |
| Toast.SuccessIffRecorded | app.js:51-59 | a browser guess shows a success toast exactly when it changes the found words |
| Scenarios.CatDogActLetters | cli-game.js:38-41 | the solutions `CAT`, `DOG`, `ACT` give the letter set `ACDGOT` |
| Scenarios.CatDogActGuesses | cli-game.js:48-79 | against those solutions, `CAT` is accepted and then already found, `COT` is not a solution, `CAB` is refused at `B`, and `A` is too short |
| Scenarios.BlankFile | app.js:26-28 | a blank file gives the solutions `[""]` and no letters |
| Scenarios.BlankFileRefusesEverything | app.js:42-45 | after a blank file, the browser reports "not loaded" for every input, and the command line refuses every input as too short or at its first letter |

## Left out

- Reading the file and the terminal (`fs.readFile`, `readline`), the
  Promise around the load, and the load error path: the model starts from
  the text that was read and the line that was typed.
- The line handler's `rl.close()`: the model does not stop further lines
  from arriving after `quit`. `HandleLine` reports the quit and changes nothing.
- jQuery event wiring, `FileReader`, reading and clearing the input box, and
  writing the display texts into the page. The browser guess takes the input
  box's value as a parameter. The display texts are functions.
- `Toastify` itself and the toast's duration and position. Only the toast
  kind and its colour are modelled.
- Console and toast message wording: outcomes are a datatype.
- Unicode: `trim` removes only ASCII space, tab, line feed, carriage return,
  vertical tab and form feed; `toUpperCase` and `toLowerCase` change only
  ASCII letters.
- Validation.Validate / IsValidWord: `word.length` in JavaScript counts UTF-16
  code units, and `for (let char of word)` walks code points. The model counts
  and walks Dafny characters. A word holding a character outside the Basic
  Multilingual Plane, such as an emoji, is therefore measured shorter in the
  model than in the source: a one-emoji solution guessed as itself is
  accepted by the source but refused as too short by the model.
- `sort()` order: JavaScript compares UTF-16 code units. The model sorts by
  Dafny `char` order, which is the same for characters of the Basic
  Multilingual Plane.
- Game.Session.HandleLine: the message printed after a guess and the prompt
  for the next word are not modelled.
- The welcome, prompt and "loaded" messages of the command-line start-up.
