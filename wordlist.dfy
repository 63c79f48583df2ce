/**
 * Parsing the word-list text into the solution list:
 * `text.trim().split('\n').map(word => word.trim().toUpperCase())`.
 */
module WordList {
  import opened Text

  /** The lines of the trimmed text: every piece between two line breaks, empty ones included. */
  function Lines(text: string): (r: seq<string>)
    ensures r != []
    ensures forall k :: 0 <= k < |r| ==> '\n' !in r[k]
    ensures JoinWith(r, "\n") == Trim(text)
  {
    JoinSplit(Trim(text), '\n');
    Split(Trim(text), '\n')
  }

  /** One line as a solution word: trimmed and upper-cased. */
  function Normalize(line: string): (w: string)
    ensures IsTrimmed(w) && IsUpperCase(w)
    ensures '\n' !in line ==> '\n' !in w
  {
    UpperKeepsTrimmed(Trim(line));
    Upper(Trim(line))
  }

  /** A word that parsing leaves as it is. */
  predicate IsNormal(w: string) {
    IsTrimmed(w) && IsUpperCase(w) && '\n' !in w
  }

  /**
   * The solution list: one entry per line of the trimmed text, each entry
   * trimmed and upper-cased. Never empty: a blank text gives one empty entry.
   */
  function ParseWordList(text: string): (r: seq<string>)
    ensures |r| == |Lines(text)| == Count(Trim(text), '\n') + 1
    ensures forall k :: 0 <= k < |r| ==> r[k] == Normalize(Lines(text)[k])
    ensures forall k :: 0 <= k < |r| ==> IsNormal(r[k])
  {
    var lines := Lines(text);
    seq(|lines|, k requires 0 <= k < |lines| => Normalize(lines[k]))
  }

  /** A blank text parses to a single empty word. */
  lemma BlankText(text: string)
    requires AllSpace(text)
    ensures ParseWordList(text) == [""]
  {
    assert Trim(text) == [];
    assert Lines(text) == [[]];
  }

  lemma JoinFirst(ws: seq<string>, sep: string)
    requires ws != [] && ws[0] != []
    ensures JoinWith(ws, sep) != [] && JoinWith(ws, sep)[0] == ws[0][0]
  {
  }

  lemma {:induction false} JoinLast(ws: seq<string>, sep: string)
    requires ws != [] && ws[|ws| - 1] != []
    ensures var j := JoinWith(ws, sep);
      j != [] && j[|j| - 1] == ws[|ws| - 1][|ws[|ws| - 1]| - 1]
  {
    if |ws| > 1 {
      JoinLast(ws[1..], sep);
    }
  }

  /**
   * Writing normalised words one per line and parsing the text gives the
   * words back, provided the first and the last are not empty (an empty
   * word at either end would be trimmed away with the surrounding text).
   */
  lemma WriteThenParse(ws: seq<string>)
    requires ws != [] && ws[0] != [] && ws[|ws| - 1] != []
    requires forall k :: 0 <= k < |ws| ==> IsNormal(ws[k])
    ensures ParseWordList(JoinWith(ws, "\n")) == ws
  {
    var text := JoinWith(ws, "\n");
    JoinIsTrimmed(ws);
    TrimmedIsFixed(text);
    assert Lines(text) == ws by {
      SplitJoin(ws, '\n');
    }
    NormalWordsFixed(ws);
  }

  lemma JoinIsTrimmed(ws: seq<string>)
    requires ws != [] && ws[0] != [] && ws[|ws| - 1] != []
    requires IsTrimmed(ws[0]) && IsTrimmed(ws[|ws| - 1])
    ensures IsTrimmed(JoinWith(ws, "\n"))
  {
    JoinFirst(ws, "\n");
    JoinLast(ws, "\n");
  }

  lemma NormalWordsFixed(ws: seq<string>)
    requires forall k :: 0 <= k < |ws| ==> IsNormal(ws[k])
    ensures seq(|ws|, k requires 0 <= k < |ws| => Normalize(ws[k])) == ws
  {
    forall k | 0 <= k < |ws| ensures Normalize(ws[k]) == ws[k] {
      TrimmedIsFixed(ws[k]);
      UpperOfUpperCase(ws[k]);
    }
  }
}
