/**
 * The browser's notifications: which kind of toast each guess outcome
 * shows, and the background colour `showToast` gives each kind.
 */
module Toast {
  import opened Game

  datatype Kind = Error | Warning | Success

  /** A guess either shows one toast or, for an empty input, none. */
  datatype Notice = Silent | Show(kind: Kind)

  /** The toast `guessWord` and `isValidWord` show for an outcome. */
  function NoticeFor(o: Outcome): (n: Notice)
    ensures n == Silent <==> o == Ignored
    ensures n == Show(Warning) <==> o == AlreadyFound
    ensures n == Show(Success) <==> o.Accepted?
    ensures n == Show(Error) <==> (o == NotLoaded || o.Invalid?)
  {
    match o
    case NotLoaded => Show(Error)
    case Ignored => Silent
    case Invalid(_) => Show(Error)
    case AlreadyFound => Show(Warning)
    case Accepted(_) => Show(Success)
  }

  /** The background colour `showToast` picks: error, then warning, anything else. */
  function Background(k: Kind): string {
    if k == Error then "#ff6b6b" else if k == Warning then "#feca57" else "#48dbfb"
  }

  /** Each kind of toast has its own colour. */
  lemma BackgroundsDiffer(k1: Kind, k2: Kind)
    ensures Background(k1) == Background(k2) <==> k1 == k2
  {
    assert "#ff6b6b"[2] == 'f' && "#feca57"[2] == 'e' && "#48dbfb"[2] == '8';
  }

  /**
   * A browser guess shows a success toast exactly when it changes the
   * found words; every other toast, and the silent case, leaves them as
   * they were.
   */
  lemma SuccessIffRecorded(letters: string, solutions: seq<string>, found: seq<string>, input: string)
    ensures var o := BrowserOutcome(letters, solutions, found, input);
      NoticeFor(o) == Show(Success) <==> Record(found, o) != found
  {
    var o := BrowserOutcome(letters, solutions, found, input);
    if o.Accepted? {
      assert |Record(found, o)| == |found| + 1;
    }
  }
}
