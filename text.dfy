/**
 * String primitives the game relies on: JavaScript's `trim`, `toUpperCase`,
 * `toLowerCase`, `split` on one character, `Array.prototype.join`, and the
 * decimal rendering of a score. Whitespace and case are the ASCII parts of
 * the JavaScript definitions.
 */
module Text {

  /** A sequence without repeated elements. */
  predicate Distinct<T(==)>(s: seq<T>) {
    forall i, j :: 0 <= i < j < |s| ==> s[i] != s[j]
  }

  /** The characters `trim` removes (ASCII subset). */
  predicate IsSpace(c: char) {
    c == ' ' || c == '\t' || c == '\n' || c == '\r' || c == '\U{B}' || c == '\U{C}'
  }

  predicate AllSpace(s: string) {
    forall i :: 0 <= i < |s| ==> IsSpace(s[i])
  }

  /** Removes leading whitespace: the result is the suffix after the longest all-space prefix. */
  function TrimStart(s: string): (r: string)
    ensures |r| <= |s| && r == s[|s| - |r|..]
    ensures forall k :: 0 <= k < |s| - |r| ==> IsSpace(s[k])
    ensures r == [] || !IsSpace(r[0])
  {
    if s != [] && IsSpace(s[0]) then TrimStart(s[1..]) else s
  }

  /** Removes trailing whitespace: the result is the prefix before the longest all-space suffix. */
  function TrimEnd(s: string): (r: string)
    ensures |r| <= |s| && r == s[..|r|]
    ensures forall k :: |r| <= k < |s| ==> IsSpace(s[k])
    ensures r == [] || !IsSpace(r[|r| - 1])
  {
    if s != [] && IsSpace(s[|s| - 1]) then TrimEnd(s[..|s| - 1]) else s
  }

  /**
   * `r` is the slice of `s` starting at `i`, everything before and after
   * it is whitespace, and `r` neither starts nor ends with whitespace.
   */
  predicate TrimsTo(s: string, i: nat, r: string) {
    i + |r| <= |s| && r == s[i..i + |r|] &&
    (forall k :: 0 <= k < i ==> IsSpace(s[k])) &&
    (forall k :: i + |r| <= k < |s| ==> IsSpace(s[k])) &&
    (r == [] || (!IsSpace(r[0]) && !IsSpace(r[|r| - 1])))
  }

  /** `String.prototype.trim`: the slice of `s` left after dropping whitespace at both ends. */
  function Trim(s: string): (r: string)
    ensures TrimsTo(s, |s| - |TrimStart(s)|, r)
    ensures r == [] <==> AllSpace(s)
  {
    TrimSlice(s);
    TrimEnd(TrimStart(s))
  }

  lemma TrimSlice(s: string)
    ensures TrimsTo(s, |s| - |TrimStart(s)|, TrimEnd(TrimStart(s)))
    ensures TrimEnd(TrimStart(s)) == [] <==> AllSpace(s)
  {
    var t := TrimStart(s);
    var r := TrimEnd(t);
    var i := |s| - |t|;
    assert r == s[i..i + |r|] by {
      assert t == s[i..];
    }
    forall k | i + |r| <= k < |s| ensures IsSpace(s[k]) {
      assert s[k] == t[k - i];
    }
    if r != [] {
      assert r[|r| - 1] == s[i + |r| - 1];
    }
  }

  /** A string that `trim` leaves as it is. */
  predicate IsTrimmed(s: string) {
    s == [] || (!IsSpace(s[0]) && !IsSpace(s[|s| - 1]))
  }

  lemma TrimmedIsFixed(s: string)
    requires IsTrimmed(s)
    ensures Trim(s) == s
  {
    assert TrimStart(s) == s;
    assert TrimEnd(s) == s;
  }

  lemma TrimIdempotent(s: string)
    ensures Trim(Trim(s)) == Trim(s)
  {
    TrimmedIsFixed(Trim(s));
  }

  function UpperChar(c: char): char {
    if 'a' <= c <= 'z' then (c as int - 32) as char else c
  }

  function LowerChar(c: char): char {
    if 'A' <= c <= 'Z' then (c as int + 32) as char else c
  }

  /** No small ASCII letter occurs in `s`. */
  predicate IsUpperCase(s: string) {
    forall i :: 0 <= i < |s| ==> !('a' <= s[i] <= 'z')
  }

  /** `String.prototype.toUpperCase`, character by character. */
  function Upper(s: string): (r: string)
    ensures |r| == |s|
    ensures forall i :: 0 <= i < |s| ==> r[i] == UpperChar(s[i])
    ensures IsUpperCase(r)
  {
    if s == [] then [] else [UpperChar(s[0])] + Upper(s[1..])
  }

  /** `String.prototype.toLowerCase`, character by character. */
  function Lower(s: string): (r: string)
    ensures |r| == |s|
    ensures forall i :: 0 <= i < |s| ==> r[i] == LowerChar(s[i])
  {
    if s == [] then [] else [LowerChar(s[0])] + Lower(s[1..])
  }

  /** Upper-casing leaves an upper-case string as it is; so upper-casing twice is upper-casing once. */
  lemma UpperOfUpperCase(s: string)
    requires IsUpperCase(s)
    ensures Upper(s) == s
  {
  }

  /** Lower-casing gives `w` exactly when each character lower-cases to the one of `w` at its place. */
  lemma LowerIs(line: string, w: string)
    requires |line| == |w|
    ensures Lower(line) == w <==> forall i :: 0 <= i < |w| ==> LowerChar(line[i]) == w[i]
  {
    if Lower(line) != w {
      var i :| 0 <= i < |w| && Lower(line)[i] != w[i];
    }
  }

  /** Upper-casing gives `w` exactly when each character upper-cases to the one of `w` at its place. */
  lemma UpperIs(line: string, w: string)
    requires |line| == |w|
    ensures Upper(line) == w <==> forall i :: 0 <= i < |w| ==> UpperChar(line[i]) == w[i]
  {
    if Upper(line) != w {
      var i :| 0 <= i < |w| && Upper(line)[i] != w[i];
    }
  }

  /** Upper-casing neither creates nor removes whitespace, so it keeps a trimmed string trimmed. */
  lemma UpperKeepsTrimmed(s: string)
    requires IsTrimmed(s)
    ensures IsTrimmed(Upper(s))
  {
  }

  /** Number of occurrences of `c` in `s`. */
  function Count(s: string, c: char): nat {
    if s == [] then 0 else (if s[0] == c then 1 else 0) + Count(s[1..], c)
  }

  /**
   * `String.prototype.split` with a one-character separator: the pieces
   * between consecutive separators, one more piece than there are separators.
   */
  function Split(s: string, sep: char): (r: seq<string>)
    ensures |r| == Count(s, sep) + 1
    ensures forall k :: 0 <= k < |r| ==> sep !in r[k]
  {
    if s == [] then [[]]
    else
      var rest := Split(s[1..], sep);
      if s[0] == sep then [[]] + rest
      else [[s[0]] + rest[0]] + rest[1..]
  }

  /** `Array.prototype.join(sep)`. */
  function JoinWith(ws: seq<string>, sep: string): string {
    if ws == [] then []
    else if |ws| == 1 then ws[0]
    else ws[0] + sep + JoinWith(ws[1..], sep)
  }

  /** Joining the pieces of a split with the separator gives back the string. */
  lemma {:induction false} JoinSplit(s: string, sep: char)
    ensures JoinWith(Split(s, sep), [sep]) == s
  {
    if s != [] {
      var rest := Split(s[1..], sep);
      JoinSplit(s[1..], sep);
      if s[0] == sep {
        assert Split(s, sep) == [[]] + rest;
        assert ([[]] + rest)[1..] == rest;
      } else {
        var r := Split(s, sep);
        assert r == [[s[0]] + rest[0]] + rest[1..];
        if |rest| == 1 {
          assert JoinWith(rest, [sep]) == rest[0];
        } else {
          assert r[1..] == rest[1..];
          assert JoinWith(rest, [sep]) == rest[0] + [sep] + JoinWith(rest[1..], [sep]);
        }
      }
    }
  }

  lemma {:induction false} SplitPrefix(w: string, t: string, sep: char)
    requires sep !in w
    ensures var st := Split(t, sep); Split(w + t, sep) == [w + st[0]] + st[1..]
  {
    if w != [] {
      SplitPrefix(w[1..], t, sep);
      assert (w + t)[1..] == w[1..] + t;
      assert [w[0]] + (w[1..] + Split(t, sep)[0]) == w + Split(t, sep)[0];
    } else {
      var st := Split(t, sep);
      assert w + t == t;
      assert w + st[0] == st[0];
      assert st == [st[0]] + st[1..];
    }
  }

  /** Splitting a join of separator-free pieces gives back the pieces. */
  lemma {:induction false} SplitJoin(ws: seq<string>, sep: char)
    requires ws != []
    requires forall k :: 0 <= k < |ws| ==> sep !in ws[k]
    ensures Split(JoinWith(ws, [sep]), sep) == ws
  {
    if |ws| == 1 {
      SplitPrefix(ws[0], [], sep);
      assert ws[0] + [] == ws[0];
    } else {
      var j := JoinWith(ws[1..], [sep]);
      SplitJoin(ws[1..], sep);
      assert ws[0] + [sep] + j == ws[0] + ([sep] + j);
      SplitPrefix(ws[0], [sep] + j, sep);
      assert ([sep] + j)[1..] == j;
      assert Split([sep] + j, sep) == [[]] + ws[1..];
      assert ws[0] + [] == ws[0];
    }
  }

  /** Sum of the lengths of the strings in `ws`. */
  function TotalLength(ws: seq<string>): nat {
    if ws == [] then 0 else |ws[0]| + TotalLength(ws[1..])
  }

  /** A join holds every piece and one separator between each two neighbours. */
  lemma {:induction false} JoinWithLength(ws: seq<string>, sep: string)
    requires ws != []
    ensures |JoinWith(ws, sep)| == TotalLength(ws) + (|ws| - 1) * |sep|
  {
    if |ws| > 1 {
      JoinWithLength(ws[1..], sep);
    }
  }

  /** Where piece `k` of a join starts: after the earlier pieces and one separator after each. */
  function PieceStart(ws: seq<string>, sep: string, k: nat): nat
    requires k <= |ws|
  {
    TotalLength(ws[..k]) + k * |sep|
  }

  /**
   * A join lays the pieces out in order: piece `k` sits at `PieceStart`, and
   * a separator follows every piece but the last.
   */
  lemma {:induction false} JoinWithLayout(ws: seq<string>, sep: string, k: nat)
    requires k < |ws|
    ensures var j, p := JoinWith(ws, sep), PieceStart(ws, sep, k);
      p + |ws[k]| <= |j| && j[p..p + |ws[k]|] == ws[k] &&
      (k < |ws| - 1 ==> p + |ws[k]| + |sep| <= |j| && j[p + |ws[k]|..p + |ws[k]| + |sep|] == sep)
  {
    var j := JoinWith(ws, sep);
    if k == 0 {
      assert ws[..0] == [];
      if |ws| > 1 {
        assert j == ws[0] + sep + JoinWith(ws[1..], sep);
      }
    } else {
      var rest := ws[1..];
      JoinWithLayout(rest, sep, k - 1);
      assert ws[..k][1..] == rest[..k - 1];
      assert TotalLength(ws[..k]) == |ws[0]| + TotalLength(rest[..k - 1]);
      var head := ws[0] + sep;
      assert j == head + JoinWith(rest, sep);
      assert PieceStart(ws, sep, k) == |head| + PieceStart(rest, sep, k - 1);
    }
  }

  /** The characters of a join without separator are those of its pieces. */
  lemma {:induction false} ConcatChars(ws: seq<string>, c: char)
    ensures c in JoinWith(ws, []) <==> exists w :: w in ws && c in w
  {
    if |ws| > 1 {
      ConcatChars(ws[1..], c);
      assert ws == [ws[0]] + ws[1..];
      if c in JoinWith(ws, []) {
        assert JoinWith(ws, []) == ws[0] + JoinWith(ws[1..], []);
      }
    } else if |ws| == 1 {
      assert ws[0] in ws;
    }
  }

  function DigitChar(d: nat): char
    requires d < 10
  {
    ('0' as int + d) as char
  }

  /** Decimal rendering of a number, as a template literal `${n}` gives it. */
  function NatToString(n: nat): (r: string)
    ensures r != []
    ensures forall i :: 0 <= i < |r| ==> '0' <= r[i] <= '9'
    ensures |r| > 1 ==> r[0] != '0'
  {
    if n < 10 then [DigitChar(n)] else NatToString(n / 10) + [DigitChar(n % 10)]
  }

  /** Value of a string of decimal digits. */
  function DecimalValue(s: string): nat
    requires forall i :: 0 <= i < |s| ==> '0' <= s[i] <= '9'
  {
    if s == [] then 0 else 10 * DecimalValue(s[..|s| - 1]) + (s[|s| - 1] as int - '0' as int)
  }

  /** Reading back a rendered number gives the number. */
  lemma {:induction false} DecimalRoundTrip(n: nat)
    ensures DecimalValue(NatToString(n)) == n
  {
    if n >= 10 {
      DecimalRoundTrip(n / 10);
      var r := NatToString(n);
      assert r[..|r| - 1] == NatToString(n / 10);
    }
  }
}
