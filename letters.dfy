/**
 * The letter set shown to the player: `[...new Set(solutions.join(''))].sort().join('')`.
 * A `Set` built from a string keeps the first occurrence of each character
 * in order; `sort` then orders the characters.
 */
module Letters {
  import opened Text

  predicate Sorted(s: string) {
    forall i, j :: 0 <= i < j < |s| ==> s[i] <= s[j]
  }

  predicate StrictlySorted(s: string) {
    forall i, j :: 0 <= i < j < |s| ==> s[i] < s[j]
  }

  /** Character `c` occurs in some word of `words`. */
  ghost predicate Occurs(c: char, words: seq<string>) {
    exists w :: w in words && c in w
  }

  /** `[...new Set(s)]`: each character once, at the place of its first occurrence. */
  function Dedup(s: string): (r: string)
    ensures Distinct(r)
    ensures forall c :: c in r <==> c in s
    ensures |r| <= |s|
  {
    if s == [] then []
    else
      var d := Dedup(s[..|s| - 1]);
      var last := s[|s| - 1];
      assert s == s[..|s| - 1] + [last];
      if last in d then d else d + [last]
  }

  /** Places `c` into the sorted string `s`, before the first character not below it. */
  function Insert(c: char, s: string): (r: string)
    requires Sorted(s)
    ensures Sorted(r)
    ensures multiset(r) == multiset(s) + multiset{c}
  {
    if s == [] || c <= s[0] then [c] + s
    else
      var t := Insert(c, s[1..]);
      InsertKeepsLeast(s, t, c);
      assert s == [s[0]] + s[1..];
      [s[0]] + t
  }

  lemma InsertKeepsLeast(s: string, t: string, c: char)
    requires s != [] && Sorted(s) && s[0] < c
    requires Sorted(t) && multiset(t) == multiset(s[1..]) + multiset{c}
    ensures Sorted([s[0]] + t)
  {
    forall k | 0 <= k < |t| ensures s[0] <= t[k] {
      assert t[k] in multiset(t);
      if t[k] != c {
        assert t[k] in multiset(s[1..]);
      }
    }
  }

  /** `Array.prototype.sort` on single characters: an insertion sort by character order. */
  function SortChars(s: string): (r: string)
    ensures Sorted(r)
    ensures multiset(r) == multiset(s)
  {
    if s == [] then []
    else
      assert s == [s[0]] + s[1..];
      Insert(s[0], SortChars(s[1..]))
  }

  lemma {:induction false} DistinctCount(s: string, c: char)
    requires Distinct(s)
    ensures multiset(s)[c] <= 1
  {
    if s != [] {
      assert s == [s[0]] + s[1..];
      DistinctCount(s[1..], c);
      if s[0] == c {
        assert c !in s[1..];
      }
    }
  }

  /** Reordering a sequence without repeats gives a sequence without repeats. */
  lemma DistinctPermutation(a: string, b: string)
    requires Distinct(a)
    requires multiset(a) == multiset(b)
    ensures Distinct(b)
  {
    if !Distinct(b) {
      var i, j :| 0 <= i < j < |b| && b[i] == b[j];
      assert b == b[..j] + [b[j]] + b[j + 1..];
      assert b[i] in b[..j];
      assert multiset(b)[b[i]] >= 2;
      DistinctCount(a, b[i]);
    }
  }

  /**
   * `generateUniqueLetters`: the characters of all solution words, each
   * once, in ascending order.
   */
  function UniqueLetters(solutions: seq<string>): (r: string)
    ensures StrictlySorted(r)
    ensures forall c :: c in r <==> Occurs(c, solutions)
  {
    var all := JoinWith(solutions, []);
    var d := Dedup(all);
    var r := SortChars(d);
    DistinctPermutation(d, r);
    forall c ensures c in r <==> Occurs(c, solutions) {
      assert c in r <==> c in multiset(r);
      assert c in d <==> c in multiset(d);
      ConcatChars(solutions, c);
    }
    r
  }

  /** Two strictly sorted strings with the same characters are equal. */
  lemma {:induction false} StrictlySortedUnique(a: string, b: string)
    requires StrictlySorted(a) && StrictlySorted(b)
    requires forall c :: c in a <==> c in b
    ensures a == b
  {
    assert a != [] ==> a[0] in b;
    assert b != [] ==> b[0] in a;
    if a != [] && b != [] {
      assert a[0] == b[0];
      forall c ensures c in a[1..] <==> c in b[1..] {
        if c in a[1..] {
          assert c != a[0];
          assert c in b;
        }
        if c in b[1..] {
          assert c != b[0];
          assert c in a;
        }
      }
      StrictlySortedUnique(a[1..], b[1..]);
      assert a == [a[0]] + a[1..];
      assert b == [b[0]] + b[1..];
    }
  }

  /**
   * The letter set depends only on which words are solutions: neither their
   * order nor repeated words change it.
   */
  lemma LettersIgnoreOrderAndRepeats(s1: seq<string>, s2: seq<string>)
    requires forall w :: w in s1 <==> w in s2
    ensures UniqueLetters(s1) == UniqueLetters(s2)
  {
    var a, b := UniqueLetters(s1), UniqueLetters(s2);
    forall c ensures c in a <==> c in b {
      assert Occurs(c, s1) <==> Occurs(c, s2);
    }
    StrictlySortedUnique(a, b);
  }

  /** Every character of a solution word is in the letter set. */
  lemma SolutionLettersAllowed(solutions: seq<string>, w: string, k: nat)
    requires w in solutions && k < |w|
    ensures w[k] in UniqueLetters(solutions)
  {
    assert Occurs(w[k], solutions);
  }
}
