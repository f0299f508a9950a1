/**
 * The only meaning the timer gives to an interval's name: an interval is a
 * break exactly when its lower-cased name contains "break" anywhere, and
 * work otherwise. The category picks the colour of the progress ring.
 */
module IntervalCategory {

  datatype Category = Work | Break

  /** Lower-casing of one character (the letters A to Z). */
  function LowerChar(c: char): (r: char)
    ensures 'A' <= c <= 'Z' ==> 'a' <= r <= 'z' && r as int - 'a' as int == c as int - 'A' as int
    ensures !('A' <= c <= 'Z') ==> r == c
  {
    if 'A' <= c <= 'Z' then (c as int - 'A' as int + 'a' as int) as char else c
  }

  /** Lower-casing of a string, character by character. */
  function Lower(s: string): (r: string)
    ensures |r| == |s|
  {
    seq(|s|, i requires 0 <= i < |s| => LowerChar(s[i]))
  }

  /** `pat` occurs in `s` starting at position `i`. */
  predicate MatchesAt(s: string, pat: string, i: int)
    requires 0 <= i <= |s| - |pat|
  {
    s[i..i + |pat|] == pat
  }

  /** When `pat` is not at the front of `s`, it occurs in `s` exactly when it occurs in `s` without its first character. */
  lemma MatchesShift(s: string, pat: string)
    requires |pat| < |s| + 1 && !MatchesAt(s, pat, 0)
    ensures (exists i :: 0 <= i <= |s| - |pat| && MatchesAt(s, pat, i))
        <==> (exists j :: 0 <= j <= |s[1..]| - |pat| && MatchesAt(s[1..], pat, j))
  {
    if j :| 0 <= j <= |s[1..]| - |pat| && MatchesAt(s[1..], pat, j) {
      assert s[j + 1..j + 1 + |pat|] == s[1..][j..j + |pat|];
      assert MatchesAt(s, pat, j + 1);
    }
    if i :| 0 <= i <= |s| - |pat| && MatchesAt(s, pat, i) {
      assert s[1..][i - 1..i - 1 + |pat|] == s[i..i + |pat|];
      assert MatchesAt(s[1..], pat, i - 1);
    }
  }

  /** Substring search, scanning from the left: it succeeds exactly when `pat` occurs at some position. */
  function Contains(s: string, pat: string): (b: bool)
    ensures b <==> exists i :: 0 <= i <= |s| - |pat| && MatchesAt(s, pat, i)
    decreases |s|
  {
    if |s| < |pat| then false
    else if s[..|pat|] == pat then
      assert MatchesAt(s, pat, 0);
      true
    else
      assert !MatchesAt(s, pat, 0);
      MatchesShift(s, pat);
      Contains(s[1..], pat)
  }

  /** Classifies an interval by its name: a break exactly when "break" occurs in the lower-cased name. */
  function Classify(name: string): (c: Category)
    ensures c == Break <==> exists i :: 0 <= i <= |name| - 5 && MatchesAt(Lower(name), "break", i)
  {
    var lower := Lower(name);
    assert |lower| - |"break"| == |name| - 5;
    if Contains(lower, "break") then Break else Work
  }

  /** Lower-casing twice is lower-casing once. */
  lemma LowerIdempotent(s: string)
    ensures Lower(Lower(s)) == Lower(s)
  {
    assert forall i :: 0 <= i < |s| ==> Lower(Lower(s))[i] == Lower(s)[i];
  }

  /** Classification does not depend on the case of the name's letters. */
  lemma ClassifyIgnoresCase(name: string)
    ensures Classify(Lower(name)) == Classify(name)
  {
    LowerIdempotent(name);
  }

  /** A name whose letters at `i` read "break" in any case is a break. */
  lemma BreakFoundAt(name: string, i: nat)
    requires i + 5 <= |name|
    requires LowerChar(name[i]) == 'b' && LowerChar(name[i + 1]) == 'r' && LowerChar(name[i + 2]) == 'e'
    requires LowerChar(name[i + 3]) == 'a' && LowerChar(name[i + 4]) == 'k'
    ensures Classify(name) == Break
  {
    var lower := Lower(name);
    assert lower[i..i + 5] == "break";
    assert MatchesAt(lower, "break", i);
  }

  /** The break names of the stock playlist, in any case, and a name that merely contains the word. */
  lemma ClassifyBreakExamples()
    ensures Classify("Short Break") == Break
    ensures Classify("Long Break") == Break
    ensures Classify("BREAK") == Break
    ensures Classify("Breakfast") == Break
  {
    BreakFoundAt("Short Break", 6);
    BreakFoundAt("Long Break", 5);
    BreakFoundAt("BREAK", 0);
    BreakFoundAt("Breakfast", 0);
  }

  /** A name with no letter b, in either case, is work. */
  lemma NoBIsWork(name: string)
    requires forall i :: 0 <= i < |name| ==> LowerChar(name[i]) != 'b'
    ensures Classify(name) == Work
  {
    var lower := Lower(name);
    forall i | 0 <= i <= |name| - 5
      ensures !MatchesAt(lower, "break", i)
    {
      assert lower[i..i + 5][0] == lower[i];
    }
  }

  /** Each work name of the stock playlist is work. */
  lemma WorkNameIsWork(name: string)
    requires name in {"Work 1", "Work 2", "Work 3", "Work 4"}
    ensures Classify(name) == Work
  {
    NoBIsWork(name);
  }

  /** A near miss: the letters of "break" out of order do not make a break. */
  lemma BrakeIsWork()
    ensures Classify("Brake") == Work
  {
    assert Lower("Brake")[2] != 'e';
  }

  /** The work names of the stock playlist, and a near miss. */
  lemma ClassifyWorkExamples()
    ensures Classify("Work 1") == Work
    ensures Classify("Work 2") == Work
    ensures Classify("Work 3") == Work
    ensures Classify("Work 4") == Work
    ensures Classify("Brake") == Work
  {
    WorkNameIsWork("Work 1");
    WorkNameIsWork("Work 2");
    WorkNameIsWork("Work 3");
    WorkNameIsWork("Work 4");
    BrakeIsWork();
  }
}
