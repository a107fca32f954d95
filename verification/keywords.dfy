/** `get_keywords` of `app.py`: the set of maximal runs of word characters in
    the lower-cased product name (`re.findall(r'\b\w+\b', name.lower())`).
    Word characters and lower-casing are taken over ASCII. */
module Keywords {

  /** `\w` over ASCII: letters, digits and the underscore. */
  predicate IsWordChar(c: char) {
    'a' <= c <= 'z' || 'A' <= c <= 'Z' || '0' <= c <= '9' || c == '_'
  }

  function LowerChar(c: char): (d: char)
    ensures IsWordChar(d) <==> IsWordChar(c)
    ensures !('A' <= d <= 'Z')
  {
    if 'A' <= c <= 'Z' then (c as int - 'A' as int + 'a' as int) as char else c
  }

  /** `s.lower()` over ASCII. */
  function Lower(s: string): (r: string)
    ensures |r| == |s|
    ensures forall i :: 0 <= i < |s| ==> r[i] == LowerChar(s[i])
  {
    seq(|s|, i requires 0 <= i < |s| => LowerChar(s[i]))
  }

  /** `s[a..b]` is a maximal run of word characters: non-empty, all word
      characters, and bounded by a non-word character or an end of `s` on
      either side. */
  ghost predicate MaximalRun(s: string, a: int, b: int) {
    && 0 <= a < b <= |s|
    && (forall k :: a <= k < b ==> IsWordChar(s[k]))
    && (a == 0 || !IsWordChar(s[a - 1]))
    && (b == |s| || !IsWordChar(s[b]))
  }

  /** The end of the run of word characters that starts at `i`. */
  function RunEnd(s: string, i: nat): (j: nat)
    requires i <= |s|
    ensures i <= j <= |s|
    ensures forall k :: i <= k < j ==> IsWordChar(s[k])
    ensures j == |s| || !IsWordChar(s[j])
    decreases |s| - i
  {
    if i < |s| && IsWordChar(s[i]) then RunEnd(s, i + 1) else i
  }

  /** A non-empty string of word characters. */
  predicate IsWord(w: string) {
    |w| > 0 && forall k :: 0 <= k < |w| ==> IsWordChar(w[k])
  }

  /** The matches of `\b\w+\b` in `s` from position `i` on, in order. */
  function RunsFrom(s: string, i: nat): (r: seq<string>)
    requires i <= |s|
    ensures forall k :: 0 <= k < |r| ==> IsWord(r[k])
    decreases |s| - i
  {
    if i == |s| then []
    else if !IsWordChar(s[i]) then RunsFrom(s, i + 1)
    else
      var j := RunEnd(s, i);
      var w := s[i..j];
      assert forall k :: 0 <= k < |w| ==> w[k] == s[i + k];
      var rest := RunsFrom(s, j);
      assert forall k :: 0 < k < |rest| + 1 ==> ([w] + rest)[k] == rest[k - 1];
      [w] + rest
  }

  /** `i` is not strictly inside a run of word characters. */
  predicate AtBoundary(s: string, i: nat)
    requires i <= |s|
  {
    i == 0 || i == |s| || !IsWordChar(s[i - 1]) || !IsWordChar(s[i])
  }

  /** Every run found from a boundary `i` is a maximal run starting at or
      after `i`. */
  lemma {:induction false} RunsFromSound(s: string, i: nat, w: string)
    requires i <= |s| && AtBoundary(s, i)
    requires w in RunsFrom(s, i)
    ensures exists a, b :: i <= a && MaximalRun(s, a, b) && w == s[a..b]
    decreases |s| - i
  {
    if !IsWordChar(s[i]) {
      RunsFromSound(s, i + 1, w);
      var a, b :| i + 1 <= a && MaximalRun(s, a, b) && w == s[a..b];
    } else {
      var j := RunEnd(s, i);
      if w == s[i..j] {
        assert MaximalRun(s, i, j);
      } else {
        RunsFromSound(s, j, w);
        var a, b :| j <= a && MaximalRun(s, a, b) && w == s[a..b];
      }
    }
  }

  /** Every maximal run starting at or after a boundary `i` is found. */
  lemma {:induction false} RunsFromComplete(s: string, i: nat, a: int, b: int)
    requires i <= |s| && AtBoundary(s, i)
    requires i <= a && MaximalRun(s, a, b)
    ensures s[a..b] in RunsFrom(s, i)
    decreases |s| - i
  {
    if !IsWordChar(s[i]) {
      assert a != i;
      RunsFromComplete(s, i + 1, a, b);
    } else {
      var j := RunEnd(s, i);
      if a == i {
        if b < j {
          assert false;
        } else if j < b {
          assert false;
        }
      } else {
        if a < j {
          assert false;
        }
        RunsFromComplete(s, j, a, b);
      }
    }
  }

  /** `get_keywords(name)`: every keyword is a non-empty string of word
      characters, and a name without word characters has none. */
  function KeywordSet(name: string): (r: set<string>)
    ensures forall w :: w in r ==> IsWord(w)
    ensures (forall k :: 0 <= k < |name| ==> !IsWordChar(name[k])) ==> r == {}
  {
    NoWordCharNoRuns(Lower(name), 0);
    set w | w in RunsFrom(Lower(name), 0)
  }

  /** A word is a keyword of `name` exactly when it is a maximal run of word
      characters of the lower-cased name. */
  lemma {:induction false} KeywordsAreMaximalRuns(name: string, w: string)
    ensures w in KeywordSet(name) <==>
            exists a, b :: MaximalRun(Lower(name), a, b) && w == Lower(name)[a..b]
  {
    var s := Lower(name);
    if w in KeywordSet(name) {
      RunsFromSound(s, 0, w);
    }
    if exists a, b :: MaximalRun(s, a, b) && w == s[a..b] {
      var a, b :| MaximalRun(s, a, b) && w == s[a..b];
      RunsFromComplete(s, 0, a, b);
    }
  }

  /** From a position past which no character is a word character, no run
      is found. */
  lemma {:induction false} NoWordCharNoRuns(s: string, i: nat)
    requires i <= |s|
    ensures (forall k :: i <= k < |s| ==> !IsWordChar(s[k])) ==> RunsFrom(s, i) == []
    decreases |s| - i
  {
    if i < |s| {
      NoWordCharNoRuns(s, i + 1);
    }
  }

  /** Keywords are non-empty, made of word characters only, and hold no
      upper-case letter. */
  lemma {:induction false} KeywordShape(name: string, w: string)
    requires w in KeywordSet(name)
    ensures |w| > 0
    ensures forall k :: 0 <= k < |w| ==> IsWordChar(w[k]) && !('A' <= w[k] <= 'Z')
  {
    KeywordsAreMaximalRuns(name, w);
    var s := Lower(name);
    var a, b :| MaximalRun(s, a, b) && w == s[a..b];
    assert forall k :: 0 <= k < |w| ==> w[k] == s[a + k];
  }
}
