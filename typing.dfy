/** The typing view's counters: characters typed, characters in the article, and how
    many typed characters match the article at the same position. */
module Typing {

  /** `input.split("").filter((c, i) => c === content[i]).length`, counted from index
      `i` on; past the end of `content` the comparison is with `undefined` and fails. */
  function MatchesFrom(input: string, content: string, i: nat): (n: nat)
    requires i <= |input|
    ensures n <= |input| - i
    ensures n <= if i <= |content| then |content| - i else 0
    decreases |input| - i
  {
    if i == |input| then 0
    else (if i < |content| && input[i] == content[i] then 1 else 0) + MatchesFrom(input, content, i + 1)
  }

  function CorrectCount(input: string, content: string): (n: nat)
    ensures n <= |input| && n <= |content|
  {
    MatchesFrom(input, content, 0)
  }

  /** The positions at which the typed text agrees with the article. */
  function MatchingPositions(input: string, content: string, from: nat): set<nat> {
    set i: nat | from <= i < |input| && i < |content| && input[i] == content[i]
  }

  lemma {:induction false} MatchesFromCounts(input: string, content: string, i: nat)
    requires i <= |input|
    ensures MatchesFrom(input, content, i) == |MatchingPositions(input, content, i)|
    decreases |input| - i
  {
    if i == |input| {
      assert MatchingPositions(input, content, i) == {};
    } else {
      MatchesFromCounts(input, content, i + 1);
      var here := MatchingPositions(input, content, i);
      var later := MatchingPositions(input, content, i + 1);
      if i < |content| && input[i] == content[i] {
        assert here == later + {i};
      } else {
        assert here == later;
      }
    }
  }

  /** The count is the number of matching positions. */
  lemma CorrectCountIsMatches(input: string, content: string)
    ensures CorrectCount(input, content) == |MatchingPositions(input, content, 0)|
  {
    MatchesFromCounts(input, content, 0);
  }

  lemma {:induction false} MatchesFromPrefix(input: string, content: string, i: nat)
    requires i <= |input| && input <= content
    ensures MatchesFrom(input, content, i) == |input| - i
    decreases |input| - i
  {
    if i < |input| {
      MatchesFromPrefix(input, content, i + 1);
    }
  }

  /** Typing an exact prefix of the article scores every character. */
  lemma PrefixAllCorrect(input: string, content: string)
    requires input <= content
    ensures CorrectCount(input, content) == |input|
  {
    MatchesFromPrefix(input, content, 0);
  }

  lemma {:induction false} MatchesFromAppend(input: string, c: char, content: string, i: nat)
    requires i <= |input|
    ensures MatchesFrom(input + [c], content, i)
         == MatchesFrom(input, content, i)
            + (if |input| < |content| && c == content[|input|] then 1 else 0)
    decreases |input| - i
  {
    var longer := input + [c];
    if i < |input| {
      MatchesFromAppend(input, c, content, i + 1);
      assert longer[i] == input[i];
    } else {
      assert longer[i] == c;
    }
  }

  /** One more keystroke raises the count by one exactly when it matches the article
      at its position, and never lowers it. */
  lemma AppendOne(input: string, c: char, content: string)
    ensures var before, after := CorrectCount(input, content), CorrectCount(input + [c], content);
      after == before + 1 || after == before
    ensures CorrectCount(input + [c], content) == CorrectCount(input, content) + 1
        <==> |input| < |content| && c == content[|input|]
  {
    MatchesFromAppend(input, c, content, 0);
  }

  /** The status bar's figures: typed characters, article characters, and the count
      the accuracy is computed from. */
  datatype Status = Status(typed: nat, total: nat, correct: nat)

  function StatusBar(input: string, content: string): (s: Status)
    ensures s.typed == |input| && s.total == |content|
    ensures s.correct <= s.typed && s.correct <= s.total
  {
    Status(|input|, |content|, CorrectCount(input, content))
  }
}
