/** /api/style_quiz (app.py): every style personality scores the number of
    answers that name it exactly, and the dominant style is the first of the
    best-scoring ones in the order of the knowledge base's
    `style_personalities`, because Python's max keeps the first maximal key. */
module StyleQuiz {
  import opened Json
  import opened KnowledgeBase

  const Personalities := "style_personalities"

  /** What the endpoint answers: the dominant style and its description. */
  datatype QuizResult = QuizResult(dominantStyle: string, description: Value)

  /** The number of answers equal to `style` (the dict comprehension's sum). */
  function Score(answers: seq<string>, style: string): (n: nat)
    ensures n <= |answers|
    decreases |answers|
  {
    if |answers| == 0 then 0
    else
      var n := |answers| - 1;
      Score(answers[..n], style) + (if answers[n] == style then 1 else 0)
  }

  /** A style's score is how often it occurs among the answers. */
  lemma {:induction false} ScoreIsOccurrences(answers: seq<string>, style: string)
    ensures Score(answers, style) == multiset(answers)[style]
    decreases |answers|
  {
    if |answers| > 0 {
      var n := |answers| - 1;
      ScoreIsOccurrences(answers[..n], style);
      assert answers == answers[..n] + [answers[n]];
      assert multiset(answers) == multiset(answers[..n]) + multiset{answers[n]};
    }
  }

  /** Python's `max(style_scores, key=style_scores.get)`: the index of the
      first style whose score no other style exceeds. */
  function DominantIndex(styles: seq<string>, answers: seq<string>): (d: nat)
    requires |styles| > 0
    ensures d < |styles|
    ensures forall j :: 0 <= j < |styles| ==> Score(answers, styles[j]) <= Score(answers, styles[d])
    ensures forall j :: 0 <= j < d ==> Score(answers, styles[j]) < Score(answers, styles[d])
    decreases |styles|
  {
    if |styles| == 1 then 0
    else
      var n := |styles| - 1;
      var d := DominantIndex(styles[..n], answers);
      assert forall j :: 0 <= j < n ==> styles[..n][j] == styles[j];
      if Score(answers, styles[n]) > Score(answers, styles[d]) then n else d
  }

  /** With no answers, or none naming a known style, every score is 0 and
      the first style wins. */
  lemma NoMatchingAnswerPicksFirst(styles: seq<string>, answers: seq<string>)
    requires |styles| > 0
    requires forall i :: 0 <= i < |answers| ==> answers[i] !in styles
    ensures DominantIndex(styles, answers) == 0
  {
    forall j | 0 <= j < |styles| ensures Score(answers, styles[j]) == 0 {
      ScoreIsOccurrences(answers, styles[j]);
      assert styles[j] !in answers;
    }
  }

  /** The sum of all the styles' scores. */
  function TotalScore(styles: seq<string>, answers: seq<string>): nat
  {
    if |styles| == 0 then 0 else Score(answers, styles[0]) + TotalScore(styles[1..], answers)
  }

  /** How many of the styles are `x`. */
  function Hits(styles: seq<string>, x: string): (h: nat)
    ensures x !in styles ==> h == 0
  {
    if |styles| == 0 then 0 else (if styles[0] == x then 1 else 0) + Hits(styles[1..], x)
  }

  /** One more answer adds one point for each style it names. */
  lemma {:induction false} TotalScoreSnoc(styles: seq<string>, answers: seq<string>, x: string)
    ensures TotalScore(styles, answers + [x]) == TotalScore(styles, answers) + Hits(styles, x)
    decreases |styles|
  {
    if |styles| > 0 {
      TotalScoreSnoc(styles[1..], answers, x);
      assert (answers + [x])[..|answers|] == answers;
    }
  }

  /** Among distinct styles, an answer names at most one. */
  lemma {:induction false} HitsAtMostOne(styles: seq<string>, x: string)
    requires Distinct(styles)
    ensures Hits(styles, x) <= 1
    decreases |styles|
  {
    if |styles| > 0 {
      assert Distinct(styles[1..]);
      HitsAtMostOne(styles[1..], x);
      if styles[0] == x {
        assert x !in styles[1..];
      }
    }
  }

  /** Every answer adds at most one point in all and an answer naming no
      known style adds none, so the scores add up to at most the number of
      answers. */
  lemma {:induction false} TotalScoreBound(styles: seq<string>, answers: seq<string>)
    requires Distinct(styles)
    ensures TotalScore(styles, answers) <= |answers|
    ensures (forall i :: 0 <= i < |answers| ==> answers[i] !in styles) ==> TotalScore(styles, answers) == 0
    decreases |answers|
  {
    if |answers| == 0 {
      ZeroScores(styles, answers);
    } else {
      var n := |answers| - 1;
      TotalScoreBound(styles, answers[..n]);
      assert answers == answers[..n] + [answers[n]];
      TotalScoreSnoc(styles, answers[..n], answers[n]);
      HitsAtMostOne(styles, answers[n]);
    }
  }

  lemma {:induction false} ZeroScores(styles: seq<string>, answers: seq<string>)
    requires |answers| == 0
    ensures TotalScore(styles, answers) == 0
    decreases |styles|
  {
    if |styles| > 0 {
      ZeroScores(styles[1..], answers);
    }
  }

  /** /api/style_quiz against the knowledge base. None stands for the
      exceptions Python raises: a missing or non-dict style_personalities
      section, or an empty one (max of nothing). */
  function StyleQuiz(kb: Knowledge, answers: seq<string>): (r: Option<QuizResult>)
    requires WellFormed(kb)
    ensures r.Some? <==> Personalities in kb && kb[Personalities].Obj? && |kb[Personalities].keys| > 0
    ensures r.Some? ==>
      var styles := kb[Personalities];
      && r.value.dominantStyle in styles.fields
      && r.value.description == styles.fields[r.value.dominantStyle]
      && (forall s :: s in styles.fields ==> Score(answers, s) <= Score(answers, r.value.dominantStyle))
      && (exists d :: 0 <= d < |styles.keys| && styles.keys[d] == r.value.dominantStyle
            && forall j :: 0 <= j < d ==> Score(answers, styles.keys[j]) < Score(answers, styles.keys[d]))
  {
    if Personalities !in kb then None
    else
      var styles := kb[Personalities];
      if !styles.Obj? || |styles.keys| == 0 then None
      else
        var d := DominantIndex(styles.keys, answers);
        var name := styles.keys[d];
        assert forall s :: s in styles.fields ==> exists j :: 0 <= j < |styles.keys| && styles.keys[j] == s;
        Some(QuizResult(name, styles.fields[name]))
  }
}
