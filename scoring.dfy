/** The scoring accumulator and the per-file pipeline of `shortStoryAccuracy` in src/llmResponse.py. */
module Scoring {
  import opened Wrappers
  import opened Extract

  /** The Python exceptions the modelled code can raise. */
  datatype Exception = IndexError | ZeroDivisionError

  /** The triple `shortStoryAccuracy` returns. */
  datatype Tally = Tally(correct: nat, total: nat, hallucinate: nat)

  /** The per-file JSON content; the article only feeds the prompt. */
  datatype StoryFile = StoryFile(article: string, questions: seq<string>, options: seq<seq<string>>, answers: seq<string>)

  /** `answers[i][j]` is in range for every pair the nested loop visits. */
  predicate Indexable(responses: seq<string>, answers: seq<string>) {
    forall i :: 0 <= i < |responses| && |responses[i]| > 0 ==> i < |answers| && |responses[i]| <= |answers[i]|
  }

  /** Number of positions j < |response| with `response[j] == gold[j]`. */
  function Agreements(response: string, gold: string): (n: nat)
    requires |response| <= |gold|
    ensures n <= |response|
  {
    if response == [] then 0
    else
      var j := |response| - 1;
      Agreements(response[..j], gold) + (if response[j] == gold[j] then 1 else 0)
  }

  /** Number of comparisons the nested loop makes: the sum of the response lengths. */
  function Compared(responses: seq<string>): nat {
    if responses == [] then 0
    else Compared(responses[..|responses| - 1]) + |responses[|responses| - 1]|
  }

  /** Number of comparisons that found equal characters. */
  function Correct(responses: seq<string>, answers: seq<string>): (n: nat)
    requires Indexable(responses, answers)
    ensures n <= Compared(responses)
  {
    if responses == [] then 0
    else
      var i := |responses| - 1;
      assert Indexable(responses[..i], answers) by {
        forall k | 0 <= k < i && |responses[..i][k]| > 0
          ensures k < |answers| && |responses[..i][k]| <= |answers[k]|
        {
          assert responses[..i][k] == responses[k];
        }
      }
      Correct(responses[..i], answers) + (if responses[i] == [] then 0 else Agreements(responses[i], answers[i]))
  }

  /** The scoring loop of `shortStoryAccuracy`: `total` counts comparisons, `correct` equal
      characters, and an out-of-range `answers[i][j]` raises IndexError. */
  method Score(responses: seq<string>, answers: seq<string>) returns (r: Result<(nat, nat), Exception>)
    ensures r.Err? <==> !Indexable(responses, answers)
    ensures r.Err? ==> r.error == IndexError
    ensures r.Ok? ==> r.value == (Correct(responses, answers), Compared(responses))
  {
    var correct, total := 0, 0;
    for i := 0 to |responses|
      invariant Indexable(responses[..i], answers)
      invariant correct == Correct(responses[..i], answers)
      invariant total == Compared(responses[..i])
    {
      assert responses[..i + 1][..i] == responses[..i];
      for j := 0 to |responses[i]|
        invariant j > 0 ==> i < |answers| && j <= |answers[i]|
        invariant correct == Correct(responses[..i], answers) + (if j == 0 then 0 else Agreements(responses[i][..j], answers[i]))
        invariant total == Compared(responses[..i]) + j
      {
        if i >= |answers| || j >= |answers[i]| {
          assert responses[i] != [];
          return Err(IndexError);
        }
        assert responses[i][..j + 1][..j] == responses[i][..j];
        if responses[i][j] == answers[i][j] {
          correct := correct + 1;
        }
        total := total + 1;
      }
      assert responses[i][..|responses[i]|] == responses[i];
      assert Indexable(responses[..i + 1], answers) by {
        forall k | 0 <= k < i + 1 && |responses[..i + 1][k]| > 0
          ensures k < |answers| && |responses[..i + 1][k]| <= |answers[k]|
        {
          if k < i {
            assert responses[..i + 1][k] == responses[..i][k];
          }
        }
      }
    }
    assert responses[..|responses|] == responses;
    r := Ok((correct, total));
  }

  /** When every response is one character, the loop makes exactly one comparison per response. */
  lemma {:induction false} ComparedSingleCharacters(responses: seq<string>)
    requires forall i :: 0 <= i < |responses| ==> |responses[i]| == 1
    ensures Compared(responses) == |responses|
  {
    if responses != [] {
      ComparedSingleCharacters(responses[..|responses| - 1]);
    }
  }

  /** Gold answers that are letters A to D: an 'X' response is never counted correct, so correct
      responses and unparseable ones together never exceed the number of responses. */
  lemma {:induction false} SentinelNeverCorrect(responses: seq<string>, answers: seq<string>)
    requires forall i :: 0 <= i < |responses| ==> |responses[i]| == 1
    requires |responses| <= |answers|
    requires forall i :: 0 <= i < |responses| ==> |answers[i]| >= 1 && answers[i][0] in Letters
    ensures Indexable(responses, answers)
    ensures Correct(responses, answers) + CountOf(responses, [Sentinel]) <= |responses|
  {
    if responses != [] {
      var i := |responses| - 1;
      SentinelNeverCorrect(responses[..i], answers);
      var last := responses[i];
      assert last[..0] == [];
      if last == [Sentinel] {
        assert answers[i][0] != Sentinel;
      }
    }
  }

  /** What `shortStoryAccuracy` returns for a file, given the model's reply to each question. */
  function StoryOutcome(file: StoryFile, replies: seq<string>): Result<Tally, Exception>
    requires |replies| == |file.questions|
  {
    var responses := Recorded(replies, Letters);
    if |file.options| < |file.questions| then Err(IndexError)
    else if !Indexable(responses, file.answers) then Err(IndexError)
    else Ok(Tally(Correct(responses, file.answers), Compared(responses), Hallucinations(replies, Letters)))
  }

  /** `shortStoryAccuracy` on one file whose replies are given. The prompt loop reads `options[i]`
      for every question, so a short options list raises IndexError before any scoring. */
  method ShortStoryAccuracy(file: StoryFile, replies: seq<string>) returns (r: Result<Tally, Exception>)
    requires |replies| == |file.questions|
    ensures r == StoryOutcome(file, replies)
  {
    if |file.options| < |file.questions| {
      return Err(IndexError);
    }
    var responses, hallucinate := ExtractAnswers(replies, Letters);
    var scored := Score(responses, file.answers);
    match scored {
      case Err(e) => r := Err(e);
      case Ok((correct, total)) => r := Ok(Tally(correct, total, hallucinate));
    }
  }

  /** A file that scores has one comparison per question, no more hallucinations than questions,
      and, with letter gold answers, correct answers and hallucinations sharing the questions. */
  lemma StoryTallyBounds(file: StoryFile, replies: seq<string>)
    requires |replies| == |file.questions|
    requires StoryOutcome(file, replies).Ok?
    ensures var t := StoryOutcome(file, replies).value;
      t.total == |file.questions| && t.correct <= t.total && t.hallucinate <= t.total
    ensures (forall i :: 0 <= i < |file.questions| && i < |file.answers| ==> |file.answers[i]| >= 1 && file.answers[i][0] in Letters) ==>
      var t := StoryOutcome(file, replies).value;
      t.correct + t.hallucinate <= t.total
  {
    var responses := Recorded(replies, Letters);
    ComparedSingleCharacters(responses);
    HallucinationsCountSentinels(replies, Letters);
    if forall i :: 0 <= i < |file.questions| && i < |file.answers| ==> |file.answers[i]| >= 1 && file.answers[i][0] in Letters {
      if responses != [] {
        assert |responses[|responses| - 1]| == 1;
      }
      SentinelNeverCorrect(responses, file.answers);
    }
  }
}
