/** `parse_questions` of src/llmResponse.py: reshaping the dataset's question records. */
module Questions {

  /** A question as the line-delimited dataset stores it. */
  datatype QuestionRecord = QuestionRecord(question: string, options: seq<string>, goldLabel: string)

  /** The reshaped question: `gold_label` becomes `answer`, the options are copied. */
  datatype ParsedQuestion = ParsedQuestion(question: string, options: seq<string>, answer: string)

  /** `parse_questions`: a new list of the same length and order, each entry carrying the input's
      question, a copy of its options and its gold label as the answer. */
  method ParseQuestions(questions: seq<QuestionRecord>) returns (aggregated: seq<ParsedQuestion>)
    ensures |aggregated| == |questions|
    ensures forall i :: 0 <= i < |questions| ==>
      aggregated[i].question == questions[i].question &&
      aggregated[i].options == questions[i].options &&
      aggregated[i].answer == questions[i].goldLabel
  {
    aggregated := [];
    for i := 0 to |questions|
      invariant |aggregated| == i
      invariant forall k :: 0 <= k < i ==>
        aggregated[k].question == questions[k].question &&
        aggregated[k].options == questions[k].options &&
        aggregated[k].answer == questions[k].goldLabel
    {
      var question := questions[i];
      var options: seq<string> := [];
      for j := 0 to |question.options|
        invariant options == question.options[..j]
      {
        options := options + [question.options[j]];
      }
      assert options == question.options;
      aggregated := aggregated + [ParsedQuestion(question.question, options, question.goldLabel)];
    }
  }
}
