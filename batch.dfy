/** The batch driver `batchResults` of src/llmResponse.py: per-file tallies summed over a directory. */
module Batch {
  import opened Wrappers
  import opened Scoring

  /** The values of the final report line, with the file counter. */
  datatype Summary = Summary(correct: nat, total: nat, hallucinate: nat, count: nat)

  function Add(a: Tally, b: Tally): Tally {
    Tally(a.correct + b.correct, a.total + b.total, a.hallucinate + b.hallucinate)
  }

  /** Component-wise sum of the tallies. */
  function Sum(tallies: seq<Tally>): Tally {
    if tallies == [] then Tally(0, 0, 0)
    else Add(Sum(tallies[..|tallies| - 1]), tallies[|tallies| - 1])
  }

  /** The tallies of the files in order, or the exception of the first file that raised one. */
  function Collect(outcomes: seq<Result<Tally, Exception>>): Result<seq<Tally>, Exception> {
    if outcomes == [] then Ok([])
    else
      var last := outcomes[|outcomes| - 1];
      match Collect(outcomes[..|outcomes| - 1])
        case Err(e) => Err(e)
        case Ok(ts) => if last.Err? then Err(last.error) else Ok(ts + [last.value])
  }

  /** What `batchResults` ends with: the summed tallies and the file count, or the exception raised by
      a file, or ZeroDivisionError from `correct/total` when nothing was compared. */
  function BatchOutcome(outcomes: seq<Result<Tally, Exception>>): Result<Summary, Exception> {
    match Collect(outcomes)
      case Err(e) => Err(e)
      case Ok(ts) =>
        var t := Sum(ts);
        if t.total == 0 then Err(ZeroDivisionError)
        else Ok(Summary(t.correct, t.total, t.hallucinate, |ts|))
  }

  /** Once a file has raised, the batch has raised that exception whatever follows. */
  lemma {:induction false} CollectErrPersists(outcomes: seq<Result<Tally, Exception>>, k: nat)
    requires k <= |outcomes|
    requires Collect(outcomes[..k]).Err?
    ensures Collect(outcomes) == Collect(outcomes[..k])
    decreases |outcomes| - k
  {
    if k < |outcomes| {
      assert outcomes[..k + 1][..k] == outcomes[..k];
      CollectErrPersists(outcomes, k + 1);
    } else {
      assert outcomes[..k] == outcomes;
    }
  }

  /** `batchResults`: the loop over the per-file outcomes and the final division. */
  method BatchResults(outcomes: seq<Result<Tally, Exception>>) returns (r: Result<Summary, Exception>)
    ensures r == BatchOutcome(outcomes)
  {
    var correct: nat, total: nat, hallucinate: nat, count: nat := 0, 0, 0, 0;
    ghost var done: seq<Tally> := [];
    for i := 0 to |outcomes|
      invariant Collect(outcomes[..i]) == Ok(done)
      invariant Sum(done) == Tally(correct, total, hallucinate)
      invariant count == |done|
    {
      assert outcomes[..i + 1][..i] == outcomes[..i];
      match outcomes[i] {
        case Err(e) =>
          CollectErrPersists(outcomes, i + 1);
          return Err(e);
        case Ok(step) =>
          correct := correct + step.correct;
          total := total + step.total;
          hallucinate := hallucinate + step.hallucinate;
          count := count + 1;
          assert (done + [step])[..|done|] == done;
          done := done + [step];
      }
    }
    assert outcomes[..|outcomes|] == outcomes;
    if total == 0 {
      return Err(ZeroDivisionError);
    }
    r := Ok(Summary(correct, total, hallucinate, count));
  }

  /** Summing is compatible with splitting the list of files. */
  lemma {:induction false} SumAppend(a: seq<Tally>, b: seq<Tally>)
    ensures Sum(a + b) == Add(Sum(a), Sum(b))
  {
    if b != [] {
      var n := |b| - 1;
      assert (a + b)[..|a + b| - 1] == a + b[..n];
      SumAppend(a, b[..n]);
    } else {
      assert a + b == a;
    }
  }

  /** If every file scored no more correct answers than comparisons, and no more hallucinations than
      comparisons, so does the sum. */
  lemma {:induction false} SumKeepsBounds(tallies: seq<Tally>)
    requires forall i :: 0 <= i < |tallies| ==> tallies[i].correct <= tallies[i].total
    requires forall i :: 0 <= i < |tallies| ==> tallies[i].hallucinate <= tallies[i].total
    ensures Sum(tallies).correct <= Sum(tallies).total
    ensures Sum(tallies).hallucinate <= Sum(tallies).total
  {
    if tallies != [] {
      SumKeepsBounds(tallies[..|tallies| - 1]);
    }
  }

  /** A batch that succeeds counted every file, and its tallies are those of the files. */
  lemma {:induction false} CollectOk(outcomes: seq<Result<Tally, Exception>>)
    ensures Collect(outcomes).Ok? <==> forall i :: 0 <= i < |outcomes| ==> outcomes[i].Ok?
    ensures Collect(outcomes).Ok? ==>
      |Collect(outcomes).value| == |outcomes| &&
      forall i :: 0 <= i < |outcomes| ==> Collect(outcomes).value[i] == outcomes[i].value
  {
    if outcomes != [] {
      var n := |outcomes| - 1;
      CollectOk(outcomes[..n]);
      if Collect(outcomes[..n]).Ok? && outcomes[n].Ok? {
        var ts := Collect(outcomes[..n]).value;
        assert forall i :: 0 <= i < n ==> outcomes[..n][i] == outcomes[i];
        assert Collect(outcomes).value == ts + [outcomes[n].value];
      } else if !Collect(outcomes[..n]).Ok? {
        var k :| 0 <= k < n && !outcomes[..n][k].Ok?;
        assert !outcomes[k].Ok?;
      }
    }
  }

  /** A batch of files that each score reports `correct <= total`, `hallucinate <= total`, a non-zero
      total and a count equal to the number of files; an empty directory raises ZeroDivisionError. */
  lemma BatchOutcomeBounds(outcomes: seq<Result<Tally, Exception>>)
    requires forall i :: 0 <= i < |outcomes| && outcomes[i].Ok? ==>
      outcomes[i].value.correct <= outcomes[i].value.total && outcomes[i].value.hallucinate <= outcomes[i].value.total
    ensures outcomes == [] ==> BatchOutcome(outcomes) == Err(ZeroDivisionError)
    ensures BatchOutcome(outcomes).Ok? ==>
      var s := BatchOutcome(outcomes).value;
      s.correct <= s.total && s.hallucinate <= s.total && s.total > 0 && s.count == |outcomes|
  {
    CollectOk(outcomes);
    if Collect(outcomes).Ok? {
      SumKeepsBounds(Collect(outcomes).value);
    }
  }

  /** Number of questions over all files. */
  function QuestionCount(files: seq<StoryFile>): nat {
    if files == [] then 0
    else QuestionCount(files[..|files| - 1]) + |files[|files| - 1].questions|
  }

  lemma {:induction false} SumOfTotals(tallies: seq<Tally>, files: seq<StoryFile>)
    requires |tallies| == |files|
    requires forall i :: 0 <= i < |files| ==> tallies[i].total == |files[i].questions|
    ensures Sum(tallies).total == QuestionCount(files)
  {
    if files != [] {
      var n := |files| - 1;
      SumOfTotals(tallies[..n], files[..n]);
    }
  }

  /** The whole batch over files whose replies are given: when it reports, the total is the number
      of questions in all files, the count is the number of files, and neither the correct answers
      nor the hallucinations exceed the total. */
  lemma BatchOverFiles(files: seq<StoryFile>, replies: seq<seq<string>>)
    requires |replies| == |files|
    requires forall i :: 0 <= i < |files| ==> |replies[i]| == |files[i].questions|
    ensures var outcomes := seq(|files|, i requires 0 <= i < |files| => StoryOutcome(files[i], replies[i]));
      BatchOutcome(outcomes).Ok? ==>
        var s := BatchOutcome(outcomes).value;
        s.total == QuestionCount(files) && s.count == |files| &&
        s.correct <= s.total && s.hallucinate <= s.total
  {
    var outcomes := seq(|files|, i requires 0 <= i < |files| => StoryOutcome(files[i], replies[i]));
    forall i | 0 <= i < |outcomes| && outcomes[i].Ok?
      ensures outcomes[i].value.correct <= outcomes[i].value.total
      ensures outcomes[i].value.hallucinate <= outcomes[i].value.total
      ensures outcomes[i].value.total == |files[i].questions|
    {
      StoryTallyBounds(files[i], replies[i]);
    }
    BatchOutcomeBounds(outcomes);
    CollectOk(outcomes);
    if Collect(outcomes).Ok? {
      SumOfTotals(Collect(outcomes).value, files);
    }
  }
}
