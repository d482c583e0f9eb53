/** The response parser of src/llmResponse.py: the first answer character of a reply, or 'X'. */
module Extract {
  import opened Wrappers

  /** The character class `[ABCD]` of `shortStoryAccuracy`. */
  const Letters: set<char> := {'A', 'B', 'C', 'D'}

  /** The character class `[1234]` of `ask_questions`. */
  const Digits: set<char> := {'1', '2', '3', '4'}

  /** The answer recorded when a reply holds no answer character. */
  const Sentinel: char := 'X'

  /** `re.findall` with a one-character class and one group: every character of `s`
      that lies in `alphabet`, in order. */
  function FindAll(s: string, alphabet: set<char>): (r: string)
    ensures |r| <= |s|
    ensures forall k :: 0 <= k < |r| ==> r[k] in alphabet
  {
    if s == [] then []
    else (if s[0] in alphabet then [s[0]] else []) + FindAll(s[1..], alphabet)
  }

  /** The reference scan: the index of the first character of `s` in `alphabet`, if any. */
  function FirstMatch(s: string, alphabet: set<char>): (m: Option<nat>)
    ensures m.Some? ==> m.value < |s| && s[m.value] in alphabet
    ensures m.Some? ==> forall j :: 0 <= j < m.value ==> s[j] !in alphabet
    ensures m.None? <==> forall j :: 0 <= j < |s| ==> s[j] !in alphabet
  {
    if s == [] then None
    else if s[0] in alphabet then Some(0)
    else match FirstMatch(s[1..], alphabet)
      case None => None
      case Some(k) => Some(k + 1)
  }

  /** The answer the loop appends for one reply: `match[0]` when `findall` found something, else 'X'. */
  function RecordedAnswer(reply: string, alphabet: set<char>): char {
    var found := FindAll(reply, alphabet);
    if found != [] then found[0] else Sentinel
  }

  /** `findall`'s first match is the character at the first matching index. */
  lemma {:induction false} FindAllStartsAtFirstMatch(s: string, alphabet: set<char>)
    ensures FindAll(s, alphabet) == [] <==> FirstMatch(s, alphabet).None?
    ensures FirstMatch(s, alphabet).Some? ==>
      FindAll(s, alphabet)[0] == s[FirstMatch(s, alphabet).value]
  {
    if s != [] && s[0] !in alphabet {
      FindAllStartsAtFirstMatch(s[1..], alphabet);
    }
  }

  /** The recorded answer is the first character of the reply in the alphabet,
      or 'X' when no character of the reply is in it. */
  lemma RecordedAnswerIsFirstMatch(reply: string, alphabet: set<char>)
    ensures match FirstMatch(reply, alphabet)
      case Some(k) => RecordedAnswer(reply, alphabet) == reply[k]
      case None => RecordedAnswer(reply, alphabet) == Sentinel
  {
    FindAllStartsAtFirstMatch(reply, alphabet);
  }

  /** A character in the alphabet with none before it is the recorded answer. */
  lemma RecordedAnswerAt(reply: string, alphabet: set<char>, k: nat)
    requires k < |reply| && reply[k] in alphabet
    requires forall j :: 0 <= j < k ==> reply[j] !in alphabet
    ensures RecordedAnswer(reply, alphabet) == reply[k]
  {
    FindAllStartsAtFirstMatch(reply, alphabet);
    var m := FirstMatch(reply, alphabet);
    assert m.Some? && m.value == k;
  }

  /** With either alphabet of the source, 'X' is recorded exactly for replies without an answer character. */
  lemma SentinelMeansNoMatch(reply: string, alphabet: set<char>)
    requires alphabet == Letters || alphabet == Digits
    ensures RecordedAnswer(reply, alphabet) == Sentinel <==>
      forall j :: 0 <= j < |reply| ==> reply[j] !in alphabet
  {
    FindAllStartsAtFirstMatch(reply, alphabet);
  }

  /** The answers appended for a list of replies, one single-character string each. */
  function Recorded(replies: seq<string>, alphabet: set<char>): seq<string> {
    seq(|replies|, i requires 0 <= i < |replies| => [RecordedAnswer(replies[i], alphabet)])
  }

  /** How many replies hold no character of the alphabet. */
  function Hallucinations(replies: seq<string>, alphabet: set<char>): (n: nat)
    ensures n <= |replies|
  {
    if replies == [] then 0
    else
      var last := replies[|replies| - 1];
      Hallucinations(replies[..|replies| - 1], alphabet) + (if FindAll(last, alphabet) == [] then 1 else 0)
  }

  /** How many entries of `xs` equal `x`. */
  function CountOf(xs: seq<string>, x: string): nat {
    if xs == [] then 0
    else CountOf(xs[..|xs| - 1], x) + (if xs[|xs| - 1] == x then 1 else 0)
  }

  /** The hallucination counter equals the number of 'X' entries among the recorded answers. */
  lemma {:induction false} HallucinationsCountSentinels(replies: seq<string>, alphabet: set<char>)
    requires Sentinel !in alphabet
    ensures Hallucinations(replies, alphabet) == CountOf(Recorded(replies, alphabet), [Sentinel])
  {
    if replies != [] {
      var n := |replies| - 1;
      HallucinationsCountSentinels(replies[..n], alphabet);
      assert Recorded(replies, alphabet)[..n] == Recorded(replies[..n], alphabet);
      var found := FindAll(replies[n], alphabet);
      if found != [] {
        assert found[0] in alphabet;
      }
    }
  }

  /** The extraction loop of `shortStoryAccuracy`: one answer per reply, and a counter of
      replies without an answer character. */
  method ExtractAnswers(replies: seq<string>, alphabet: set<char>) returns (responses: seq<string>, hallucinate: nat)
    ensures |responses| == |replies|
    ensures responses == Recorded(replies, alphabet)
    ensures hallucinate == Hallucinations(replies, alphabet)
  {
    responses, hallucinate := [], 0;
    for i := 0 to |replies|
      invariant responses == Recorded(replies[..i], alphabet)
      invariant hallucinate == Hallucinations(replies[..i], alphabet)
    {
      assert replies[..i + 1][..i] == replies[..i];
      var found := FindAll(replies[i], alphabet);
      if found != [] {
        responses := responses + [[found[0]]];
      } else {
        responses := responses + [[Sentinel]];
        hallucinate := hallucinate + 1;
      }
    }
    assert replies[..|replies|] == replies;
  }

  /** A reply with no capital A to D is recorded as 'X'. */
  lemma UnsureReply()
    ensures RecordedAnswer("I'm not sure", Letters) == Sentinel
  {
    var reply := "I'm not sure";
    forall j | 0 <= j < |reply| ensures reply[j] !in Letters {
    }
    SentinelMeansNoMatch(reply, Letters);
  }

  /** A reply that names its answer in parentheses is recorded as that letter. */
  lemma ParenthesisedLetterReply()
    ensures RecordedAnswer("I believe the answer is (B) because...", Letters) == 'B'
  {
    var reply := "I believe the answer is (B) because...";
    forall j | 0 <= j < 25 ensures reply[j] !in Letters {
    }
    assert reply[25] == 'B';
    RecordedAnswerAt(reply, Letters, 25);
  }

  /** A reply that gives only an option label is unparseable: the labels are digits, which the
      `[ABCD]` class never matches, and the label 0 lies outside the `[1234]` class. */
  lemma LabelReplyIsUnparseable()
    ensures RecordedAnswer("2", Letters) == Sentinel
    ensures RecordedAnswer("0", Digits) == Sentinel
  {
    SentinelMeansNoMatch("2", Letters);
    SentinelMeansNoMatch("0", Digits);
  }
}
