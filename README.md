# Answer scoring of the reading-comprehension evaluation script

This project models the text-and-tally pipeline of `src/llmResponse.py`. The script
asks a locally served language model multiple-choice questions about an article. It
then reads one answer character out of each free-text reply and counts how many
answers match the gold answers. The model covers these parts:

- **Prompt formatter** (`Format`). `formatString` removes newlines, single and double
  quotes, and every non-ASCII character. `formatString` is modelled as written, as
  three `replace` passes and an ASCII `encode`/`decode` pass, and is proved equal to a
  single reference filter. `formatOptions` is modelled as written: 0-based decimal
  labels, every segment showing `options[0]`, and each segment ending with a literal
  backslash and `n`.
- **Response parser** (`Extract`). `re.findall(r'([ABCD])', response)` is modelled
  as a filter. The recorded answer is its first element, or `'X'` when it is empty.
  This is proved equal to a plain first-index scan. The alphabet is a parameter, so
  the `[1234]` class of `ask_questions` is covered as well. A counter records the
  replies that hold no answer character ("hallucinations").
- **Scoring accumulator** (`Scoring`). This is the nested loop that compares
  `responses[i][j]` with `answers[i][j]`, including the IndexError it raises when an
  answer is too short or missing. `shortStoryAccuracy` is composed from the extraction
  loop and the scoring loop. The model's replies are an input, with one reply per
  question.
- **Batch driver** (`Batch`). `batchResults` sums the per-file triples and counts the
  files. It raises ZeroDivisionError in `correct/total` when nothing was compared.
- **Question reshaping** (`Questions`). `parse_questions` maps each
  `{question, options, gold_label}` record to `{question, options, answer}`.

Facts about the code that the model keeps:

- Option labels are the numbers `(0)`, `(1)`, …, not letters, and every segment repeats
  `options[0]`.
- `formatOptions` accepts any number of options, including none.
- A batch with no files, or one whose files have no questions, raises
  ZeroDivisionError at line 145. The model returns `Err(ZeroDivisionError)` for it.
- Labels are digits, but `shortStoryAccuracy` extracts only the letters A–D. So a
  reply that gives only a label number, such as `"2"`, is recorded as `'X'`. The
  `[1234]` class of line 192 starts at 1 while the labels start at 0, so the label
  `0` is never recorded either.

## Model

| member | source | states |
|---|---|---|
| Format.Without | src/llmResponse.py:83-85 | `replace(c, "")` leaves no occurrence of `c`, keeps every other character as often as it occurs in the input, and is no longer than its input |
| Format.AsciiOnly | src/llmResponse.py:86 | the ASCII encode/decode with `errors="ignore"` leaves only code points below 128, all taken from the input |
| Format.FormatString | src/llmResponse.py:82-87 | the output holds no newline, no single or double quote and no code point of 128 or above, and is no longer than the input |
| Format.FormatStringIsSanitised | src/llmResponse.py:82-87 | the four passes together equal one filter that keeps exactly the characters that are not newline, quote or non-ASCII |
| Format.SanitisedIsSubsequence | src/llmResponse.py:82-87 | the filtered string is a subsequence of the input (order is preserved) |
| Format.SanitisedCounts | src/llmResponse.py:82-87 | every kept character occurs as often as in the input, and every dropped one occurs zero times |
| Format.SanitisedClean | src/llmResponse.py:82-87 | the reference filter yields only kept characters |
| Format.SanitisedFixesExactlyClean | src/llmResponse.py:82-87 | a string is unchanged by the filter if and only if all its characters are kept |
| Format.FormatStringIdempotent | src/llmResponse.py:82-87 | applying `formatString` to its own output changes nothing |
| Format.Decimal | src/llmResponse.py:92 | the `{i}` label is a non-empty string of decimal digits with no leading zero |
| Format.DecimalRoundTrip | src/llmResponse.py:92 | reading the digits of a label back gives the index it was rendered from |
| Format.FormatOptions | src/llmResponse.py:89-93 | the loop returns segment `(i) ` + `formatString(options[0])` + backslash-n for each i below the length of `options`; the result is `""` for an empty list, and `options[0]` is then never read |
| Format.OptionsTextClean | src/llmResponse.py:89-93 | the rendered options hold no newline, no quote and no non-ASCII character, so `formatString` leaves them unchanged |
| Format.OptionsTextHidesLaterOptions | src/llmResponse.py:92 | as written, `["p", "q"]` renders as `(0) p\n(1) p\n` (with literal backslash-n), and `q` never appears |
| Format.IntendedOptionsTextShowsEveryOption | src/llmResponse.py:92 | with `options[i]` in segment i, every kept character of every option appears in the text |
| Extract.FindAll | src/llmResponse.py:112 | `findall` of a one-character class returns only alphabet characters and is no longer than the reply |
| Extract.FirstMatch | src/llmResponse.py:112-114 | the reference scan returns the first index holding an alphabet character; it returns none if and only if no character is in the alphabet |
| Extract.FindAllStartsAtFirstMatch | src/llmResponse.py:112-116 | `findall` is empty if and only if the scan finds nothing; otherwise its first element is the character at the first matching index |
| Extract.RecordedAnswerIsFirstMatch | src/llmResponse.py:112-116 | the appended answer is the reply's first alphabet character, or `'X'` when there is none |
| Extract.RecordedAnswerAt | src/llmResponse.py:112-114 | an alphabet character with no alphabet character before it is the recorded answer |
| Extract.SentinelMeansNoMatch | src/llmResponse.py:112-116 | for `[ABCD]` and for `[1234]`, the answer is `'X'` if and only if no character of the reply is in the alphabet |
| Extract.Hallucinations | src/llmResponse.py:107-118 | the hallucination count never exceeds the number of replies |
| Extract.HallucinationsCountSentinels | src/llmResponse.py:113-118 | the hallucination counter equals the number of `'X'` entries appended to `responses` |
| Extract.ExtractAnswers | src/llmResponse.py:107-118 | the loop appends exactly one single-character answer per reply, each the recorded answer of that reply, and counts the replies without a match |
| Extract.UnsureReply | src/llmResponse.py:112-116 | the reply `I'm not sure` is recorded as `'X'` |
| Extract.LabelReplyIsUnparseable | src/llmResponse.py:192 | a reply of just the label `2` is `'X'` under `[ABCD]`, and a reply of just the label `0` is `'X'` under `[1234]` |
| Extract.ParenthesisedLetterReply | src/llmResponse.py:112-116 | the reply `I believe the answer is (B) because...` is recorded as `'B'` |
| Scoring.Agreements | src/llmResponse.py:122-125 | the equal positions of one response number at most its length |
| Scoring.Correct | src/llmResponse.py:119-127 | `correct` never exceeds the number of comparisons |
| Scoring.Score | src/llmResponse.py:119-127 | the nested loop raises IndexError if and only if some `answers[i][j]` it visits is out of range; otherwise `total` is the sum of the response lengths and `correct` the number of equal positions |
| Scoring.ComparedSingleCharacters | src/llmResponse.py:121-125 | with one-character responses, `total` equals the number of responses |
| Scoring.SentinelNeverCorrect | src/llmResponse.py:119-127 | with gold answers A–D, an `'X'` is never counted correct: correct answers plus `'X'` entries are at most the number of responses |
| Scoring.ShortStoryAccuracy | src/llmResponse.py:95-127 | the per-file result is IndexError when the options or answers are too short, and otherwise the (correct, total, hallucinate) triple of the two loops |
| Scoring.StoryTallyBounds | src/llmResponse.py:107-127 | a scored file has `total` equal to its question count, `correct` and `hallucinate` at most `total`, and, with letter gold answers, `correct + hallucinate <= total` |
| Batch.CollectErrPersists | src/llmResponse.py:137-139 | once a file raises, the batch ends with that exception |
| Batch.BatchResults | src/llmResponse.py:129-145 | the loop returns the component-wise sums of the per-file triples and the file count, the first per-file exception, or ZeroDivisionError when the total is 0 |
| Batch.SumAppend | src/llmResponse.py:140-142 | summing the triples of two runs of files equals adding their sums |
| Batch.SumKeepsBounds | src/llmResponse.py:140-142 | `correct <= total` and `hallucinate <= total` are preserved by the sums |
| Batch.CollectOk | src/llmResponse.py:137-142 | the batch collects tallies if and only if no file raised, and then it collects exactly the files' tallies, in order |
| Batch.BatchOutcomeBounds | src/llmResponse.py:133-145 | an empty batch raises ZeroDivisionError; a reported batch has `correct <= total`, `hallucinate <= total`, a non-zero total and a count equal to the number of files |
| Batch.SumOfTotals | src/llmResponse.py:140-141 | the summed `total` is the number of questions over all files when each file compared one character per question |
| Batch.BatchOverFiles | src/llmResponse.py:137-145 | over files with given replies, a reported batch has `total` equal to the question count of all files, a count equal to the number of files, and `correct`, `hallucinate` at most `total` |
| Questions.ParseQuestions | src/llmResponse.py:169-179 | the result has the input's length and order; entry i has the input's question, a copy of its options, and its `gold_label` as `answer` |

## Findings

| source | as written | input that shows it | evidently intended | confidence | as-written member | corrected member |
|---|---|---|---|---|---|---|
| src/llmResponse.py:92 | every segment renders `formatString(options[0])` | `["p", "q"]` renders `(0) p\n(1) p\n`, so `q` never reaches the prompt | segment i renders `options[i]` | high; not executed | Format.OptionsTextHidesLaterOptions | Format.IntendedOptionsTextShowsEveryOption |

`FormatOptions` keeps the as-written behaviour. Its only consumer is the prompt, which
is outside the model, so no other part of the model depends on this choice.

## Left out

- `generate_response` (lines 55-74): a shell `curl` process that streams line-delimited JSON. Its replies are inputs to `ShortStoryAccuracy`, one per question.
- `extract_and_save_single_article`, `extract_and_save_articles` and `load_json_by_line` (lines 13-53, 236-244): file-system and JSON decoding work.
- `get_user_input_and_generate` (lines 77-80): console input and output.
- `kg_query_engine` and `createKnowledgeGraph` (lines 147-167, 208-233): wrappers over an external knowledge-graph library and model client that also change global settings.
- `ask_questions` (lines 181-206): its control flow cannot run as written. Only its `[1234]` alphabet is kept, through the alphabet parameter of `Extract`.
- The prompt strings (lines 110 and 186): they only feed the external model call. The article's `formatString` call on line 103 feeds only that prompt too.
- The floating-point percentage and all printed output (lines 117, 143, 145). `BatchResults` returns the printed values instead, and the model keeps the ZeroDivisionError.
- Per-file failures other than IndexError are outside the model's `Exception` type. `generate_response` returns the tuple `("Invalid response format", 500)` when a stream line is not JSON (line 71), and `re.findall` on it at line 112 raises TypeError. `open` and `json.load` (lines 98-99) can raise on a missing or malformed file. `Path.iterdir` (line 137) also yields subdirectories, on which `open` raises IsADirectoryError, because the file check promised by the comment at line 138 is never made. Each of these ends the file and the whole batch. Replies are always strings here, and every batch entry is a file's outcome.
- Directory enumeration with `Path.iterdir` (line 137): the batch is a sequence of per-file outcomes in enumeration order.
- The module-level call at line 247.
- JSON shape errors, such as a missing key or a value of the wrong type: the records are typed datatypes, so the KeyError or TypeError the script would raise is not modelled.
- Scoring.ShortStoryAccuracy: the script raises IndexError at the first question that has no `options` entry, after it has already sent earlier prompts. The model checks the lengths before extraction. The result is the same IndexError, but the calls that came first are not represented.
- Questions.ParseQuestions: lists are values here. So the fresh options list, and the fact that the input is not modified, hold by construction and are not stated about object identity.
- Python strings may contain lone surrogate code points, which Dafny characters cannot hold. Every such code point is 128 or above and `formatString` drops it anyway.
