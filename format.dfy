/** The prompt formatter of src/llmResponse.py: `formatString` and `formatOptions`. */
module Format {

  /** A character that `formatString` keeps: not a newline, not a quote, and ASCII. */
  predicate Kept(c: char) {
    c != '\n' && c != '\'' && c != '"' && (c as int) < 128
  }

  /** Every character of `s` is kept by `formatString`. */
  predicate Clean(s: string) {
    forall k :: 0 <= k < |s| ==> Kept(s[k])
  }

  // ---------------------------------------------------------------------------
  // formatString, as written: three `replace` calls and an ASCII encode/decode
  // ---------------------------------------------------------------------------

  /** `s.replace(c, "")` for a one-character `c`: every occurrence of `c` is removed,
      and every other character keeps its number of occurrences. */
  function Without(s: string, c: char): (r: string)
    ensures |r| <= |s|
    ensures forall k :: 0 <= k < |r| ==> r[k] != c && r[k] in s
    ensures forall x :: multiset(r)[x] == if x == c then 0 else multiset(s)[x]
  {
    if s == [] then []
    else
      assert s == [s[0]] + s[1..];
      (if s[0] == c then [] else [s[0]]) + Without(s[1..], c)
  }

  /** `s.encode('ascii', errors = "ignore").decode()`: code points of 128 and above are dropped. */
  function AsciiOnly(s: string): (r: string)
    ensures |r| <= |s|
    ensures forall k :: 0 <= k < |r| ==> (r[k] as int) < 128 && r[k] in s
  {
    if s == [] then []
    else (if (s[0] as int) < 128 then [s[0]] else []) + AsciiOnly(s[1..])
  }

  /** `formatString`: no newline, no quote and no non-ASCII character survives. */
  function FormatString(s: string): (r: string)
    ensures |r| <= |s|
    ensures Clean(r)
  {
    AsciiOnly(Without(Without(Without(s, '\n'), '\''), '"'))
  }

  // ---------------------------------------------------------------------------
  // The reference definition: one filter over the input
  // ---------------------------------------------------------------------------

  /** The characters of `s` that satisfy `Kept`, in their original order. */
  function Sanitised(s: string): string {
    if s == [] then []
    else (if Kept(s[0]) then [s[0]] else []) + Sanitised(s[1..])
  }

  /** `a` can be obtained from `b` by deleting characters (greedy matching). */
  predicate IsSubsequence(a: string, b: string)
    decreases |b|
  {
    if a == [] then true
    else if b == [] then false
    else if a[0] == b[0] then IsSubsequence(a[1..], b[1..])
    else IsSubsequence(a, b[1..])
  }

  lemma {:induction false} WithoutAppend(a: string, b: string, c: char)
    ensures Without(a + b, c) == Without(a, c) + Without(b, c)
  {
    if a == [] {
      assert a + b == b;
    } else {
      assert (a + b)[1..] == a[1..] + b;
      WithoutAppend(a[1..], b, c);
    }
  }

  lemma {:induction false} AsciiOnlyAppend(a: string, b: string)
    ensures AsciiOnly(a + b) == AsciiOnly(a) + AsciiOnly(b)
  {
    if a == [] {
      assert a + b == b;
    } else {
      assert (a + b)[1..] == a[1..] + b;
      AsciiOnlyAppend(a[1..], b);
    }
  }

  /** The four passes of `formatString` together drop exactly the characters that are not `Kept`. */
  lemma {:induction false} FormatStringIsSanitised(s: string)
    ensures FormatString(s) == Sanitised(s)
  {
    if s != [] {
      var h, t := [s[0]], s[1..];
      assert s == h + t;
      var h1, t1 := Without(h, '\n'), Without(t, '\n');
      var h2, t2 := Without(h1, '\''), Without(t1, '\'');
      var h3, t3 := Without(h2, '"'), Without(t2, '"');
      WithoutAppend(h, t, '\n');
      WithoutAppend(h1, t1, '\'');
      WithoutAppend(h2, t2, '"');
      AsciiOnlyAppend(h3, t3);
      assert AsciiOnly(h3) == if Kept(s[0]) then [s[0]] else [];
      FormatStringIsSanitised(t);
    }
  }

  /** `formatString` keeps the kept characters in order: its output is a subsequence of its input. */
  lemma {:induction false} SanitisedIsSubsequence(s: string)
    ensures IsSubsequence(Sanitised(s), s)
  {
    if s != [] {
      var a, t := Sanitised(s), s[1..];
      SanitisedIsSubsequence(t);
      if Kept(s[0]) {
        assert a[0] == s[0] && a[1..] == Sanitised(t);
      } else {
        assert a == Sanitised(t);
        if a != [] {
          SanitisedClean(t);
          assert Kept(a[0]);
        }
      }
    }
  }

  /** Only kept characters come out. */
  lemma {:induction false} SanitisedClean(s: string)
    ensures Clean(Sanitised(s))
  {
    if s != [] {
      SanitisedClean(s[1..]);
    }
  }

  /** Each kept character occurs in the output exactly as often as in the input; the others never. */
  lemma {:induction false} SanitisedCounts(s: string)
    ensures forall c :: multiset(Sanitised(s))[c] == if Kept(c) then multiset(s)[c] else 0
  {
    if s != [] {
      SanitisedCounts(s[1..]);
      assert s == [s[0]] + s[1..];
      assert multiset(s) == multiset([s[0]]) + multiset(s[1..]);
    }
  }

  /** A string is left unchanged exactly when all its characters are kept. */
  lemma {:induction false} SanitisedFixesExactlyClean(s: string)
    ensures Sanitised(s) == s <==> Clean(s)
  {
    if s != [] {
      SanitisedFixesExactlyClean(s[1..]);
      SanitisedLength(s[1..]);
      if Sanitised(s) == s {
        SanitisedClean(s);
      }
    }
  }

  lemma {:induction false} SanitisedLength(s: string)
    ensures |Sanitised(s)| <= |s|
  {
    if s != [] {
      SanitisedLength(s[1..]);
    }
  }

  /** Applying `formatString` to its own output changes nothing. */
  lemma FormatStringIdempotent(s: string)
    ensures FormatString(FormatString(s)) == FormatString(s)
  {
    FormatStringIsSanitised(FormatString(s));
    SanitisedFixesExactlyClean(FormatString(s));
  }

  // ---------------------------------------------------------------------------
  // Decimal labels: the `{i}` of an f-string for a non-negative `i`
  // ---------------------------------------------------------------------------

  function DigitChar(d: nat): (c: char)
    requires d < 10
    ensures '0' <= c <= '9'
  {
    ('0' as int + d) as char
  }

  predicate IsDigits(s: string) {
    forall k :: 0 <= k < |s| ==> '0' <= s[k] <= '9'
  }

  /** `str(n)`: the decimal digits of `n`, with no leading zero. */
  function Decimal(n: nat): (r: string)
    ensures |r| >= 1 && IsDigits(r)
    ensures r[0] == '0' ==> n == 0
  {
    if n < 10 then [DigitChar(n)] else Decimal(n / 10) + [DigitChar(n % 10)]
  }

  /** The number a string of decimal digits denotes. */
  function DecimalValue(s: string): nat
    requires IsDigits(s)
  {
    if s == [] then 0
    else DecimalValue(s[..|s| - 1]) * 10 + (s[|s| - 1] as int - '0' as int)
  }

  /** Reading a label back gives the index it was rendered from. */
  lemma {:induction false} DecimalRoundTrip(n: nat)
    ensures DecimalValue(Decimal(n)) == n
  {
    var r := Decimal(n);
    if n >= 10 {
      DecimalRoundTrip(n / 10);
      assert r[..|r| - 1] == Decimal(n / 10);
    }
  }

  // ---------------------------------------------------------------------------
  // formatOptions, as written
  // ---------------------------------------------------------------------------

  /** The two characters, a backslash and `n`, that the f-string's `\\n` produces. */
  const Escape: string := ['\\', 'n']

  /** One rendered segment: `(i) `, the sanitised option, then the escape. */
  function Segment(i: nat, option: string): string {
    "(" + Decimal(i) + ") " + FormatString(option) + Escape
  }

  /** Segments 0 .. n-1, each showing the same option `first`. */
  function Repeated(n: nat, first: string): string {
    if n == 0 then "" else Repeated(n - 1, first) + Segment(n - 1, first)
  }

  /** What `formatOptions(options)` returns: one segment per option, every one showing `options[0]`. */
  function OptionsText(options: seq<string>): string {
    if options == [] then "" else Repeated(|options|, options[0])
  }

  /** `formatOptions`: builds the text segment by segment; `options[0]` is read only when there is an option. */
  method FormatOptions(options: seq<string>) returns (text: string)
    ensures text == OptionsText(options)
  {
    text := "";
    for i := 0 to |options|
      invariant options != [] ==> text == Repeated(i, options[0])
      invariant options == [] ==> text == ""
    {
      text := text + Segment(i, options[0]);
    }
  }

  lemma SegmentClean(i: nat, option: string)
    ensures Clean(Segment(i, option))
  {
  }

  /** The rendered options hold no newline, no quote and nothing but ASCII, so they are unchanged
      by `formatString`; having no single quote, they cannot close the single-quoted shell argument. */
  lemma {:induction false} OptionsTextClean(options: seq<string>)
    ensures Clean(OptionsText(options))
    ensures FormatString(OptionsText(options)) == OptionsText(options)
  {
    if options != [] {
      RepeatedClean(|options|, options[0]);
    }
    FormatStringIsSanitised(OptionsText(options));
    SanitisedFixesExactlyClean(OptionsText(options));
  }

  lemma {:induction false} RepeatedClean(n: nat, first: string)
    ensures Clean(Repeated(n, first))
  {
    if n > 0 {
      RepeatedClean(n - 1, first);
      SegmentClean(n - 1, first);
    }
  }

  // ---------------------------------------------------------------------------
  // The evidently intended rendering, one segment per option
  // ---------------------------------------------------------------------------

  /** Segment i shows `options[i]`. */
  function IntendedOptionsText(options: seq<string>): string {
    if options == [] then ""
    else IntendedOptionsText(options[..|options| - 1]) + Segment(|options| - 1, options[|options| - 1])
  }

  /** Every option as written stops at `options[0]`: the second option of `["p", "q"]` never shows. */
  lemma OptionsTextHidesLaterOptions()
    ensures OptionsText(["p", "q"]) == "(0) p\\n(1) p\\n"
    ensures 'q' in ["p", "q"][1] && Kept('q') && 'q' !in OptionsText(["p", "q"])
  {
    assert Clean("p");
    SanitisedFixesExactlyClean("p");
    FormatStringIsSanitised("p");
    assert FormatString("p") == "p";
    assert Decimal(0) == "0" && Decimal(1) == "1";
    assert Segment(0, "p") == "(0) p\\n";
    assert Segment(1, "p") == "(1) p\\n";
    assert Repeated(1, "p") == Segment(0, "p");
    assert Repeated(2, "p") == Repeated(1, "p") + Segment(1, "p");
  }

  lemma KeptSurvives(s: string, c: char)
    requires c in s && Kept(c)
    ensures c in FormatString(s)
  {
    FormatStringIsSanitised(s);
    SanitisedCounts(s);
    assert multiset(s)[c] > 0;
  }

  /** In the intended rendering every kept character of every option appears. */
  lemma {:induction false} IntendedOptionsTextShowsEveryOption(options: seq<string>, i: nat, c: char)
    requires i < |options| && c in options[i] && Kept(c)
    ensures c in IntendedOptionsText(options)
  {
    var n := |options| - 1;
    if i == n {
      KeptSurvives(options[i], c);
      assert c in Segment(i, options[i]);
    } else {
      IntendedOptionsTextShowsEveryOption(options[..n], i, c);
    }
  }
}
