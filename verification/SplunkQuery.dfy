/** The quoting of selector values inside a Splunk search. */
module SplunkQuery {
  import opened Basics

  /** `s.replace(c, r)` for a one-character pattern. */
  function Replace(s: string, c: char, r: string): string {
    if s == "" then "" else (if s[0] == c then r else [s[0]]) + Replace(s[1..], c, r)
  }

  const LITERAL_LIMIT := 512

  /** Backslashes are doubled first, then quotes escaped, then the text is cut. */
  function Literal(value: string): string {
    Clip(Replace(Replace(value, '\\', "\\\\"), '"', "\\\""), LITERAL_LIMIT)
  }

  /** The one-pass form: a backslash before every backslash and every quote. */
  function Escape(s: string): (e: string)
    ensures |s| <= |e| <= 2 * |s|
  {
    if s == "" then ""
    else (if s[0] == '\\' || s[0] == '"' then ['\\', s[0]] else [s[0]]) + Escape(s[1..])
  }

  /** How many characters of `s` need a backslash. */
  function Special(s: string): nat {
    if s == "" then 0 else (if s[0] == '\\' || s[0] == '"' then 1 else 0) + Special(s[1..])
  }

  lemma {:induction false} ReplaceDistributes(a: string, b: string, c: char, r: string)
    ensures Replace(a + b, c, r) == Replace(a, c, r) + Replace(b, c, r)
  {
    if a == "" {
      assert a + b == b;
    } else {
      assert (a + b)[1..] == a[1..] + b;
      ReplaceDistributes(a[1..], b, c, r);
    }
  }

  /** The two successive replacements are the one-pass map: no backslash put in by the second
      is doubled by the first, and no quote escapes twice. */
  lemma {:induction false} TwoReplacesAreOnePass(s: string)
    ensures Replace(Replace(s, '\\', "\\\\"), '"', "\\\"") == Escape(s)
    ensures |Escape(s)| == |s| + Special(s)
  {
    if s != "" {
      var head := if s[0] == '\\' then "\\\\" else [s[0]];
      ReplaceDistributes(head, Replace(s[1..], '\\', "\\\\"), '"', "\\\"");
      TwoReplacesAreOnePass(s[1..]);
      if s[0] == '\\' {
        assert head[1..] == "\\" && head[1..][1..] == "";
        assert Replace(head, '"', "\\\"") == "\\\\";
      } else {
        assert head[1..] == "";
        assert Replace(head, '"', "\\\"") == if s[0] == '"' then "\\\"" else head;
      }
    }
  }

  /** Reads a quoted text from just after its opening quote up to its closing quote: a
      backslash takes the next character as it is. None when the quote never closes. */
  function ReadQuoted(text: string): Option<(string, string)> {
    if text == "" then None
    else if text[0] == '"' then Some(("", text[1..]))
    else if text[0] == '\\' then
      if |text| == 1 then None else Prepend(text[1], ReadQuoted(text[2..]))
    else Prepend(text[0], ReadQuoted(text[1..]))
  }

  function Prepend(c: char, r: Option<(string, string)>): Option<(string, string)> {
    match r
    case None => None
    case Some((read, rest)) => Some(([c] + read, rest))
  }

  lemma ReadEscaped(c: char, tail: string)
    ensures ReadQuoted(['\\', c] + tail) == Prepend(c, ReadQuoted(tail))
  {
    assert (['\\', c] + tail)[2..] == tail;
  }

  lemma ReadPlain(c: char, tail: string)
    requires c != '\\' && c != '"'
    ensures ReadQuoted([c] + tail) == Prepend(c, ReadQuoted(tail))
  {
    assert ([c] + tail)[1..] == tail;
  }

  lemma {:induction false} EscapeReadsBack(s: string, rest: string)
    ensures ReadQuoted(Escape(s) + "\"" + rest) == Some((s, rest))
  {
    var text := Escape(s) + "\"" + rest;
    if s == "" {
      assert text[0] == '"' && text[1..] == rest;
    } else {
      hide ReadQuoted;
      EscapeReadsBack(s[1..], rest);
      var tail := Escape(s[1..]) + "\"" + rest;
      assert [s[0]] + s[1..] == s;
      if s[0] == '\\' || s[0] == '"' {
        assert text == ['\\', s[0]] + tail;
        ReadEscaped(s[0], tail);
      } else {
        assert text == [s[0]] + tail;
        ReadPlain(s[0], tail);
      }
    }
  }

  /** The length of the run of backslashes that ends just before position `i`. */
  function RunBefore(e: string, i: nat): nat
    requires i <= |e|
  {
    if i == 0 || e[i - 1] != '\\' then 0 else 1 + RunBefore(e, i - 1)
  }

  lemma {:induction false} RunAcrossSeam(a: string, b: string, i: nat)
    requires i <= |b|
    ensures RunBefore(b, i) <= i
    ensures RunBefore(a + b, |a| + i) ==
            RunBefore(b, i) + if RunBefore(b, i) == i then RunBefore(a + b, |a|) else 0
  {
    if i > 0 {
      RunAcrossSeam(a, b, i - 1);
    }
  }

  lemma RunInPair(c: char, tail: string)
    requires c == '\\' || c == '"'
    ensures RunBefore(['\\', c] + tail, 1) == 1 && RunBefore(['\\', c] + tail, 2) % 2 == 0
  {
    var s := ['\\', c] + tail;
    assert s[0] == '\\' && s[1] == c;
    assert RunBefore(s, 0) == 0;
  }

  lemma RunAfterPlain(c: char, tail: string)
    requires c != '\\'
    ensures RunBefore([c] + tail, 1) == 0
  {
    assert ([c] + tail)[0] == c;
  }

  /** Every quote of an escaped text stands behind an odd run of backslashes. */
  lemma {:induction false} QuotesAreEscaped(s: string, i: nat)
    requires i < |Escape(s)| && Escape(s)[i] == '"'
    ensures RunBefore(Escape(s), i) % 2 == 1
  {
    hide RunBefore;
    var special := s[0] == '\\' || s[0] == '"';
    var head := if special then ['\\', s[0]] else [s[0]];
    var tail := Escape(s[1..]);
    assert Escape(s) == head + tail;
    if special {
      RunInPair(s[0], tail);
    } else {
      RunAfterPlain(s[0], tail);
    }
    if i >= |head| {
      assert tail[i - |head|] == '"';
      QuotesAreEscaped(s[1..], i - |head|);
      RunAcrossSeam(head, tail, i - |head|);
    } else {
      assert (head + tail)[i] == head[i];
    }
  }

  /** The cut changes nothing exactly when the value and its escapes fit the limit. */
  lemma LiteralIsEscape(value: string)
    ensures Literal(value) == Escape(value) <==> |value| + Special(value) <= 512
    ensures |value| <= 256 ==> Literal(value) == Escape(value)
  {
    TwoReplacesAreOnePass(value);
  }

  /** Reading a value takes a character for each of its own, another for each backslash and
      quote among them, and the closing quote. */
  lemma {:induction false} ReadingTakesRoom(text: string)
    ensures var r := ReadQuoted(text);
            r.Some? ==> |text| >= |r.value.0| + Special(r.value.0) + 1 + |r.value.1|
    decreases |text|
  {
    if text != "" && text[0] != '"' && text != "\\" {
      var n := if text[0] == '\\' then 2 else 1;
      ReadingTakesRoom(text[n..]);
      var rest := ReadQuoted(text[n..]);
      if rest.Some? {
        assert ([text[n - 1]] + rest.value.0)[1..] == rest.value.0;
      }
    }
  }

  /** Whatever follows the closing quote, a value is read back unchanged, and the reading stops
      at that quote, exactly when the value and its escapes fit; every selector value of the
      schema does. */
  lemma QuotedLiteralReadsBack(value: string, rest: string)
    ensures ReadQuoted(Literal(value) + "\"" + rest) == Some((value, rest)) <==>
            |value| + Special(value) <= 512
    ensures |value| <= 256 ==> |value| + Special(value) <= 512
  {
    LiteralIsEscape(value);
    if |value| + Special(value) <= LITERAL_LIMIT {
      EscapeReadsBack(value, rest);
    } else {
      ReadingTakesRoom(Literal(value) + "\"" + rest);
    }
    TwoReplacesAreOnePass(value);
  }

  // ---------- The search text ----------

  datatype Selector =
    | RunSelector(runId: string, workflow: Option<string>)
    | ResultSelector(resultId: string)
    | LatestSelector(earliest: string)

  /** The search of a review: index, then the quoted selector values. */
  function Search(index: string, selector: Selector): string {
    var base := "index=\"" + index + "\"";
    match selector
    case RunSelector(runId, workflow) =>
      base + " run_id=\"" + Literal(runId) + "\"" +
      (if workflow.Some? && workflow.value != "" then " workflow=\"" + Literal(workflow.value) + "\"" else "")
    case ResultSelector(resultId) => base + " result_id=\"" + Literal(resultId) + "\""
    case LatestSelector(_) => base
  }

  function After(text: string, n: nat): string {
    if n <= |text| then text[n..] else ""
  }

  /** A search text that starts with this head goes on with a quoted value and then the rest. */
  ghost predicate Quotes(text: string, head: string, value: string, rest: string) {
    head <= text && ReadQuoted(After(text, |head|)) == Some((value, rest))
  }

  lemma LiteralIsQuoted(head: string, value: string, rest: string)
    requires |value| <= 256
    ensures Quotes(head + Literal(value) + "\"" + rest, head, value, rest)
  {
    QuotedLiteralReadsBack(value, rest);
    var text := head + Literal(value) + "\"" + rest;
    assert text[|head|..] == Literal(value) + "\"" + rest;
  }

  /** The text built for a run search of schema-sized values: its quoted parts read back as the
      run and, where one is given, the workflow, with nothing left over. */
  lemma RunSearchReadsBack(index: string, runId: string, workflow: Option<string>)
    requires |runId| <= 256 && (workflow.Some? ==> |workflow.value| <= 256)
    ensures var text := Search(index, RunSelector(runId, workflow));
            var head := "index=\"" + index + "\" run_id=\"";
            if workflow.GetOr("") == "" then Quotes(text, head, runId, "")
            else exists rest ::
              Quotes(text, head, runId, rest) && Quotes(rest, " workflow=\"", workflow.value, "")
  {
    var text := Search(index, RunSelector(runId, workflow));
    var head := "index=\"" + index + "\" run_id=\"";
    var mid := " workflow=\"";
    var tail := if workflow.GetOr("") != "" then mid + Literal(workflow.value) + "\"" else "";
    assert text == head + Literal(runId) + "\"" + tail;
    LiteralIsQuoted(head, runId, tail);
    if workflow.GetOr("") != "" {
      assert tail == mid + Literal(workflow.value) + "\"" + "";
      LiteralIsQuoted(mid, workflow.value, "");
    }
  }

  /** A search for the latest results names the index alone. */
  lemma LatestSearchIsPlain(index: string, earliest: string)
    ensures Search(index, LatestSelector(earliest)) == "index=\"" + index + "\""
  {
  }

  /** The text built for a result search. */
  lemma ResultSearchReadsBack(index: string, resultId: string)
    requires |resultId| <= 256
    ensures Quotes(Search(index, ResultSelector(resultId)), "index=\"" + index + "\" result_id=\"", resultId, "")
  {
    var head := "index=\"" + index + "\" result_id=\"";
    assert Search(index, ResultSelector(resultId)) == head + Literal(resultId) + "\"" + "";
    LiteralIsQuoted(head, resultId, "");
  }

  function Repeat(c: char, n: nat): (s: string)
    ensures |s| == n && forall i :: 0 <= i < n ==> s[i] == c
  {
    seq(n, i => c)
  }

  lemma {:induction false} EscapeOfRepeat(c: char, n: nat, rest: string)
    requires c != '\\' && c != '"'
    ensures Escape(Repeat(c, n) + rest) == Repeat(c, n) + Escape(rest)
  {
    if n == 0 {
      assert Repeat(c, 0) + rest == rest;
    } else {
      assert (Repeat(c, n) + rest)[1..] == Repeat(c, n - 1) + rest;
      EscapeOfRepeat(c, n - 1, rest);
      assert Repeat(c, n) == [c] + Repeat(c, n - 1);
    }
  }

  /** Beyond the schema's bound the cut can split an escape: 511 plain characters and a quote
      end in a lone backslash, which swallows the closing quote. */
  lemma CutCanSplitAnEscape()
    ensures var value := Repeat('a', 511) + "\"";
            ReadQuoted(Literal(value) + "\"") == None
  {
    var value := Repeat('a', 511) + "\"";
    TwoReplacesAreOnePass(value);
    EscapeOfRepeat('a', 511, "\"");
    assert Escape("\"") == "\\\"" + Escape("\""[1..]) == "\\\"";
    assert Literal(value) == Repeat('a', 511) + "\\";
    ReadPastRepeat('a', 511, "\\\"");
    assert Literal(value) + "\"" == Repeat('a', 511) + "\\\"";
    assert ReadQuoted("\\\"") == Prepend('"', ReadQuoted("\\\""[2..]));
  }

  lemma {:induction false} ReadPastRepeat(c: char, n: nat, rest: string)
    requires c != '\\' && c != '"'
    ensures ReadQuoted(Repeat(c, n) + rest).None? <==> ReadQuoted(rest).None?
  {
    if n == 0 {
      assert Repeat(c, 0) + rest == rest;
    } else {
      assert (Repeat(c, n) + rest)[1..] == Repeat(c, n - 1) + rest;
      ReadPastRepeat(c, n - 1, rest);
    }
  }
}
