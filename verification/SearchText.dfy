/** What is left of a search text when the Splunk client has cleaned it of white space. */
module SearchText {
  import opened Basics
  import opened Text
  import opened SplunkQuery

  // ---------- The cleaning ----------

  function WordEnd(s: string): (n: nat)
    ensures n <= |s|
  {
    if s == "" || IsSpace(s[0]) then 0 else 1 + WordEnd(s[1..])
  }

  /** `s.split()`: the words between runs of white space. */
  function Words(s: string): seq<string>
    decreases |s|
  {
    StripLeftIsSuffix(s);
    var t := StripLeft(s);
    if t == "" then [] else [t[..WordEnd(t)]] + Words(t[WordEnd(t)..])
  }

  /** `" ".join(s.strip().split())`. */
  function Clean(s: string): string {
    Join(Words(Strip(s)), ' ')
  }

  /** The one-pass form: every run of white space becomes one space. */
  function Squeeze(s: string): (r: string)
    ensures |r| <= |s|
  {
    if s == "" then ""
    else if !IsSpace(s[0]) then [s[0]] + Squeeze(s[1..])
    else if |s| > 1 && IsSpace(s[1]) then Squeeze(s[1..])
    else " " + Squeeze(s[1..])
  }

  lemma {:induction false} SqueezeWord(s: string)
    ensures Squeeze(s) == s[..WordEnd(s)] + Squeeze(s[WordEnd(s)..])
    ensures WordEnd(s) < |s| ==> IsSpace(s[WordEnd(s)])
  {
    if s != "" && !IsSpace(s[0]) {
      SqueezeWord(s[1..]);
      assert s[..WordEnd(s)] == [s[0]] + s[1..][..WordEnd(s[1..])];
      assert s[WordEnd(s)..] == s[1..][WordEnd(s[1..])..];
    }
  }

  lemma {:induction false} SqueezeRun(s: string)
    requires s != "" && IsSpace(s[0]) && StripLeft(s) != ""
    ensures Squeeze(s) == " " + Squeeze(StripLeft(s))
  {
    if |s| > 1 && IsSpace(s[1]) {
      SqueezeRun(s[1..]);
    } else {
      assert StripLeft(s) == s[1..];
    }
  }

  /** A text without white space at its ends. */
  predicate Trimmed(s: string) {
    s != "" && !IsSpace(s[0]) && !IsSpace(s[|s| - 1])
  }

  lemma {:induction false} StripLeftKeepsEnd(s: string)
    requires s != "" && !IsSpace(s[|s| - 1])
    ensures StripLeft(s) != "" && StripLeft(s)[|StripLeft(s)| - 1] == s[|s| - 1]
  {
    if IsSpace(s[0]) {
      StripLeftKeepsEnd(s[1..]);
    }
  }

  lemma {:induction false} WordsAreSqueezed(s: string)
    requires Trimmed(s)
    ensures Words(s) != [] && Join(Words(s), ' ') == Squeeze(s)
    decreases |s|
  {
    var n := WordEnd(s);
    SqueezeWord(s);
    assert StripLeft(s) == s;
    if n == |s| {
      assert s[n..] == "" && s[..n] == s;
      assert Words(s) == [s];
    } else {
      var rest := s[n..];
      StripLeftKeepsEnd(rest);
      StripLeftIsSuffix(rest);
      var next := StripLeft(rest);
      WordsAreSqueezed(next);
      SqueezeRun(rest);
      WordsSkipSpace(rest);
      assert Words(s) == [s[..n]] + Words(rest);
      assert Words(s)[1..] == Words(rest);
    }
  }

  lemma WordsSkipSpace(s: string)
    ensures Words(s) == Words(StripLeft(s))
  {
    StripLeftIsSuffix(s);
    assert StripLeft(StripLeft(s)) == StripLeft(s);
  }

  /** Cleaning a text without white space at its ends is squeezing it. */
  lemma CleanIsSqueeze(s: string)
    requires Trimmed(s)
    ensures Clean(s) == Squeeze(s)
  {
    StripLeavesTrimmed(s);
    WordsAreSqueezed(s);
  }

  // ---------- What it leaves as it is ----------

  /** The only white space is single spaces, each by itself. */
  predicate Tidy(s: string) {
    && (forall i :: 0 <= i < |s| && IsSpace(s[i]) ==> s[i] == ' ')
    && (forall i :: 0 <= i < |s| - 1 ==> !(IsSpace(s[i]) && IsSpace(s[i + 1])))
  }

  lemma TidyTail(s: string)
    requires s != ""
    ensures Tidy(s) <==>
            && (IsSpace(s[0]) ==> s[0] == ' ' && (|s| > 1 ==> !IsSpace(s[1])))
            && Tidy(s[1..])
  {
    var t := s[1..];
    if Tidy(t) {
      forall i | 0 < i < |s| ensures s[i] == t[i - 1] {
      }
    }
    if Tidy(s) {
      forall i | 0 <= i < |t| ensures t[i] == s[i + 1] {
      }
    }
  }

  lemma {:induction false} SqueezeIsIdentity(s: string)
    ensures Squeeze(s) == s <==> Tidy(s)
  {
    if s != "" {
      TidyTail(s);
      SqueezeIsIdentity(s[1..]);
      assert s == [s[0]] + s[1..];
      if Squeeze(s) == s {
        assert Squeeze(s)[1..] == s[1..];
      }
    }
  }

  /** What a first character comes to, given what follows it. */
  function Kept(c: char, t: string): string {
    if !IsSpace(c) then [c] else if t != "" && IsSpace(t[0]) then "" else " "
  }

  lemma SqueezeHead(c: char, t: string)
    ensures Squeeze([c] + t) == Kept(c, t) + Squeeze(t)
  {
    hide IsSpace;
    var s := [c] + t;
    assert s[0] == c && s[1..] == t && (t != "" ==> s[1] == t[0]);
  }

  lemma KeptIsLocal(c: char, t: string, b: string)
    requires t != "" || b == "" || !IsSpace(c) || !IsSpace(b[0])
    ensures Kept(c, t + b) == Kept(c, t)
  {
    hide IsSpace;
    assert t != "" ==> (t + b)[0] == t[0];
    assert t == "" ==> t + b == b;
  }

  lemma {:induction false} SqueezeSplits(a: string, b: string)
    requires a == "" || b == "" || !IsSpace(a[|a| - 1]) || !IsSpace(b[0])
    ensures Squeeze(a + b) == Squeeze(a) + Squeeze(b)
  {
    if a == "" {
      assert a + b == b;
    } else {
      hide IsSpace, Squeeze, Kept;
      var c, t := a[0], a[1..];
      assert a == [c] + t;
      Regroup([c], t, b);
      SqueezeHead(c, t);
      SqueezeHead(c, t + b);
      KeptIsLocal(c, t, b);
      SqueezeSplits(t, b);
      Regroup(Kept(c, t), Squeeze(t), Squeeze(b));
    }
  }

  lemma Regroup(x: string, y: string, z: string)
    ensures (x + y) + z == x + (y + z)
  {
  }

  lemma {:induction false} EscapeSqueezes(s: string)
    ensures Squeeze(Escape(s)) == Escape(Squeeze(s))
    ensures s != "" ==> (IsSpace(Escape(s)[0]) <==> IsSpace(s[0]))
  {
    if s != "" {
      EscapeSqueezes(s[1..]);
      assert !IsSpace('\\') && !IsSpace('"');
      var tail := Escape(s[1..]);
      if s[0] == '\\' || s[0] == '"' {
        SqueezePair(s[0], tail);
      } else {
        assert Escape(s) == [s[0]] + tail;
        assert (|s| > 1 ==> s[1..][0] == s[1]) && (|s| == 1 ==> tail == "");
        assert ([s[0]] + tail)[1..] == tail;
        EscapeOne(s[0], Squeeze(s[1..]));
        EscapeOne(' ', Squeeze(s[1..]));
      }
      if !IsSpace(s[0]) {
        EscapeOne(s[0], Squeeze(s[1..]));
      }
    }
  }

  lemma SqueezePair(c: char, tail: string)
    requires !IsSpace(c)
    ensures Squeeze(['\\', c] + tail) == ['\\', c] + Squeeze(tail)
  {
    var s := ['\\', c] + tail;
    assert s[1..] == [c] + tail && ([c] + tail)[1..] == tail;
  }

  lemma EscapeOne(c: char, tail: string)
    ensures Escape([c] + tail) == (if c == '\\' || c == '"' then ['\\', c] else [c]) + Escape(tail)
  {
    assert ([c] + tail)[1..] == tail;
  }

  // ---------- What the quoted values of a sent search mean ----------

  lemma SqueezedLiteral(head: string, value: string, rest: string)
    requires |value| <= 256 && head != "" && head[|head| - 1] == '"'
    ensures Squeeze(head + Literal(value) + "\"" + rest) ==
            Squeeze(head) + (Escape(Squeeze(value)) + "\"" + Squeeze(rest))
  {
    hide IsSpace, Squeeze, Escape, Literal;
    var tail := ['"'] + rest;
    LiteralIsEscape(value);
    GraphicIsNoSpace('"');
    assert tail[0] == '"' && head + Literal(value) + "\"" + rest == head + (Escape(value) + tail);
    assert !IsSpace(head[|head| - 1]) && !IsSpace(tail[0]);
    SqueezeSplits(head, Escape(value) + tail);
    SqueezeSplits(Escape(value), tail);
    SqueezeHead('"', rest);
    EscapeSqueezes(value);
  }

  lemma SqueezedLiteralIsQuoted(head: string, value: string, rest: string)
    requires |value| <= 256 && head != "" && head[|head| - 1] == '"'
    ensures Quotes(Squeeze(head + Literal(value) + "\"" + rest), Squeeze(head), Squeeze(value), Squeeze(rest))
  {
    hide IsSpace, Squeeze, Escape, Literal, ReadQuoted;
    SqueezedLiteral(head, value, rest);
    var sent := Squeeze(head + Literal(value) + "\"" + rest);
    assert sent[|Squeeze(head)|..] == Escape(Squeeze(value)) + "\"" + Squeeze(rest);
    EscapeReadsBack(Squeeze(value), Squeeze(rest));
  }

  /** What the client sends of a run search: the run and the workflow read back with every run
      of white space in them squeezed to one space. */
  lemma SentRunSearchReadsBack(index: string, runId: string, workflow: Option<string>)
    requires |runId| <= 256 && (workflow.Some? ==> |workflow.value| <= 256)
    ensures var text := Clean(Search(index, RunSelector(runId, workflow)));
            var head := Squeeze("index=\"" + index + "\" run_id=\"");
            if workflow.GetOr("") == "" then Quotes(text, head, Squeeze(runId), "")
            else exists rest ::
              Quotes(text, head, Squeeze(runId), rest) && Quotes(rest, " workflow=\"", Squeeze(workflow.value), "")
  {
    hide IsSpace, Literal, Squeeze, Clean, Quotes;
    var text := Search(index, RunSelector(runId, workflow));
    var head := "index=\"" + index + "\" run_id=\"";
    var tail := WorkflowTail(workflow);
    assert text == head + Literal(runId) + "\"" + tail;
    SearchIsTrimmed(text);
    CleanIsSqueeze(text);
    SqueezedLiteralIsQuoted(head, runId, tail);
    if workflow.GetOr("") == "" {
      SqueezeNothing();
    } else {
      TailReadsBack(workflow.value);
    }
  }

  function WorkflowTail(workflow: Option<string>): string {
    if workflow.GetOr("") != "" then " workflow=\"" + Literal(workflow.value) + "\"" else ""
  }

  lemma SqueezeNothing()
    ensures Squeeze("") == ""
  {
  }

  lemma TailReadsBack(workflow: string)
    requires 0 < |workflow| <= 256
    ensures Quotes(Squeeze(WorkflowTail(Some(workflow))), " workflow=\"", Squeeze(workflow), "")
  {
    hide IsSpace, Literal, Squeeze, Quotes;
    var mid := " workflow=\"";
    assert WorkflowTail(Some(workflow)) == mid + Literal(workflow) + "\"" + "";
    SqueezedLiteralIsQuoted(mid, workflow, "");
    MidIsTidy();
    SqueezeNothing();
  }

  lemma GraphicIsNoSpace(c: char)
    requires '!' <= c <= '~'
    ensures !IsSpace(c)
  {
  }

  lemma MidIsTidy()
    ensures Squeeze(" workflow=\"") == " workflow=\""
  {
    hide IsSpace, Squeeze;
    var mid := " workflow=\"";
    forall i | 1 <= i < |mid| ensures !IsSpace(mid[i]) {
      GraphicIsNoSpace(mid[i]);
    }
    SqueezeIsIdentity(mid);
  }

  lemma SearchIsTrimmed(text: string)
    requires text != "" && text[0] == 'i' && text[|text| - 1] == '"'
    ensures Trimmed(text)
  {
  }

  /** So does a result search. */
  lemma SentResultSearchReadsBack(index: string, resultId: string)
    requires |resultId| <= 256
    ensures Quotes(Clean(Search(index, ResultSelector(resultId))),
                   Squeeze("index=\"" + index + "\" result_id=\""), Squeeze(resultId), "")
  {
    hide IsSpace, Literal, Squeeze, Clean, Quotes;
    var text, head := Search(index, ResultSelector(resultId)), "index=\"" + index + "\" result_id=\"";
    assert text == head + Literal(resultId) + "\"" + "";
    SearchIsTrimmed(text);
    CleanIsSqueeze(text);
    SqueezedLiteralIsQuoted(head, resultId, "");
    SqueezeNothing();
  }

  /** A result is asked for as it was given exactly when the only white space in its id is single
      spaces, each by itself. */
  lemma SentResultIsAskedExactly(index: string, resultId: string)
    requires |resultId| <= 256
    ensures Quotes(Clean(Search(index, ResultSelector(resultId))),
                   Squeeze("index=\"" + index + "\" result_id=\""), resultId, "")
            <==> Tidy(resultId)
  {
    SentResultSearchReadsBack(index, resultId);
    SqueezeIsIdentity(resultId);
  }

  /** And so is a run. */
  lemma SentRunIsAskedExactly(index: string, runId: string, workflow: Option<string>)
    requires |runId| <= 256 && (workflow.Some? ==> |workflow.value| <= 256)
    ensures (exists rest :: Quotes(Clean(Search(index, RunSelector(runId, workflow))),
                                   Squeeze("index=\"" + index + "\" run_id=\""), runId, rest))
            <==> Tidy(runId)
  {
    hide Clean, Search, Squeeze, IsSpace;
    SentRunSearchReadsBack(index, runId, workflow);
    SqueezeIsIdentity(runId);
  }
}
