/** The configured list of API credentials: `name:verifier:scope,scope;...`. */
module TokenRecords {
  import opened Basics
  import opened Text
  import opened Tokens

  const ALL_SCOPES: set<string> := {
    "reviews:write", "jobs:read", "tools:splunk", "tools:adx",
    "tools:confluence", "tools:sigma", "teams:admin", "admin" }

  /** What a verifier and a scope may be. The parser is stated for any such policy. */
  datatype Policy = Policy(valid: string -> bool, known: set<string>)

  const CONFIGURED := Policy(v => IsVerifier(v), ALL_SCOPES)

  // ---------- Parsing ----------

  /** `filter(None, (part.strip() for part in parts))`. */
  function Stripped(parts: seq<string>): seq<string> {
    if parts == [] then []
    else
      var head := Strip(parts[0]);
      (if head == "" then [] else [head]) + Stripped(parts[1..])
  }

  function ToSet(parts: seq<string>): set<string> {
    set p | p in parts
  }

  /** `item.split(":", 2)`, when it has three parts. */
  function Cut(item: string): Option<(string, string, string)> {
    var i := Before(item, ':');
    if i == |item| then None else
    var rest := item[i + 1..];
    var j := Before(rest, ':');
    if j == |rest| then None else Some((item[..i], rest[..j], rest[j + 1..]))
  }

  function Admit(name: string, verifier: string, scopes: set<string>, names: set<string>, policy: Policy):
    Result<Record> {
    if name == "" || name in names then Err("token record names must be unique and non-empty")
    else if !policy.valid(verifier) then Err("token record " + name + " does not contain a valid scrypt verifier")
    else if !(scopes <= policy.known) then Err("token record " + name + " contains unknown scopes")
    else if scopes == {} then Err("token record " + name + " must contain at least one scope")
    else Ok(Record(name, verifier, scopes))
  }

  function ParseRecord(item: string, names: set<string>, policy: Policy): Result<Record> {
    match Cut(item)
    case None => Err("token records must use name:scrypt-verifier:scope,scope")
    case Some((name, verifier, scopes)) =>
      Admit(name, verifier, ToSet(Stripped(Split(scopes, ','))), names, policy)
  }

  function ParseItems(items: seq<string>, names: set<string>, policy: Policy): Result<seq<Record>> {
    if items == [] then Ok([])
    else
      match ParseRecord(items[0], names, policy)
      case Err(message) => Err(message)
      case Ok(record) => Cons(record, ParseItems(items[1..], names + {record.name}, policy))
  }

  function Cons(record: Record, rest: Result<seq<Record>>): Result<seq<Record>> {
    match rest
    case Err(message) => Err(message)
    case Ok(records) => Ok([record] + records)
  }

  function Parse(raw: string): Result<seq<Record>> {
    ParseItems(Stripped(Split(raw, ';')), {}, CONFIGURED)
  }

  function After(records: seq<Record>, rest: Result<seq<Record>>): Result<seq<Record>> {
    match rest
    case Err(message) => Err(message)
    case Ok(more) => Ok(records + more)
  }

  lemma ParseStep(records: seq<Record>, items: seq<string>, names: set<string>, policy: Policy)
    requires items != []
    ensures var first := ParseRecord(items[0], names, policy);
            After(records, ParseItems(items, names, policy)) ==
            if first.Err? then Err(first.message)
            else After(records + [first.value], ParseItems(items[1..], names + {first.value.name}, policy))
  {
    var first := ParseRecord(items[0], names, policy);
    if first.Ok? {
      var rest := ParseItems(items[1..], names + {first.value.name}, policy);
      if rest.Ok? {
        assert records + ([first.value] + rest.value) == records + [first.value] + rest.value;
      }
    }
  }

  lemma AfterNothing(records: seq<Record>, rest: Result<seq<Record>>)
    ensures After([], rest) == rest && After(records, Ok([])) == Ok(records)
  {
    assert records + [] == records;
    if rest.Ok? {
      assert [] + rest.value == rest.value;
    }
  }

  method ParseList(items: seq<string>, policy: Policy) returns (r: Result<seq<Record>>)
    ensures r == ParseItems(items, {}, policy)
  {
    var records, names := [], {};
    AfterNothing(records, ParseItems(items, names, policy));
    assert items[0..] == items;
    for n := 0 to |items|
      invariant ParseItems(items, {}, policy) == After(records, ParseItems(items[n..], names, policy))
    {
      assert items[n..][1..] == items[n + 1..];
      ParseStep(records, items[n..], names, policy);
      var parsed := ParseRecord(items[n], names, policy);
      if parsed.Err? {
        return Err(parsed.message);
      }
      records := records + [parsed.value];
      names := names + {parsed.value.name};
    }
    AfterNothing(records, Ok([]));
    r := Ok(records);
  }

  method ParseTokenRecords(raw: string) returns (r: Result<seq<Record>>)
    ensures r == Parse(raw)
  {
    r := ParseList(Stripped(Split(raw, ';')), CONFIGURED);
  }

  lemma StrippedHead(p: string, rest: seq<string>)
    ensures Stripped([p] + rest) == (if Strip(p) == "" then [] else [Strip(p)]) + Stripped(rest)
  {
    hide Strip;
    assert ([p] + rest)[0] == p && ([p] + rest)[1..] == rest;
  }

  lemma Regroup(x: seq<string>, y: seq<string>, z: seq<string>)
    ensures (x + y) + z == x + (y + z)
  {
  }

  /** The parts of a list are taken one by one, in their order. */
  lemma {:induction false} StrippedSplits(a: seq<string>, b: seq<string>)
    ensures Stripped(a + b) == Stripped(a) + Stripped(b)
  {
    if a == [] {
      assert a + b == b;
    } else {
      hide Strip, Stripped;
      var p, t := a[0], a[1..];
      assert a == [p] + t;
      Regroup([p], t, b);
      StrippedHead(p, t);
      StrippedHead(p, t + b);
      StrippedSplits(t, b);
      Regroup(if Strip(p) == "" then [] else [Strip(p)], Stripped(t), Stripped(b));
    }
  }

  /** A part counts stripped of its outer white space, unless nothing is left. */
  lemma StrippedOne(p: string)
    ensures Stripped([p]) == if Strip(p) == "" then [] else [Strip(p)]
  {
    hide Strip;
    assert [p][1..] == [];
  }

  // ---------- What parsing yields ----------

  predicate GoodName(name: string) {
    name != "" && !IsSpace(name[0]) && ':' !in name && ';' !in name
  }

  predicate GoodRecord(r: Record, policy: Policy) {
    GoodName(r.name) && policy.valid(r.verifier) && r.scopes != {} && r.scopes <= policy.known
  }

  predicate DistinctNames(records: seq<Record>) {
    forall i, j :: 0 <= i < j < |records| ==> records[i].name != records[j].name
  }

  /** An item of the list: not empty, not led by a space, without the list separator. */
  predicate ListItem(item: string) {
    item != "" && !IsSpace(item[0]) && ';' !in item
  }

  lemma {:induction false} StrippedAreListItems(parts: seq<string>)
    requires forall p :: p in parts ==> ';' !in p
    ensures forall p :: p in Stripped(parts) ==> ListItem(p)
  {
    if parts != [] {
      assert parts[0] in parts;
      StripTrims(parts[0]);
      StrippedAreListItems(parts[1..]);
    }
  }

  lemma ParsedRecordIsGood(item: string, names: set<string>, policy: Policy)
    requires ListItem(item) && ParseRecord(item, names, policy).Ok?
    ensures var r := ParseRecord(item, names, policy).value; GoodRecord(r, policy) && r.name !in names
  {
    var n := Before(item, ':');
    BeforeIsFirst(item, ':');
    assert forall c :: c in item[..n] ==> c in item;
    assert item[..n] != "" ==> item[..n][0] == item[0];
  }

  lemma {:induction false} ParsedItemsAreGood(items: seq<string>, names: set<string>, policy: Policy)
    requires forall p :: p in items ==> ListItem(p)
    requires ParseItems(items, names, policy).Ok?
    ensures var records := ParseItems(items, names, policy).value;
            && |records| == |items| && DistinctNames(records)
            && forall r :: r in records ==> GoodRecord(r, policy) && r.name !in names
  {
    if items != [] {
      assert items[0] in items;
      ParsedRecordIsGood(items[0], names, policy);
      var record := ParseRecord(items[0], names, policy).value;
      ParsedItemsAreGood(items[1..], names + {record.name}, policy);
      var rest := ParseItems(items[1..], names + {record.name}, policy).value;
      assert forall r :: r in rest ==> r.name != record.name;
    }
  }

  /** The scopes there are. */
  predicate IsScope(s: string) {
    || s == "reviews:write" || s == "jobs:read" || s == "tools:splunk" || s == "tools:adx"
    || s == "tools:confluence" || s == "tools:sigma" || s == "teams:admin" || s == "admin"
  }

  /** A record a configuration can give: a plain name, a verifier, and at least one scope. */
  predicate Expressible(r: Record) {
    && r.name != "" && !IsSpace(r.name[0]) && ':' !in r.name && ';' !in r.name
    && IsVerifier(r.verifier) && r.scopes != {} && forall s :: s in r.scopes ==> IsScope(s)
  }

  lemma GoodIsExpressible(r: Record)
    ensures GoodRecord(r, CONFIGURED) <==> Expressible(r)
  {
  }

  /** Every successful parse holds well-formed records with distinct names. */
  lemma ParseYieldsGoodRecords(raw: string)
    requires Parse(raw).Ok?
    ensures DistinctNames(Parse(raw).value) && forall r :: r in Parse(raw).value ==> GoodRecord(r, CONFIGURED)
  {
    forall p | p in Split(raw, ';') ensures ';' !in p {
      SplitRemovesSeparator(raw, ';', p);
    }
    StrippedAreListItems(Split(raw, ';'));
    ParsedItemsAreGood(Stripped(Split(raw, ';')), {}, CONFIGURED);
  }

  // ---------- The documented format is inverted ----------

  /** A record as it is written: its scopes in some order, possibly repeated. */
  datatype Written = Written(name: string, verifier: string, scopes: seq<string>) {
    function Meaning(): Record {
      Record(name, verifier, ToSet(scopes))
    }

    function Print(): string {
      name + ":" + verifier + ":" + Join(scopes, ',')
    }
  }

  function Meanings(written: seq<Written>): (r: seq<Record>)
    ensures |r| == |written| && forall i :: 0 <= i < |r| ==> r[i] == written[i].Meaning()
  {
    seq(|written|, i requires 0 <= i < |written| => written[i].Meaning())
  }

  function Prints(written: seq<Written>): (r: seq<string>)
    ensures |r| == |written| && forall i :: 0 <= i < |r| ==> r[i] == written[i].Print()
  {
    seq(|written|, i requires 0 <= i < |written| => written[i].Print())
  }

  predicate PlainScope(s: string) {
    s != "" && ',' !in s && ';' !in s && !IsSpace(s[0]) && !IsSpace(s[|s| - 1])
  }

  /** Valid verifiers hold no separator, known scopes neither separator nor outer space. */
  ghost predicate PlainPolicy(policy: Policy) {
    && (forall v :: policy.valid(v) ==> ':' !in v && ';' !in v)
    && (forall s :: s in policy.known ==> PlainScope(s))
  }

  lemma VerifiersArePlain(v: string)
    requires IsVerifier(v)
    ensures ':' !in v && ';' !in v
  {
    var salt, digest := v[|PREFIX|..|PREFIX| + 32], v[|PREFIX| + 33..];
    forall i | 0 <= i < |v| ensures v[i] != ':' && v[i] != ';' {
      if i < |PREFIX| {
        assert v[i] == v[..|PREFIX|][i] == PREFIX[i];
        assert PREFIX[i] in PREFIX && ':' !in PREFIX && ';' !in PREFIX;
      } else if i < |PREFIX| + 32 {
        assert v[i] == salt[i - |PREFIX|];
      } else if i > |PREFIX| + 32 {
        assert v[i] == digest[i - |PREFIX| - 33];
      }
    }
  }

  lemma KnownScopesArePlain(s: string)
    requires s in ALL_SCOPES
    ensures PlainScope(s)
  {
  }

  lemma ConfiguredPolicyIsPlain()
    ensures PlainPolicy(CONFIGURED)
  {
    forall s | s in CONFIGURED.known ensures PlainScope(s) {
      KnownScopesArePlain(s);
    }
    forall v | IsVerifier(v) ensures ':' !in v && ';' !in v {
      VerifiersArePlain(v);
    }
  }

  lemma {:induction false} StrippedKeepsTrimmed(parts: seq<string>)
    requires forall p :: p in parts ==> p != "" && !IsSpace(p[0]) && !IsSpace(p[|p| - 1])
    ensures Stripped(parts) == parts
  {
    if parts != [] {
      assert parts[0] in parts;
      StripLeavesTrimmed(parts[0]);
      StrippedKeepsTrimmed(parts[1..]);
    }
  }

  lemma {:induction false} JoinedScopes(scopes: seq<string>)
    requires scopes != [] && forall s :: s in scopes ==> PlainScope(s)
    ensures var text := Join(scopes, ',');
            text != "" && ';' !in text && !IsSpace(text[|text| - 1])
    ensures Stripped(Split(Join(scopes, ','), ',')) == scopes
  {
    SplitUndoesJoin(scopes, ',');
    StrippedKeepsTrimmed(scopes);
    assert scopes[0] in scopes;
    if |scopes| > 1 {
      JoinedScopes(scopes[1..]);
    }
  }

  /** What makes an item of the list survive splitting and stripping as it is. */
  predicate PlainItem(item: string) {
    item != "" && ';' !in item && !IsSpace(item[0]) && !IsSpace(item[|item| - 1])
  }

  lemma PrintedFields(w: Written)
    requires ':' !in w.name && ':' !in w.verifier
    ensures Cut(w.Print()) == Some((w.name, w.verifier, Join(w.scopes, ',')))
  {
    var item, tail := w.Print(), Join(w.scopes, ',');
    assert item == w.name + [':'] + (w.verifier + ":" + tail);
    BeforeFinds(w.name, ':', w.verifier + ":" + tail);
    var rest := item[|w.name| + 1..];
    assert rest == w.verifier + [':'] + tail;
    BeforeFinds(w.verifier, ':', tail);
    assert item[..|w.name|] == w.name;
    assert rest[..|w.verifier|] == w.verifier && rest[|w.verifier| + 1..] == tail;
  }

  lemma PrintedScopes(w: Written, policy: Policy)
    requires PlainPolicy(policy) && GoodRecord(w.Meaning(), policy)
    ensures w.scopes != [] && forall s :: s in w.scopes ==> PlainScope(s)
  {
    forall s | s in w.scopes ensures PlainScope(s) {
      assert s in w.Meaning().scopes;
    }
  }

  lemma PrintedRecordIsPlain(w: Written, policy: Policy)
    requires PlainPolicy(policy) && GoodRecord(w.Meaning(), policy)
    ensures PlainItem(w.Print())
  {
    PrintedScopes(w, policy);
    JoinedScopes(w.scopes);
    var item, tail := w.Print(), Join(w.scopes, ',');
    assert policy.valid(w.verifier);
    assert item[|item| - 1] == tail[|tail| - 1] && item[0] == w.name[0];
  }

  lemma PrintedRecordParses(w: Written, names: set<string>, policy: Policy)
    requires PlainPolicy(policy) && GoodRecord(w.Meaning(), policy) && w.name !in names
    ensures ParseRecord(w.Print(), names, policy) == Ok(w.Meaning())
  {
    PrintedScopes(w, policy);
    JoinedScopes(w.scopes);
    assert policy.valid(w.verifier);
    PrintedFields(w);
  }

  lemma FirstPrintParses(written: seq<Written>, names: set<string>, policy: Policy)
    requires PlainPolicy(policy) && written != []
    requires GoodRecord(written[0].Meaning(), policy) && written[0].name !in names
    ensures ParseItems(Prints(written), names, policy) ==
            Cons(written[0].Meaning(), ParseItems(Prints(written[1..]), names + {written[0].name}, policy))
  {
    PrintedRecordParses(written[0], names, policy);
    assert Prints(written)[1..] == Prints(written[1..]);
  }

  lemma LaterNamesDiffer(written: seq<Written>, v: Written)
    requires written != [] && DistinctNames(Meanings(written)) && v in written[1..]
    ensures v.name != written[0].name
  {
    var k :| 0 <= k < |written[1..]| && written[1..][k] == v;
    assert Meanings(written)[0].name != Meanings(written)[k + 1].name;
  }

  /** Well-formed records with distinct names, none of them taken. */
  ghost predicate Admissible(written: seq<Written>, names: set<string>, policy: Policy) {
    && DistinctNames(Meanings(written))
    && forall w :: w in written ==> GoodRecord(w.Meaning(), policy) && w.name !in names
  }

  lemma TailIsAdmissible(written: seq<Written>, names: set<string>, policy: Policy)
    requires written != [] && Admissible(written, names, policy)
    ensures Admissible(written[1..], names + {written[0].name}, policy)
  {
    assert Meanings(written[1..]) == Meanings(written)[1..];
    forall v | v in written[1..]
      ensures GoodRecord(v.Meaning(), policy) && v.name !in names + {written[0].name}
    {
      assert v in written;
      LaterNamesDiffer(written, v);
    }
  }

  lemma MeaningsSplit(written: seq<Written>)
    requires written != []
    ensures Meanings(written) == [written[0].Meaning()] + Meanings(written[1..])
  {
  }

  lemma {:induction false} PrintedItemsParse(written: seq<Written>, names: set<string>, policy: Policy)
    requires PlainPolicy(policy) && Admissible(written, names, policy)
    ensures ParseItems(Prints(written), names, policy) == Ok(Meanings(written))
  {
    if written != [] {
      assert written[0] in written;
      FirstPrintParses(written, names, policy);
      TailIsAdmissible(written, names, policy);
      PrintedItemsParse(written[1..], names + {written[0].name}, policy);
      MeaningsSplit(written);
    }
  }

  lemma NothingParses()
    ensures Parse("") == Ok([])
  {
    assert Split("", ';') == [""] && Strip("") == "";
    assert Stripped([""]) == [] + Stripped([""][1..]);
  }

  lemma PlainItemsSurvive(items: seq<string>)
    requires items != [] && forall p :: p in items ==> PlainItem(p)
    ensures Stripped(Split(Join(items, ';'), ';')) == items
  {
    SplitUndoesJoin(items, ';');
    StrippedKeepsTrimmed(items);
  }

  lemma PrintsArePlain(written: seq<Written>)
    requires forall w :: w in written ==> GoodRecord(w.Meaning(), CONFIGURED)
    ensures forall p :: p in Prints(written) ==> PlainItem(p)
  {
    hide PlainItem, GoodRecord;
    ConfiguredPolicyIsPlain();
    var items := Prints(written);
    forall p | p in items ensures PlainItem(p) {
      var i :| 0 <= i < |items| && items[i] == p;
      PrintedRecordIsPlain(written[i], CONFIGURED);
    }
  }

  /** Parsing inverts the documented format: any list of well-formed records with distinct
      names, written with its scopes in any order, is read back as those records. */
  lemma ParseInvertsPrint(written: seq<Written>)
    requires DistinctNames(Meanings(written))
    requires forall w :: w in written ==> GoodRecord(w.Meaning(), CONFIGURED)
    ensures Parse(Join(Prints(written), ';')) == Ok(Meanings(written))
  {
    hide GoodRecord, ParseItems, Split, Stripped, Join, PlainItem, DistinctNames;
    if written == [] {
      NothingParses();
      JoinNothing(';');
      assert Prints(written) == [] && Meanings(written) == [];
    } else {
      ConfiguredPolicyIsPlain();
      PrintsArePlain(written);
      PlainItemsSurvive(Prints(written));
      PrintedItemsParse(written, {}, CONFIGURED);
    }
  }

  lemma JoinNothing(c: char)
    ensures Join([], c) == ""
  {
  }

  ghost function Listing(s: set<string>): (r: seq<string>)
    ensures forall x :: x in r <==> x in s
  {
    if s == {} then [] else
      var x :| x in s;
      [x] + Listing(s - {x})
  }

  /** The lists a configuration can express are exactly those of well-formed records with
      distinct names. */
  lemma ExpressibleLists(records: seq<Record>)
    ensures (exists raw :: Parse(raw) == Ok(records)) <==>
            DistinctNames(records) && forall r :: r in records ==> Expressible(r)
  {
    hide Expressible, Parse;
    forall r | r in records ensures GoodRecord(r, CONFIGURED) <==> Expressible(r) {
      GoodIsExpressible(r);
    }
    if raw :| Parse(raw) == Ok(records) {
      ParseYieldsGoodRecords(raw);
    }
    if DistinctNames(records) && forall r :: r in records ==> GoodRecord(r, CONFIGURED) {
      var written := seq(|records|, i requires 0 <= i < |records| =>
        Written(records[i].name, records[i].verifier, Listing(records[i].scopes)));
      forall i | 0 <= i < |records| ensures written[i].Meaning() == records[i] {
        assert ToSet(Listing(records[i].scopes)) == records[i].scopes;
      }
      assert Meanings(written) == records;
      forall w | w in written ensures GoodRecord(w.Meaning(), CONFIGURED) {
        assert w.Meaning() in records;
      }
      ParseInvertsPrint(written);
    }
  }
}
