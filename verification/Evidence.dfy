/** Evidence collection: normalised items, their ids, and the material a finding key digests. */
module Evidence {
  import opened Basics
  import opened Json

  datatype Item = Item(externalId: string, kind: string, title: string, uri: string, payload: Json)

  /** What the runtime supplies: how it folds case and how it prints a value that is no string,
      which is never as the empty text. */
  datatype Interpreter = Interpreter(lower: string -> string, show: Json -> string)
  type Runtime = rt: Interpreter | forall v: Json :: rt.show(v) != "" witness Interpreter(s => s, v => "?")

  // ---------- Decimal numerals ----------

  function Digit(d: nat): (c: char)
    requires d < 10
  {
    "0123456789"[d]
  }

  function Decimal(n: nat): (s: string)
    ensures |s| > 0
  {
    if n < 10 then [Digit(n)] else Decimal(n / 10) + [Digit(n % 10)]
  }

  lemma DigitIsInjective(a: nat, b: nat)
    requires a < 10 && b < 10
    ensures Digit(a) == Digit(b) ==> a == b
  {
    assert Digit(a) as int == '0' as int + a && Digit(b) as int == '0' as int + b;
  }

  lemma {:induction false} DecimalIsInjective(a: nat, b: nat)
    requires Decimal(a) == Decimal(b)
    ensures a == b
  {
    var s, t := Decimal(a), Decimal(b);
    DigitIsInjective(a % 10, b % 10);
    assert s[|s| - 1] == Digit(a % 10) && t[|t| - 1] == Digit(b % 10);
    if a >= 10 && b >= 10 {
      assert s[..|s| - 1] == Decimal(a / 10) && t[..|t| - 1] == Decimal(b / 10);
      DecimalIsInjective(a / 10, b / 10);
    }
  }

  /** The number a numeral stands for. */
  function Value(s: string): int {
    if s == "" then 0 else 10 * Value(s[..|s| - 1]) + (s[|s| - 1] as int - '0' as int)
  }

  /** A number is printed in decimal digits without a leading zero, and reads back. */
  lemma {:induction false} DecimalReadsBack(n: nat)
    ensures Value(Decimal(n)) == n
    ensures forall i :: 0 <= i < |Decimal(n)| ==> '0' <= Decimal(n)[i] <= '9'
    ensures n > 0 ==> Decimal(n)[0] != '0'
  {
    var s := Decimal(n);
    DigitReads(n % 10);
    if n < 10 {
      assert s[..0] == "";
    } else {
      DecimalReadsBack(n / 10);
      assert s[..|s| - 1] == Decimal(n / 10) && s[|s| - 1] == Digit(n % 10);
    }
  }

  lemma DigitReads(d: nat)
    requires d < 10
    ensures Digit(d) as int == '0' as int + d
  {
  }

  // ---------- Normalisation ----------

  /** Python's truth value, as `or` and `if` test it. */
  predicate Truthy(v: Json) {
    match v
    case Null => false
    case Bool(b) => b
    case Num(t) => t !in {"0", "0.0", "-0.0"}
    case Str(s) => s != ""
    case Arr(s) => s != []
    case Obj(m) => m != map[]
  }

  function Text(v: Json, rt: Runtime): string {
    if v.Str? then v.s else rt.show(v)
  }

  /** `str(fields.get(key) or default)`. */
  function TextOr(fields: map<string, Json>, key: string, default: string, rt: Runtime): string {
    if key in fields && Truthy(fields[key]) then Text(fields[key], rt) else default
  }

  function EvidenceId(n: nat): string {
    "e" + Decimal(n)
  }

  function Fields(raw: Json): map<string, Json> {
    match raw
    case Obj(m) => m
    case _ => map["payload" := Obj(map["value" := raw])]
  }

  function NormalItem(index: nat, raw: Json, keys: set<string>, rt: Runtime): Item {
    var fields := Fields(raw);
    Item(EvidenceId(index + 1),
         Clip(TextOr(fields, "kind", "event", rt), 32),
         Clip(TextOr(fields, "title", "Evidence " + Decimal(index + 1), rt), 256),
         TextOr(fields, "uri", "", rt),
         Redact(if "payload" in fields then fields["payload"] else Obj(fields), keys, rt.lower))
  }

  /** The items of a list, each normalised at its own position. */
  function NormalItems(items: seq<Json>, keys: set<string>, rt: Runtime): (r: seq<Item>)
    ensures |r| == |items|
  {
    if items == [] then []
    else
      var last := |items| - 1;
      NormalItems(items[..last], keys, rt) + [NormalItem(last, items[last], keys, rt)]
  }

  method Normalise(items: seq<Json>, keys: set<string>, rt: Runtime) returns (evidence: seq<Item>)
    ensures evidence == NormalItems(items, keys, rt)
  {
    evidence := [];
    for index := 0 to |items|
      invariant evidence == NormalItems(items[..index], keys, rt)
    {
      assert items[..index + 1][..index] == items[..index];
      evidence := evidence + [NormalItem(index, items[index], keys, rt)];
    }
    assert items[..|items|] == items;
  }

  function Ids(evidence: seq<Item>): set<string> {
    set i | 0 <= i < |evidence| :: evidence[i].externalId
  }

  /** The ids `e1` to `en`. */
  predicate Numbered(evidence: seq<Item>) {
    forall i :: 0 <= i < |evidence| ==> evidence[i].externalId == EvidenceId(i + 1)
  }

  lemma {:induction false} NormalItemsAt(items: seq<Json>, keys: set<string>, rt: Runtime, i: nat)
    requires i < |items|
    ensures NormalItems(items, keys, rt)[i] == NormalItem(i, items[i], keys, rt)
  {
    if i < |items| - 1 {
      NormalItemsAt(items[..|items| - 1], keys, rt, i);
    }
  }

  lemma NormalItemsAreNumbered(items: seq<Json>, keys: set<string>, rt: Runtime)
    ensures Numbered(NormalItems(items, keys, rt))
  {
    var evidence := NormalItems(items, keys, rt);
    forall i | 0 <= i < |evidence| ensures evidence[i].externalId == EvidenceId(i + 1) {
      NormalItemsAt(items, keys, rt, i);
    }
  }

  /** Numbered evidence has pairwise distinct ids. */
  lemma NumberedIdsAreDistinct(evidence: seq<Item>, i: nat, j: nat)
    requires Numbered(evidence) && i < |evidence| && j < |evidence|
    ensures evidence[i].externalId == evidence[j].externalId <==> i == j
  {
    if evidence[i].externalId == evidence[j].externalId {
      assert EvidenceId(i + 1)[1..] == Decimal(i + 1) && EvidenceId(j + 1)[1..] == Decimal(j + 1);
      DecimalIsInjective(i + 1, j + 1);
    }
  }

  // ---------- Fetching ----------

  /** An exception that a round catches: its type and its message. */
  datatype Failure = Failure(kind: string, message: string)

  const UNSUPPLIED := Failure("PiError", "Pi referenced evidence IDs that were not supplied")
  const NO_EVIDENCE := Failure("RuntimeError", "Splunk is not configured and no evidence was supplied")

  datatype Fetched = Rows(evidence: seq<Item>) | FetchError(error: Failure)

  /** What a search brings back: result rows and the link to them, or an error that the round
      catches, such as a query the client refuses. An HTTP error is not caught: it ends the
      worker like any crash. */
  datatype SearchReply = Found(rows: seq<map<string, Json>>, url: string) | SearchFailed(error: Failure)

  function FirstTruthy(row: map<string, Json>, names: seq<string>): Json {
    if names == [] then Str("Detection event")
    else if names[0] in row && Truthy(row[names[0]]) then row[names[0]]
    else FirstTruthy(row, names[1..])
  }

  function WrapRow(row: map<string, Json>, url: string, rt: Runtime): Json {
    Obj(map["kind" := Str("splunk"),
            "title" := Str(Text(FirstTruthy(row, ["detection_name", "rule", "result_id"]), rt)),
            "uri" := Str(url),
            "payload" := Obj(row)])
  }

  function WrapRows(rows: seq<map<string, Json>>, url: string, rt: Runtime): (r: seq<Json>) {
    seq(|rows|, i requires 0 <= i < |rows| => WrapRow(rows[i], url, rt))
  }

  /** What a review is shown: the rows of a search when one is configured, otherwise the rows
      the request brought along, cut to the row limit before they are numbered. */
  function Collected(summary: map<string, Json>, rowLimit: nat, search: Option<SearchReply>,
                     keys: set<string>, rt: Runtime): Fetched {
    match search
    case None =>
      if "evidence" in summary && summary["evidence"].Arr?
      then Rows(NormalItems(Clip(summary["evidence"].items, rowLimit), keys, rt))
      else FetchError(NO_EVIDENCE)
    case Some(SearchFailed(error)) => FetchError(error)
    case Some(Found(rows, url)) => Rows(NormalItems(WrapRows(Clip(rows, rowLimit), url, rt), keys, rt))
  }

  /** On either path the evidence is numbered e1 to en for some n within the row limit. */
  lemma CollectedIsNumbered(summary: map<string, Json>, rowLimit: nat, search: Option<SearchReply>,
                            keys: set<string>, rt: Runtime)
    ensures var r := Collected(summary, rowLimit, search, keys, rt);
            r.Rows? ==> Numbered(r.evidence) && |r.evidence| <= rowLimit
  {
    match search
    case None =>
      if "evidence" in summary && summary["evidence"].Arr? {
        NormalItemsAreNumbered(Clip(summary["evidence"].items, rowLimit), keys, rt);
      }
    case Some(SearchFailed(_)) =>
    case Some(Found(rows, url)) => NormalItemsAreNumbered(WrapRows(Clip(rows, rowLimit), url, rt), keys, rt);
  }

  method Fetch(summary: map<string, Json>, rowLimit: nat, search: Option<SearchReply>,
               keys: set<string>, rt: Runtime) returns (r: Fetched)
    ensures r == Collected(summary, rowLimit, search, keys, rt)
    ensures r.Rows? ==> Numbered(r.evidence) && |r.evidence| <= rowLimit
  {
    CollectedIsNumbered(summary, rowLimit, search, keys, rt);
    match search
    case None =>
      if "evidence" in summary && summary["evidence"].Arr? {
        var evidence := Normalise(Clip(summary["evidence"].items, rowLimit), keys, rt);
        r := Rows(evidence);
      } else {
        r := FetchError(NO_EVIDENCE);
      }
    case Some(SearchFailed(error)) =>
      r := FetchError(error);
    case Some(Found(rows, url)) =>
      var evidence := Normalise(WrapRows(Clip(rows, rowLimit), url, rt), keys, rt);
      r := Rows(evidence);
  }

  // ---------- What the model is shown ----------

  /** The text a normalised item has for a key of a raw one: a string as it is, another value as
      the runtime prints it, and the default for a missing, null, false, zero or empty one. */
  ghost predicate Says(text: string, raw: Json, key: string, default: string, rt: Runtime) {
    if !raw.Obj? || key !in raw.fields then text == default
    else
      match raw.fields[key]
      case Str(s) => text == if s == "" then default else s
      case Null => text == default
      case Bool(b) => text == if b then rt.show(raw.fields[key]) else default
      case Num(n) => text == if n == "0" || n == "0.0" || n == "-0.0" then default else rt.show(raw.fields[key])
      case Arr(items) => text == if |items| == 0 then default else rt.show(raw.fields[key])
      case Obj(fields) => text == if |fields| == 0 then default else rt.show(raw.fields[key])
  }

  /** The payload of a raw item: its own, or the whole of it. */
  function RawPayload(raw: Json): Json {
    if !raw.Obj? then Obj(map["value" := raw])
    else if "payload" in raw.fields then raw.fields["payload"]
    else raw
  }

  /** The item shown for the raw one at a position: its id, its texts within 32 and 256 characters,
      and its payload masked at every listed key and nowhere else. */
  ghost predicate ShownAs(item: Item, i: nat, raw: Json, keys: set<string>, rt: Runtime) {
    && item.externalId == "e" + Decimal(i + 1)
    && (exists kind :: Says(kind, raw, "kind", "event", rt) && item.kind == Clip(kind, 32))
    && (exists title :: Says(title, raw, "title", "Evidence " + Decimal(i + 1), rt) && item.title == Clip(title, 256))
    && Says(item.uri, raw, "uri", "", rt)
    && Masks(item.payload, RawPayload(raw), keys, rt.lower)
  }

  /** The title of a search row: the first of three fields that has a value. */
  function RowTitle(row: map<string, Json>, rt: Runtime): string {
    if "detection_name" in row && Truthy(row["detection_name"]) then Text(row["detection_name"], rt)
    else if "rule" in row && Truthy(row["rule"]) then Text(row["rule"], rt)
    else if "result_id" in row && Truthy(row["result_id"]) then Text(row["result_id"], rt)
    else "Detection event"
  }

  lemma TextIsSaid(raw: map<string, Json>, key: string, default: string, rt: Runtime)
    ensures Says(TextOr(raw, key, default, rt), Obj(raw), key, default, rt)
  {
    if key in raw {
      match raw[key]
      case Arr(items) => assert items == [] <==> |items| == 0;
      case Obj(fields) => assert fields == map[] <==> |fields| == 0;
      case _ =>
    }
  }

  lemma NormalItemIsShown(i: nat, raw: Json, keys: set<string>, rt: Runtime)
    ensures ShownAs(NormalItem(i, raw, keys, rt), i, raw, keys, rt)
  {
    hide Redact, Says, TextOr;
    var fields := Fields(raw);
    RedactionMasks(RawPayload(raw), keys, rt.lower);
    TextIsSaid(fields, "kind", "event", rt);
    TextIsSaid(fields, "title", "Evidence " + Decimal(i + 1), rt);
    TextIsSaid(fields, "uri", "", rt);
    if !raw.Obj? {
      NoTextSaid(raw, "kind", "event", rt);
      NoTextSaid(raw, "title", "Evidence " + Decimal(i + 1), rt);
      NoTextSaid(raw, "uri", "", rt);
    }
  }

  lemma NoTextSaid(raw: Json, key: string, default: string, rt: Runtime)
    requires !raw.Obj? && key != "payload"
    ensures TextOr(Fields(raw), key, default, rt) == default && Says(default, raw, key, default, rt)
  {
  }

  /** The evidence of a review without a search is the first rows the request brought along, as
      many as the limit allows, each shown at its own position. */
  lemma SuppliedEvidenceIsShown(
      summary: map<string, Json>, rowLimit: nat, items: seq<Json>, keys: set<string>, rt: Runtime)
    requires "evidence" in summary && summary["evidence"] == Arr(items)
    ensures var r := Collected(summary, rowLimit, None, keys, rt);
            && r.Rows? && |r.evidence| == Min(rowLimit, |items|)
            && forall i :: 0 <= i < |r.evidence| ==> ShownAs(r.evidence[i], i, items[i], keys, rt)
  {
    hide ShownAs, NormalItem;
    var r := Collected(summary, rowLimit, None, keys, rt);
    forall i | 0 <= i < |r.evidence| ensures ShownAs(r.evidence[i], i, items[i], keys, rt) {
      NormalItemsAt(Clip(items, rowLimit), keys, rt, i);
      NormalItemIsShown(i, items[i], keys, rt);
    }
  }

  /** The item shown for a row of a search: the row masked at every listed key and nowhere else,
      its title, and the link to the search. */
  ghost predicate RowShownAs(item: Item, i: nat, row: map<string, Json>, url: string, keys: set<string>, rt: Runtime) {
    && item.externalId == "e" + Decimal(i + 1) && item.kind == "splunk" && item.uri == url
    && item.title == Clip(RowTitle(row, rt), 256)
    && Masks(item.payload, Obj(row), keys, rt.lower)
  }

  lemma WrappedRowIsShown(i: nat, row: map<string, Json>, url: string, keys: set<string>, rt: Runtime)
    ensures RowShownAs(NormalItem(i, WrapRow(row, url, rt), keys, rt), i, row, url, keys, rt)
  {
    hide Redact;
    RedactionMasks(Obj(row), keys, rt.lower);
    TitleIsFirst(row, rt);
  }

  lemma TitleIsFirst(row: map<string, Json>, rt: Runtime)
    ensures Text(FirstTruthy(row, ["detection_name", "rule", "result_id"]), rt) == RowTitle(row, rt) != ""
  {
    var names, two, one := ["detection_name", "rule", "result_id"], ["rule", "result_id"], ["result_id"];
    assert names[1..] == two && two[1..] == one && one[1..] == [];
    assert FirstTruthy(row, one) ==
           if "result_id" in row && Truthy(row["result_id"]) then row["result_id"] else Str("Detection event");
    assert FirstTruthy(row, two) == if "rule" in row && Truthy(row["rule"]) then row["rule"] else FirstTruthy(row, one);
    forall name | name in names && name in row && Truthy(row[name]) ensures Text(row[name], rt) != "" {
      TruthyHasText(row[name], rt);
    }
    assert "detection_name" in names && "rule" in names && "result_id" in names;
    assert |"Detection event"| == 15 && RowTitle(row, rt) != "";
  }

  lemma TruthyHasText(v: Json, rt: Runtime)
    requires Truthy(v)
    ensures Text(v, rt) != ""
  {
  }

  /** The evidence of a search is its first rows, as many as the limit allows, in its order. */
  lemma SearchEvidenceIsShown(
      summary: map<string, Json>, rowLimit: nat, rows: seq<map<string, Json>>, url: string, keys: set<string>,
      rt: Runtime)
    ensures var r := Collected(summary, rowLimit, Some(Found(rows, url)), keys, rt);
            && r.Rows? && |r.evidence| == Min(rowLimit, |rows|)
            && forall i :: 0 <= i < |r.evidence| ==> RowShownAs(r.evidence[i], i, rows[i], url, keys, rt)
  {
    hide RowShownAs, NormalItem, WrapRow;
    var r := Collected(summary, rowLimit, Some(Found(rows, url)), keys, rt);
    forall i | 0 <= i < |r.evidence| ensures RowShownAs(r.evidence[i], i, rows[i], url, keys, rt) {
      NormalItemsAt(WrapRows(Clip(rows, rowLimit), url, rt), keys, rt, i);
      WrappedRowIsShown(i, rows[i], url, keys, rt);
    }
  }

  /** Without either there is none, and the round has an error to report. */
  lemma NoEvidenceIsAnError(
      summary: map<string, Json>, rowLimit: nat, search: Option<SearchReply>, keys: set<string>, rt: Runtime)
    ensures var r := Collected(summary, rowLimit, search, keys, rt);
            && (search.None? && !("evidence" in summary && summary["evidence"].Arr?) ==>
                  r == FetchError(Failure("RuntimeError", "Splunk is not configured and no evidence was supplied")))
            && (search.Some? && search.value.SearchFailed? ==> r == FetchError(search.value.error))
            && (r.FetchError? ==> search.None? || search.value.SearchFailed?)
  {
  }

  /** An item whose kind and title a stored row takes over as they are. */
  predicate Presentable(item: Item) {
    0 < |item.kind| <= 32 && 0 < |item.title| <= 256
  }

  lemma NormalItemIsPresentable(i: nat, raw: Json, keys: set<string>, rt: Runtime)
    ensures Presentable(NormalItem(i, raw, keys, rt))
  {
    hide Redact, Decimal, EvidenceId;
    var fields := Fields(raw);
    if "kind" in fields && Truthy(fields["kind"]) {
      TruthyHasText(fields["kind"], rt);
    }
    if "title" in fields && Truthy(fields["title"]) {
      TruthyHasText(fields["title"], rt);
    }
    assert |"event"| == 5 && |"Evidence " + Decimal(i + 1)| >= 9;
  }

  lemma CollectedIsPresentable(
      summary: map<string, Json>, rowLimit: nat, search: Option<SearchReply>, keys: set<string>, rt: Runtime)
    ensures var r := Collected(summary, rowLimit, search, keys, rt);
            r.Rows? ==> forall i :: 0 <= i < |r.evidence| ==> Presentable(r.evidence[i])
  {
    hide NormalItem, WrapRow, Presentable;
    var r := Collected(summary, rowLimit, search, keys, rt);
    if r.Rows? {
      var raw := if search.None? then Clip(summary["evidence"].items, rowLimit)
                 else WrapRows(Clip(search.value.rows, rowLimit), search.value.url, rt);
      forall i | 0 <= i < |r.evidence| ensures Presentable(r.evidence[i]) {
        NormalItemsAt(raw, keys, rt, i);
        NormalItemIsPresentable(i, raw[i], keys, rt);
      }
    }
  }

  // ---------- Finding keys ----------

  const STABLE_FIELDS: set<string> := {
    "detection_id", "rule_id", "rule", "query_id", "indicator", "indicator_value",
    "entity", "host", "device", "user", "account", "file_hash" }

  /** A field that has a value: neither missing, nor null, nor the empty string. */
  function Present(payload: Json, field: string): Option<Json> {
    if payload.Obj? && field in payload.fields && payload.fields[field] !in {Null, Str("")}
    then Some(payload.fields[field])
    else None
  }

  function Identity(item: Item): map<string, Json> {
    var stable := map f | f in STABLE_FIELDS && Present(item.payload, f).Some? :: Present(item.payload, f).value;
    if stable != map[] then stable else map["title" := Str(item.title), "kind" := Str(item.kind)]
  }

  datatype Material = Material(selectorType: string, source: string, identities: seq<map<string, Json>>)

  /** What a finding key is the digest of. */
  method FindingMaterial(selectorType: string, source: string, evidence: seq<Item>) returns (m: Material)
    ensures m == MaterialOf(selectorType, source, evidence)
    ensures m.selectorType == selectorType && m.source == source && |m.identities| == |evidence|
  {
    var identities := [];
    for i := 0 to |evidence|
      invariant |identities| == i
      invariant forall j :: 0 <= j < i ==> identities[j] == Identity(evidence[j])
    {
      identities := identities + [Identity(evidence[i])];
    }
    m := Material(selectorType, source, identities);
  }

  function MaterialOf(selectorType: string, source: string, evidence: seq<Item>): Material {
    Material(selectorType, source, seq(|evidence|, i requires 0 <= i < |evidence| => Identity(evidence[i])))
  }

  /** An identity holds the named fields that have a value, or title and kind where none has. */
  lemma IdentityHolds(item: Item, key: string)
    ensures var fields := if item.payload.Obj? then item.payload.fields else map[];
            var named := NamesIdentity(key) && key in fields && fields[key] != Null && fields[key] != Str("");
            if HasStableField(item) then
              (key in Identity(item) <==> named) && (named ==> Identity(item)[key] == fields[key])
            else
              && (key in Identity(item) <==> key == "title" || key == "kind")
              && Identity(item)["title"] == Str(item.title) && Identity(item)["kind"] == Str(item.kind)
  {
    var stable := map f | f in STABLE_FIELDS && Present(item.payload, f).Some? :: Present(item.payload, f).value;
    assert NamesIdentity(key) <==> key in STABLE_FIELDS;
    assert HasStableField(item) <==> stable != map[] by {
      if f :| f in STABLE_FIELDS && Present(item.payload, f).Some? { assert f in stable; }
    }
  }

  predicate HasStableField(item: Item) {
    exists f :: f in STABLE_FIELDS && Present(item.payload, f).Some?
  }

  /** Two items identify the same thing: they agree on every stable field that has a value, or
      neither has one and they agree on title and kind. */
  predicate SameIdentity(a: Item, b: Item) {
    if HasStableField(a) || HasStableField(b)
    then forall f :: f in STABLE_FIELDS ==> Present(a.payload, f) == Present(b.payload, f)
    else a.title == b.title && a.kind == b.kind
  }

  lemma IdentityDecides(a: Item, b: Item)
    ensures Identity(a) == Identity(b) <==> SameIdentity(a, b)
  {
    var sa := map f | f in STABLE_FIELDS && Present(a.payload, f).Some? :: Present(a.payload, f).value;
    var sb := map f | f in STABLE_FIELDS && Present(b.payload, f).Some? :: Present(b.payload, f).value;
    assert HasStableField(a) <==> sa != map[] by {
      if f :| f in STABLE_FIELDS && Present(a.payload, f).Some? { assert f in sa; }
    }
    assert HasStableField(b) <==> sb != map[] by {
      if f :| f in STABLE_FIELDS && Present(b.payload, f).Some? { assert f in sb; }
    }
    var fa, fb := map["title" := Str(a.title), "kind" := Str(a.kind)],
                  map["title" := Str(b.title), "kind" := Str(b.kind)];
    assert "title" in fa && "title" in fb && "title" !in sa && "title" !in sb;
    if sa == sb {
      forall f | f in STABLE_FIELDS ensures Present(a.payload, f) == Present(b.payload, f) {
        assert f in sa <==> f in sb;
      }
    }
    if fa == fb {
      assert fa["title"] == fb["title"] && fa["kind"] == fb["kind"];
    }
    if SameIdentity(a, b) && sa != map[] {
      assert sa == sb;
    }
  }

  /** Two reviews have the same finding-key material exactly when selector type and source
      agree and their evidence identifies the same things, position by position. */
  lemma MaterialsAgreeExactly(t1: string, s1: string, e1: seq<Item>, t2: string, s2: string, e2: seq<Item>)
    ensures MaterialOf(t1, s1, e1) == MaterialOf(t2, s2, e2) <==>
            t1 == t2 && s1 == s2 && |e1| == |e2| && forall i :: 0 <= i < |e1| ==> SameIdentity(e1[i], e2[i])
  {
    var m1, m2 := MaterialOf(t1, s1, e1), MaterialOf(t2, s2, e2);
    forall i | 0 <= i < |e1| && i < |e2|
      ensures m1.identities[i] == m2.identities[i] <==> SameIdentity(e1[i], e2[i])
    {
      IdentityDecides(e1[i], e2[i]);
    }
    if m1 == m2 {
      assert |e1| == |m1.identities| == |m2.identities| == |e2|;
    }
    if |e1| == |e2| && forall i :: 0 <= i < |e1| ==> SameIdentity(e1[i], e2[i]) {
      assert m1.identities == m2.identities;
    }
  }

  /** The names that identify a detection, an indicator or an entity. */
  predicate NamesIdentity(field: string) {
    || field == "detection_id" || field == "rule_id" || field == "rule" || field == "query_id"
    || field == "indicator" || field == "indicator_value" || field == "entity" || field == "host"
    || field == "device" || field == "user" || field == "account" || field == "file_hash"
  }

  /** Giving any of those fields another value makes another material. */
  lemma IdentityFieldsDecide(t: string, s: string, e: seq<Item>, i: nat, field: string, value: Json)
    requires i < |e| && e[i].payload.Obj? && NamesIdentity(field) && value != Null && value != Str("")
    requires field in e[i].payload.fields ==> e[i].payload.fields[field] != value
    ensures var changed := e[i].(payload := Obj(e[i].payload.fields[field := value]));
            MaterialOf(t, s, e[i := changed]) != MaterialOf(t, s, e)
  {
    var changed := e[i].(payload := Obj(e[i].payload.fields[field := value]));
    var e' := e[i := changed];
    assert field in STABLE_FIELDS && Present(changed.payload, field) == Some(value) != Present(e[i].payload, field);
    assert HasStableField(changed) && !SameIdentity(e'[i], e[i]);
    MaterialsAgreeExactly(t, s, e', t, s, e);
  }

  /** A payload field of any other name, such as a run time, never changes the material of a
      review. */
  lemma OtherFieldsAreIrrelevant(t: string, s: string, e: seq<Item>, i: nat, field: string, value: Json)
    requires i < |e| && e[i].payload.Obj? && !NamesIdentity(field)
    ensures var changed := e[i].(payload := Obj(e[i].payload.fields[field := value]));
            MaterialOf(t, s, e[i := changed]) == MaterialOf(t, s, e)
  {
    var changed := e[i].(payload := Obj(e[i].payload.fields[field := value]));
    var e' := e[i := changed];
    assert field !in STABLE_FIELDS;
    forall j | 0 <= j < |e| ensures SameIdentity(e'[j], e[j]) {
      forall f | f in STABLE_FIELDS ensures Present(e'[j].payload, f) == Present(e[j].payload, f) {
        assert f != field;
      }
    }
    MaterialsAgreeExactly(t, s, e', t, s, e);
  }
}
