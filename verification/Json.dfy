/** JSON values and the redaction every stored summary, audit payload and evidence payload
    passes through. */
module Json {
  import opened Basics

  /** A number is kept as its printed text, so that `1`, `1.0` and `true` stay distinct. */
  datatype Json =
    | Null
    | Bool(b: bool)
    | Num(text: string)
    | Str(s: string)
    | Arr(items: seq<Json>)
    | Obj(fields: map<string, Json>)

  const REDACTED := Str("[REDACTED]")

  /** Replaces the value of every listed key. `lower` is the case folding of the runtime. */
  function Redact(v: Json, keys: set<string>, lower: string -> string): Json {
    match v
    case Obj(m) => Obj(map k | k in m :: if lower(k) in keys then REDACTED else Redact(m[k], keys, lower))
    case Arr(s) => Arr(seq(|s|, i requires 0 <= i < |s| => Redact(s[i], keys, lower)))
    case _ => v
  }

  // ---------- Redactions compose ----------

  lemma {:induction false} RedactionsCompose(v: Json, k1: set<string>, k2: set<string>, lower: string -> string)
    ensures Redact(Redact(v, k1, lower), k2, lower) == Redact(v, k1 + k2, lower)
  {
    match v
    case Obj(m) =>
      forall k | k in m
        ensures Redact(Redact(m[k], k1, lower), k2, lower) == Redact(m[k], k1 + k2, lower)
      {
        RedactionsCompose(m[k], k1, k2, lower);
      }
    case Arr(s) =>
      forall i | 0 <= i < |s|
        ensures Redact(Redact(s[i], k1, lower), k2, lower) == Redact(s[i], k1 + k2, lower)
      {
        RedactionsCompose(s[i], k1, k2, lower);
      }
    case _ =>
  }

  /** Redacting twice, in either order, with either key set, is redacting once with both. */
  lemma RedactionIsIdempotentAndOrderFree(v: Json, k1: set<string>, k2: set<string>, lower: string -> string)
    ensures Redact(Redact(v, k1, lower), k1, lower) == Redact(v, k1, lower)
    ensures Redact(Redact(v, k1, lower), k2, lower) == Redact(Redact(v, k2, lower), k1, lower)
  {
    RedactionsCompose(v, k1, k1, lower);
    RedactionsCompose(v, k1, k2, lower);
    RedactionsCompose(v, k2, k1, lower);
    assert k1 + k1 == k1 && k1 + k2 == k2 + k1;
  }

  // ---------- What a reader finds at any place of a redacted value ----------

  datatype Step = Key(name: string) | Index(i: nat)

  /** The value reached by a path of keys and list indices, if there is one. */
  function At(v: Json, path: seq<Step>): Option<Json> {
    if path == [] then Some(v)
    else
      match (v, path[0])
      case (Obj(m), Key(k)) => if k in m then At(m[k], path[1..]) else None
      case (Arr(s), Index(i)) => if i < |s| then At(s[i], path[1..]) else None
      case _ => None
  }

  predicate Listed(step: Step, keys: set<string>, lower: string -> string) {
    step.Key? && lower(step.name) in keys
  }

  /** The same kind of value: the same keys, the same length, or the same scalar. */
  predicate SameShape(x: Json, y: Json) {
    match x
    case Obj(m) => y.Obj? && y.fields.Keys == m.Keys
    case Arr(s) => y.Arr? && |y.items| == |s|
    case _ => y == x
  }

  /** Where no step of the path is a listed key, the redacted value has a place exactly where
      the original has one; what it holds there is the redaction of what the original holds,
      with its keys, its length or its scalar value kept. */
  lemma {:induction false} RedactionKeepsUnlistedPlaces(
      v: Json, path: seq<Step>, keys: set<string>, lower: string -> string)
    requires forall s | s in path :: !Listed(s, keys, lower)
    ensures At(Redact(v, keys, lower), path).Some? <==> At(v, path).Some?
    ensures At(v, path).Some? ==>
              var x, y := At(v, path).value, At(Redact(v, keys, lower), path).value;
              y == Redact(x, keys, lower) && SameShape(x, y)
  {
    if path != [] {
      assert !Listed(path[0], keys, lower);
      match (v, path[0])
      case (Obj(m), Key(k)) =>
        if k in m { RedactionKeepsUnlistedPlaces(m[k], path[1..], keys, lower); }
      case (Arr(s), Index(i)) =>
        if i < |s| { RedactionKeepsUnlistedPlaces(s[i], path[1..], keys, lower); }
      case _ =>
    }
  }

  /** At the first listed key of a path the redacted value holds the mask, exactly where the
      original holds anything, and nothing can be reached beyond it. */
  lemma {:induction false} RedactionMasksListedPlaces(
      v: Json, before: seq<Step>, key: Step, after: seq<Step>, keys: set<string>, lower: string -> string)
    requires Listed(key, keys, lower)
    requires forall s | s in before :: !Listed(s, keys, lower)
    ensures At(Redact(v, keys, lower), before + [key] + after) ==
            if At(v, before + [key]).Some? && after == [] then Some(Str("[REDACTED]")) else None
  {
    var path := before + [key] + after;
    if before == [] {
      assert path == [key] + after && path[1..] == after;
      assert [key][1..] == [];
    } else {
      assert path[0] == before[0] && path[1..] == before[1..] + [key] + after;
      assert (before + [key])[1..] == before[1..] + [key];
      assert !Listed(before[0], keys, lower);
      match (v, path[0])
      case (Obj(m), Key(k)) =>
        if k in m { RedactionMasksListedPlaces(m[k], before[1..], key, after, keys, lower); }
      case (Arr(s), Index(i)) =>
        if i < |s| { RedactionMasksListedPlaces(s[i], before[1..], key, after, keys, lower); }
      case _ =>
    }
  }

  // ---------- Redaction by what a reader finds ----------

  ghost predicate Unlisted(path: seq<Step>, keys: set<string>, lower: string -> string) {
    forall s | s in path :: !Listed(s, keys, lower)
  }

  /** What may be shown of a raw value, by its places alone: at the first listed key of any path
      the mask, where the raw value has anything, and nothing beyond it; along any other path
      the same keys, length or scalar. */
  ghost predicate Masks(shown: Json, raw: Json, keys: set<string>, lower: string -> string) {
    && (forall before: seq<Step>, key: Step, after: seq<Step> ::
          Listed(key, keys, lower) && Unlisted(before, keys, lower) ==>
            At(shown, before + [key] + after) ==
            if At(raw, before + [key]).Some? && after == [] then Some(Str("[REDACTED]")) else None)
    && (forall path: seq<Step> :: Unlisted(path, keys, lower) ==> SamePlace(At(raw, path), At(shown, path)))
  }

  predicate SamePlace(x: Option<Json>, y: Option<Json>) {
    if x.Some? then y.Some? && SameShape(x.value, y.value) else y.None?
  }

  lemma RedactionMasks(v: Json, keys: set<string>, lower: string -> string)
    ensures Masks(Redact(v, keys, lower), v, keys, lower)
  {
    var shown := Redact(v, keys, lower);
    forall before: seq<Step>, key: Step, after: seq<Step> |
        Listed(key, keys, lower) && Unlisted(before, keys, lower)
      ensures At(shown, before + [key] + after) ==
              if At(v, before + [key]).Some? && after == [] then Some(Str("[REDACTED]")) else None
    {
      RedactionMasksListedPlaces(v, before, key, after, keys, lower);
    }
    forall path: seq<Step> | Unlisted(path, keys, lower) ensures SamePlace(At(v, path), At(shown, path)) {
      RedactionKeepsUnlistedPlaces(v, path, keys, lower);
    }
  }

  lemma AtStep(v: Json, step: Step, path: seq<Step>)
    ensures At(v, [step] + path) == if At(v, [step]).Some? then At(At(v, [step]).value, path) else None
  {
    assert ([step] + path)[1..] == path && [step][1..] == [];
  }

  lemma MasksBelow(shown: Json, raw: Json, step: Step, keys: set<string>, lower: string -> string)
    requires Masks(shown, raw, keys, lower) && !Listed(step, keys, lower)
    requires At(raw, [step]).Some? && At(shown, [step]).Some?
    ensures Masks(At(shown, [step]).value, At(raw, [step]).value, keys, lower)
  {
    var x, v := At(shown, [step]).value, At(raw, [step]).value;
    forall before: seq<Step>, key: Step, after: seq<Step> |
        Listed(key, keys, lower) && Unlisted(before, keys, lower)
      ensures At(x, before + [key] + after) ==
              if At(v, before + [key]).Some? && after == [] then Some(Str("[REDACTED]")) else None
    {
      var longer := [step] + before;
      assert Unlisted(longer, keys, lower);
      assert longer + [key] + after == [step] + (before + [key] + after) && longer + [key] == [step] + (before + [key]);
      AtStep(shown, step, before + [key] + after);
      AtStep(raw, step, before + [key]);
    }
    forall path: seq<Step> | Unlisted(path, keys, lower) ensures SamePlace(At(v, path), At(x, path)) {
      assert Unlisted([step] + path, keys, lower);
      AtStep(shown, step, path);
      AtStep(raw, step, path);
    }
  }

  /** Those places decide: a value may be shown of a raw one exactly when it is its redaction. */
  lemma {:induction false} MasksExactly(shown: Json, raw: Json, keys: set<string>, lower: string -> string)
    ensures Masks(shown, raw, keys, lower) <==> shown == Redact(raw, keys, lower)
    decreases raw
  {
    RedactionMasks(raw, keys, lower);
    if Masks(shown, raw, keys, lower) {
      assert Unlisted([], keys, lower) && At(raw, []) == Some(raw) && At(shown, []) == Some(shown);
      match raw
      case Obj(m) =>
        forall k | k in m ensures shown.fields[k] == if lower(k) in keys then REDACTED else Redact(m[k], keys, lower) {
          MaskedField(shown, m, k, keys, lower);
          if lower(k) !in keys {
            MasksExactly(shown.fields[k], m[k], keys, lower);
          }
        }
      case Arr(s) =>
        forall i | 0 <= i < |s| ensures shown.items[i] == Redact(s[i], keys, lower) {
          StepIn(raw, Index(i));
          StepIn(shown, Index(i));
          MasksBelow(shown, raw, Index(i), keys, lower);
          MasksExactly(shown.items[i], s[i], keys, lower);
        }
      case _ =>
    }
  }

  lemma StepIn(v: Json, step: Step)
    ensures v.Obj? && step.Key? && step.name in v.fields ==> At(v, [step]) == Some(v.fields[step.name])
    ensures v.Arr? && step.Index? && step.i < |v.items| ==> At(v, [step]) == Some(v.items[step.i])
  {
    assert [step][1..] == [];
  }

  lemma MaskedField(shown: Json, m: map<string, Json>, k: string, keys: set<string>, lower: string -> string)
    requires Masks(shown, Obj(m), keys, lower) && k in m && shown.Obj? && shown.fields.Keys == m.Keys
    ensures if lower(k) in keys then shown.fields[k] == Str("[REDACTED]")
            else Masks(shown.fields[k], m[k], keys, lower)
  {
    var step := Key(k);
    StepIn(Obj(m), step);
    StepIn(shown, step);
    if lower(k) in keys {
      assert Listed(step, keys, lower) && Unlisted([], keys, lower);
      assert [] + [step] + [] == [step] && [] + [step] == [step];
      assert At(shown, [] + [step] + []) == Some(Str("[REDACTED]"));
    } else {
      MasksBelow(shown, Obj(m), step, keys, lower);
    }
  }
}
