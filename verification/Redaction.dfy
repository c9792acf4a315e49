/** app/utils/redact.py: masking credential-shaped keys at any depth of a JSON value. */
module Redaction {
  import opened Common

  /** A dictionary is its fields in insertion order. */
  datatype Json =
    | Null
    | Bool(bool)
    | Number(real)
    | Text(string)
    | List(items: seq<Json>)
    | Dict(fields: seq<Field>)

  datatype Field = Field(key: string, value: Json)

  const MASK: Json := Text("***")

  const SENSITIVE_KEYS: set<string> := {
    "password", "new_password", "confirm_password", "hashed_password", "access_token", "refresh_token", "otp"}

  function RedactValue(value: Json): Json
    decreases value
  {
    match value
    case Dict(fields) =>
      Dict(seq(|fields|, i requires 0 <= i < |fields| =>
        Field(fields[i].key, if fields[i].key in SENSITIVE_KEYS then MASK else RedactValue(fields[i].value))))
    case List(items) => List(seq(|items|, i requires 0 <= i < |items| => RedactValue(items[i])))
    case _ => value
  }

  function RedactDict(fields: seq<Field>): seq<Field> { RedactValue(Dict(fields)).fields }

  function Redact(data: Option<seq<Field>>): Option<seq<Field>> {
    match data
    case None => None
    case Some(fields) => Some(RedactDict(fields))
  }

  // ---- Masked everywhere ----

  /** Every sensitive key, at any depth, holds the mask. */
  ghost predicate FullyMasked(value: Json)
    decreases value
  {
    match value
    case Dict(fields) => forall i :: 0 <= i < |fields| ==>
      if fields[i].key in SENSITIVE_KEYS then fields[i].value == MASK else FullyMasked(fields[i].value)
    case List(items) => forall i :: 0 <= i < |items| ==> FullyMasked(items[i])
    case _ => true
  }

  lemma {:induction false} RedactMasks(value: Json)
    ensures FullyMasked(RedactValue(value))
    decreases value
  {
    match value
    case Dict(fields) =>
      forall i | 0 <= i < |fields| && fields[i].key !in SENSITIVE_KEYS
        ensures FullyMasked(RedactValue(fields[i].value))
      {
        RedactMasks(fields[i].value);
      }
    case List(items) =>
      forall i | 0 <= i < |items| ensures FullyMasked(RedactValue(items[i])) {
        RedactMasks(items[i]);
      }
    case _ =>
  }

  /** Redaction changes nothing exactly when nothing is left to mask. */
  lemma {:induction false} FixedIffMasked(value: Json)
    ensures RedactValue(value) == value <==> FullyMasked(value)
    decreases value
  {
    match value
    case Dict(fields) =>
      forall i | 0 <= i < |fields|
        ensures RedactValue(fields[i].value) == fields[i].value <==> FullyMasked(fields[i].value)
      {
        FixedIffMasked(fields[i].value);
      }
      var after := RedactValue(value).fields;
      if FullyMasked(value) {
        assert forall i :: 0 <= i < |fields| ==> after[i] == fields[i];
        assert after == fields;
      }
      if RedactValue(value) == value {
        assert forall i :: 0 <= i < |fields| ==> after[i] == fields[i];
      }
    case List(items) =>
      forall i | 0 <= i < |items| ensures RedactValue(items[i]) == items[i] <==> FullyMasked(items[i]) {
        FixedIffMasked(items[i]);
      }
      var after := RedactValue(value).items;
      if FullyMasked(value) {
        assert after == items;
      }
      if RedactValue(value) == value {
        assert forall i :: 0 <= i < |items| ==> after[i] == items[i];
      }
    case _ =>
  }

  lemma RedactTwice(data: Option<seq<Field>>)
    ensures Redact(Redact(data)) == Redact(data)
  {
    if data.Some? {
      RedactMasks(Dict(data.value));
      FixedIffMasked(RedactValue(Dict(data.value)));
    }
  }

  // ---- What stays, place by place ----

  /** A place in a JSON value: the positions of fields and items on the way down. */
  type Path = seq<nat>

  function At(value: Json, path: Path): Option<Json>
    decreases |path|
  {
    if path == [] then Some(value)
    else if value.Dict? && path[0] < |value.fields| then At(value.fields[path[0]].value, path[1..])
    else if value.List? && path[0] < |value.items| then At(value.items[path[0]], path[1..])
    else None
  }

  /** No field on the way down has a sensitive key. */
  predicate Clear(value: Json, path: Path)
    decreases |path|
  {
    if path == [] then true
    else if value.Dict? && path[0] < |value.fields| then
      value.fields[path[0]].key !in SENSITIVE_KEYS && Clear(value.fields[path[0]].value, path[1..])
    else if value.List? && path[0] < |value.items| then Clear(value.items[path[0]], path[1..])
    else true
  }

  /** Same leaf, same keys in the same order, or same number of items. */
  predicate SameNode(v: Json, w: Json) {
    match v
    case Dict(fields) =>
      w.Dict? && |w.fields| == |fields| && forall i :: 0 <= i < |fields| ==> w.fields[i].key == fields[i].key
    case List(items) => w.List? && |w.items| == |items|
    case _ => w == v
  }

  /** Away from sensitive keys, redaction keeps every place and what stands there. */
  lemma {:induction false} ClearPlacesStay(value: Json, path: Path)
    requires Clear(value, path)
    ensures At(RedactValue(value), path).Some? <==> At(value, path).Some?
    ensures At(value, path).Some? ==>
      && At(RedactValue(value), path).value == RedactValue(At(value, path).value)
      && SameNode(At(value, path).value, At(RedactValue(value), path).value)
    decreases |path|
  {
    if path != [] {
      if value.Dict? && path[0] < |value.fields| {
        ClearPlacesStay(value.fields[path[0]].value, path[1..]);
      } else if value.List? && path[0] < |value.items| {
        ClearPlacesStay(value.items[path[0]], path[1..]);
      }
    }
  }

  /** The first sensitive field on the way down holds only the mask afterwards. */
  lemma {:induction false} SensitivePlacesMasked(value: Json, path: Path, i: nat)
    requires Clear(value, path) && At(value, path).Some? && At(value, path).value.Dict?
    requires i < |At(value, path).value.fields| && At(value, path).value.fields[i].key in SENSITIVE_KEYS
    ensures At(RedactValue(value), path + [i]) == Some(MASK)
    decreases |path|
  {
    if path == [] {
      assert path + [i] == [i];
    } else {
      assert (path + [i])[0] == path[0] && (path + [i])[1..] == path[1..] + [i];
      if value.Dict? {
        SensitivePlacesMasked(value.fields[path[0]].value, path[1..], i);
      } else {
        SensitivePlacesMasked(value.items[path[0]], path[1..], i);
      }
    }
  }

  // ---- The same, by the names of the keys ----

  lemma CredentialKeys(key: string)
    ensures key in SENSITIVE_KEYS
      <==> key in {"password", "new_password", "confirm_password", "hashed_password", "access_token", "refresh_token",
                   "otp"}
  {
  }

  lemma {:induction false} MaskedBelow(value: Json, path: Path)
    requires FullyMasked(value) && At(value, path).Some?
    ensures FullyMasked(At(value, path).value)
    decreases |path|
  {
    if path != [] {
      if value.Dict? {
        MaskedBelow(value.fields[path[0]].value, path[1..]);
      } else {
        MaskedBelow(value.items[path[0]], path[1..]);
      }
    }
  }

  /** Wherever a redacted dictionary has a field with one of the seven names, it holds "***". */
  lemma CredentialsAreMasked(data: seq<Field>, path: Path, i: nat)
    requires var at := At(Dict(RedactDict(data)), path);
      && at.Some? && at.value.Dict? && i < |at.value.fields|
      && at.value.fields[i].key in {"password", "new_password", "confirm_password", "hashed_password", "access_token",
                                    "refresh_token", "otp"}
    ensures At(Dict(RedactDict(data)), path).value.fields[i].value == Text("***")
  {
    RedactMasks(Dict(data));
    assert RedactValue(Dict(data)) == Dict(RedactDict(data));
    MaskedBelow(Dict(RedactDict(data)), path);
    CredentialKeys(At(Dict(RedactDict(data)), path).value.fields[i].key);
  }

  lemma AbsentStaysAbsent(data: Option<seq<Field>>)
    ensures Redact(data) == if data.Some? then Some(RedactDict(data.value)) else None
  {
  }

  /** The keys of the fields on the way down. */
  function KeysOn(value: Json, path: Path): seq<string>
    decreases |path|
  {
    if path == [] then []
    else if value.Dict? && path[0] < |value.fields| then
      [value.fields[path[0]].key] + KeysOn(value.fields[path[0]].value, path[1..])
    else if value.List? && path[0] < |value.items| then KeysOn(value.items[path[0]], path[1..])
    else []
  }

  lemma {:induction false} ClearIff(value: Json, path: Path)
    ensures Clear(value, path) <==> forall k :: k in KeysOn(value, path) ==> k !in SENSITIVE_KEYS
    decreases |path|
  {
    if path != [] {
      if value.Dict? && path[0] < |value.fields| {
        var rest := KeysOn(value.fields[path[0]].value, path[1..]);
        ClearIff(value.fields[path[0]].value, path[1..]);
        assert KeysOn(value, path) == [value.fields[path[0]].key] + rest;
      } else if value.List? && path[0] < |value.items| {
        ClearIff(value.items[path[0]], path[1..]);
      }
    }
  }

  /** Every place that is not under one of the seven names is kept: leaves as they are, dictionaries with
      their keys in order, lists with their length; and no place is added. */
  lemma OtherPlacesAreKept(data: seq<Field>, path: Path)
    requires forall k :: k in KeysOn(Dict(data), path) ==>
      k !in {"password", "new_password", "confirm_password", "hashed_password", "access_token", "refresh_token", "otp"}
    ensures At(Dict(RedactDict(data)), path).Some? <==> At(Dict(data), path).Some?
    ensures At(Dict(data), path).Some? ==> SameNode(At(Dict(data), path).value, At(Dict(RedactDict(data)), path).value)
  {
    forall k | k in KeysOn(Dict(data), path) ensures k !in SENSITIVE_KEYS {
      CredentialKeys(k);
    }
    ClearIff(Dict(data), path);
    ClearPlacesStay(Dict(data), path);
    assert RedactValue(Dict(data)) == Dict(RedactDict(data));
  }
}
