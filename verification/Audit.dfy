/** app/services/audit_service.py: best-effort, redacted, append-only audit records. */
module Audit {
  import opened Common
  import opened Redaction

  datatype Actor = Actor(name: string, kind: string)

  /** The arguments of `record`; the request fields it passes through unchanged are one value. */
  datatype Record = Record(
    action: string, actor: Option<string>, actorKind: Option<string>,
    details: Option<seq<Field>>, payload: Option<seq<Field>>, response: Option<seq<Field>>, context: RequestFields)

  datatype RequestFields = RequestFields(
    resourceType: Option<string>, resourceId: Option<string>, url: Option<string>, requestId: Option<string>,
    ipAddress: Option<string>, userAgent: Option<string>)

  /** The stored row. */
  type AuditEntry = Record

  /** An explicit actor wins; otherwise actor and kind come from the ambient context. */
  function EntryOf(call: Record, ambient: Option<Actor>): AuditEntry {
    var named := if call.actor.None? && ambient.Some?
                 then call.(actor := Some(ambient.value.name), actorKind := Some(ambient.value.kind))
                 else call;
    named.(details := Redact(call.details), payload := Redact(call.payload), response := Redact(call.response))
  }

  ghost predicate DataMasked(data: Option<seq<Field>>) {
    data.Some? ==> FullyMasked(Dict(data.value))
  }

  ghost predicate EntryMasked(entry: AuditEntry) {
    DataMasked(entry.details) && DataMasked(entry.payload) && DataMasked(entry.response)
  }

  lemma RedactedIsMasked(data: Option<seq<Field>>)
    ensures DataMasked(Redact(data))
  {
    if data.Some? {
      RedactMasks(Dict(data.value));
    }
  }

  /** Each part of an entry comes from the part of the same name; an actor given wins with its kind, and
      the ambient one, with its own kind, stands in for none. */
  lemma EntryParts(call: Record, ambient: Option<Actor>)
    ensures var entry := EntryOf(call, ambient);
      && entry.action == call.action && entry.context == call.context
      && entry.details == Redact(call.details) && entry.payload == Redact(call.payload)
      && entry.response == Redact(call.response)
      && (call.actor.Some? || ambient.None? ==> entry.actor == call.actor && entry.actorKind == call.actorKind)
      && (call.actor.None? && ambient.Some? ==>
            entry.actor == Some(ambient.value.name) && entry.actorKind == Some(ambient.value.kind))
  {
  }

  /** In the details, payload and response of a stored entry, at any depth, a field with one of the seven
      credential names holds "***". */
  lemma EntryHidesCredentials(call: Record, ambient: Option<Actor>, data: seq<Field>, path: Path, i: nat)
    requires
      Some(data) in {EntryOf(call, ambient).details, EntryOf(call, ambient).payload, EntryOf(call, ambient).response}
    requires At(Dict(data), path).Some? && At(Dict(data), path).value.Dict? && i < |At(Dict(data), path).value.fields|
    requires At(Dict(data), path).value.fields[i].key in
      {"password", "new_password", "confirm_password", "hashed_password", "access_token", "refresh_token", "otp"}
    ensures At(Dict(data), path).value.fields[i].value == Text("***")
  {
    var from := if Some(data) == EntryOf(call, ambient).details then call.details
                else if Some(data) == EntryOf(call, ambient).payload then call.payload else call.response;
    assert Redact(from) == Some(data);
    CredentialsAreMasked(from.value, path, i);
  }

  /** The ambient actor of the running request. */
  class AuditContext {
    var current: Option<Actor>

    constructor ()
      ensures current == None
    {
      current := None;
    }

    method Set(name: string, kind: string) returns (token: Option<Actor>)
      modifies this
      ensures token == old(current) && current == Some(Actor(name, kind))
    {
      token, current := current, Some(Actor(name, kind));
    }

    method Reset(token: Option<Actor>)
      modifies this
      ensures current == token
    {
      current := token;
    }
  }

  class AuditLog {
    var entries: seq<AuditEntry>

    constructor ()
      ensures entries == []
    {
      entries := [];
    }

    ghost predicate Valid()
      reads this
    {
      forall i :: 0 <= i < |entries| ==> EntryMasked(entries[i])
    }
  }

  /** `stored` says whether the write reached the table; a failed one is logged and swallowed. */
  method RecordEntry(log: AuditLog, context: AuditContext, call: Record, stored: bool)
    requires log.Valid()
    modifies log
    ensures log.Valid()
    ensures log.entries == old(log.entries) + if stored then [EntryOf(call, context.current)] else []
  {
    var actor, actorKind := call.actor, call.actorKind;
    if actor.None? {
      var ambient := context.current;
      if ambient.Some? {
        actor, actorKind := Some(ambient.value.name), Some(ambient.value.kind);
      }
    }
    RedactedIsMasked(call.details);
    RedactedIsMasked(call.payload);
    RedactedIsMasked(call.response);
    if stored {
      log.entries := log.entries + [Record(call.action, actor, actorKind, Redact(call.details), Redact(call.payload),
                                           Redact(call.response), call.context)];
    }
  }

  // ---- Whole runs ----

  /** One call of `record`: its arguments, the ambient actor, and whether the write succeeded. */
  datatype Write = Write(call: Record, ambient: Option<Actor>, stored: bool)

  function LogAfter(writes: seq<Write>): seq<AuditEntry> {
    if writes == [] then []
    else
      var last := writes[|writes| - 1];
      LogAfter(writes[..|writes| - 1]) + if last.stored then [EntryOf(last.call, last.ambient)] else []
  }

  /** The log only grows, and every entry it ever holds is fully masked. */
  lemma {:induction false} LogGrowsMasked(writes: seq<Write>, n: nat)
    requires n <= |writes|
    ensures LogAfter(writes[..n]) <= LogAfter(writes)
    ensures forall e :: e in LogAfter(writes) ==> EntryMasked(e)
    decreases |writes|
  {
    if writes != [] {
      var init, last := writes[..|writes| - 1], writes[|writes| - 1];
      if n == |writes| {
        assert writes[..n] == writes;
        LogGrowsMasked(init, |init|);
      } else {
        assert init[..n] == writes[..n];
        LogGrowsMasked(init, n);
      }
      RedactedIsMasked(last.call.details);
      RedactedIsMasked(last.call.payload);
      RedactedIsMasked(last.call.response);
    }
  }
}
