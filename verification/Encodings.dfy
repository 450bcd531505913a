/** Configuration-encoding evidence: what one record proves, and the tables that
    hold it (configuration_encoding.rs over db.rs). */
module Encodings {
  import opened Core
  import opened Rationals

  type Typed = map<string, ParameterValue>

  datatype Source = Source(document: string, version: string, microversion: string, element: string, kind: string)

  // Hashes are constructors over what they are computed from. The source hash
  // leaves the version out; the context hash keeps it.
  datatype SourceHash = SourceHash(document: string, microversion: string, element: string, kind: string)
  datatype ConfigHash = ConfigHash(source: SourceHash, typed: Typed)
  datatype Context = Context(origin: string, source: Source)
  datatype ContextHash = ContextHash(context: Context)
  datatype RequestBody = RequestBody(typed: Typed)

  datatype Key = Key(source: SourceHash, config: ConfigHash, context: ContextHash)

  /** The fields read from the encoder's answer; absent and non-text are alike. */
  datatype Response = Response(encodedId: Option<string>, queryParam: Option<string>)

  /** A stored row. A document that is malformed, over its bound or not of the
      expected shape is `None`. */
  datatype Record = Record(
    key: Key, context: Option<Context>, encodedId: string, queryParam: string,
    request: Option<RequestBody>, response: Option<Response>)

  datatype Expected = Expected(key: Key, context: Context, request: RequestBody)

  datatype Handoff = Handoff(key: Key, encodedId: string)

  datatype Resolution = Resolution(handoff: Handoff, queryParam: string)

  predicate Graphic(s: string) {
    s != "" && forall i :: 0 <= i < |s| ==> '!' <= s[i] <= '~'
  }

  predicate BoundedVisibleAscii(s: string) {
    |s| <= 4096 && Graphic(s)
  }

  function SourceHashOf(source: Source): SourceHash {
    SourceHash(source.document, source.microversion, source.element, source.kind)
  }

  /** `expected`: everything a record for this configuration must show. */
  function ExpectedFor(origin: string, source: Source, typed: Typed): Option<Expected> {
    if !AcceptsTyped(typed)
       || !BoundedVisibleAscii(source.document) || !BoundedVisibleAscii(source.version)
       || !BoundedVisibleAscii(source.microversion) || !BoundedVisibleAscii(source.element)
    then None
    else
      var hash, context := SourceHashOf(source), Context(origin, source);
      Some(Expected(Key(hash, ConfigHash(hash, typed), ContextHash(context)), context, RequestBody(typed)))
  }

  /** `response_identity`: encoded id and query parameter, if the answer has them. */
  function ResponseIdentity(response: Response, requireQuery: bool): Option<(string, string)> {
    if response.encodedId.None? || !BoundedVisibleAscii(response.encodedId.value) then None
    else if response.queryParam.Some? && Graphic(response.queryParam.value)
    then Some((response.encodedId.value, response.queryParam.value))
    else if requireQuery then None
    else Some((response.encodedId.value, ""))
  }

  /** `validate_record`. */
  function Validate(record: Record, expected: Expected, requireQuery: bool): Option<Resolution> {
    if record.context != Some(expected.context) || record.key != expected.key then None
    else if record.request != Some(expected.request) || record.response.None? then None
    else
      match ResponseIdentity(record.response.value, requireQuery)
      case None => None
      case Some((id, query)) =>
        if record.encodedId != id || (requireQuery && record.queryParam != query) then None
        else Some(Resolution(Handoff(expected.key, id), query))
  }

  /** The record made from a fresh answer, if it identifies an encoding. */
  function FreshRecord(expected: Expected, response: Response, requireQuery: bool): Option<Record> {
    match ResponseIdentity(response, requireQuery)
    case None => None
    case Some((id, query)) =>
      Some(Record(expected.key, Some(expected.context), id, query, Some(expected.request), Some(response)))
  }

  type EncodingTable = map<Key, Record>

  /** Typed values by source and configuration; an unreadable row is `None`. */
  type SelectionTable = map<ConfigHash, Option<Typed>>

  function InsertIfAbsent<K, V>(table: map<K, V>, key: K, value: V): (map<K, V>, bool) {
    if key in table then (table, false) else (table[key := value], true)
  }

  /** `validate_handoff`: planning's read-only check of an earlier result. */
  predicate HandoffValid(encodings: EncodingTable, selections: SelectionTable, origin: string, source: Source, handoff: Handoff) {
    && BoundedVisibleAscii(handoff.encodedId)
    && handoff.key.config in selections && selections[handoff.key.config].Some?
    && var expected := ExpectedFor(origin, source, selections[handoff.key.config].value);
       && expected.Some? && expected.value.key == handoff.key && handoff.key in encodings
       && var resolution := Validate(encodings[handoff.key], expected.value, false);
          resolution.Some? && resolution.value.handoff == handoff
  }

  // ---- What validation establishes

  /** A record that satisfies an export satisfies planning, with the same id. */
  lemma QueryIsOnlyStricter(record: Record, expected: Expected)
    ensures Validate(record, expected, true).Some? ==>
              && Validate(record, expected, false) == Validate(record, expected, true)
              && Validate(record, expected, true).value.queryParam != ""
  {
  }

  /** The answer carries a usable query parameter, and the record shows it. */
  predicate UsableQuery(record: Record) {
    && record.response.Some? && record.response.value.queryParam.Some?
    && Graphic(record.response.value.queryParam.value) && record.queryParam == record.response.value.queryParam.value
  }

  /** A record satisfies an export exactly if it satisfies planning and its answer
      carries a usable query parameter that the record shows. */
  lemma ExportNeedsQuery(record: Record, expected: Expected)
    ensures Validate(record, expected, true).Some? <==> Validate(record, expected, false).Some? && UsableQuery(record)
  {
  }

  /** The query parameter a resolution carries: the answer's if it is usable, else none. */
  predicate Carries(query: string, response: Response) {
    query == if response.queryParam.Some? && response.queryParam.value != ""
                && (forall i :: 0 <= i < |response.queryParam.value| ==> '!' <= response.queryParam.value[i] <= '~')
             then response.queryParam.value else ""
  }

  /** A record is valid exactly if it shows the expected key, context and request and an
      answer whose encoded id, visible and within the bound, is the record's; for an export
      the answer's query parameter must be usable and the record's too. The resolution
      carries the answer's encoded id. */
  lemma ValidateExact(record: Record, expected: Expected, requireQuery: bool)
    ensures var r, id := Validate(record, expected, requireQuery), record.encodedId;
            && (r.Some? <==>
                  && record.key == expected.key && record.context == Some(expected.context) && record.request == Some(expected.request)
                  && record.response.Some? && record.response.value.encodedId == Some(id)
                  && 0 < |id| <= 4096 && (forall i :: 0 <= i < |id| ==> '!' <= id[i] <= '~')
                  && (requireQuery ==> record.queryParam != "" && Carries(record.queryParam, record.response.value)))
            && (r.Some? ==>
                  && r.value.handoff == Handoff(expected.key, id) && record.response.value.encodedId == Some(id)
                  && Carries(r.value.queryParam, record.response.value))
  {
  }

  /** An answer makes a record exactly if its encoded id is visible and within the bound
      and, for an export, its query parameter is usable; the record keeps the whole answer. */
  lemma FreshRecordExact(expected: Expected, response: Response, requireQuery: bool)
    ensures var r := FreshRecord(expected, response, requireQuery);
            && (r.Some? <==>
                  && response.encodedId.Some? && 0 < |response.encodedId.value| <= 4096
                  && (forall i :: 0 <= i < |response.encodedId.value| ==> '!' <= response.encodedId.value[i] <= '~')
                  && (requireQuery ==> !Carries("", response)))
            && (r.Some? ==>
                  && r.value == Record(expected.key, Some(expected.context), response.encodedId.value, r.value.queryParam,
                                       Some(expected.request), Some(response))
                  && Carries(r.value.queryParam, response))
  {
  }

  lemma ValidIdentifies(record: Record, expected: Expected, requireQuery: bool)
    ensures var r := Validate(record, expected, requireQuery);
            r.Some? ==>
              && r.value.handoff == Handoff(expected.key, record.encodedId)
              && BoundedVisibleAscii(record.encodedId) && record.key == expected.key
              && Validate(record, expected, false).Some?
              && Validate(record, expected, false).value.handoff == r.value.handoff
  {
  }

  lemma FreshIsValid(expected: Expected, response: Response, requireQuery: bool)
    ensures var record := FreshRecord(expected, response, requireQuery);
            && (record.Some? ==> record.value.key == expected.key && Validate(record.value, expected, requireQuery).Some?)
            && (record.Some? <==> ResponseIdentity(response, requireQuery).Some?)
  {
  }

  /** A record is expected exactly for accepted values at a source whose four identities
      are visible and within the bound; the version is in the context alone. */
  lemma ExpectedExact(origin: string, source: Source, typed: Typed)
    ensures ExpectedFor(origin, source, typed).Some?
            <==> AcceptsTyped(typed)
                 && forall id :: id in [source.document, source.version, source.microversion, source.element] ==>
                      0 < |id| <= 4096 && forall i :: 0 <= i < |id| ==> '!' <= id[i] <= '~'
    ensures ExpectedFor(origin, source, typed).Some? ==>
              var hash := SourceHash(source.document, source.microversion, source.element, source.kind);
              var context := Context(origin, source);
              ExpectedFor(origin, source, typed).value
              == Expected(Key(hash, ConfigHash(hash, typed), ContextHash(context)), context, RequestBody(typed))
  {
    var ids := [source.document, source.version, source.microversion, source.element];
    assert ids[0] == source.document && ids[1] == source.version && ids[2] == source.microversion && ids[3] == source.element;
  }

  /** A handoff is valid exactly if the selection stored for its configuration is readable
      and expects this very key, and the row under it is valid and shows this very id. */
  lemma HandoffExact(encodings: EncodingTable, selections: SelectionTable, origin: string, source: Source, handoff: Handoff)
    ensures HandoffValid(encodings, selections, origin, source, handoff)
            <==> && handoff.key in encodings && encodings[handoff.key].encodedId == handoff.encodedId
                 && handoff.key.config in selections && selections[handoff.key.config].Some?
                 && var expected := ExpectedFor(origin, source, selections[handoff.key.config].value);
                    expected.Some? && expected.value.key == handoff.key && Validate(encodings[handoff.key], expected.value, false).Some?
  {
    hide ExpectedFor, Graphic;
  }

  /** One key belongs to one configuration, so its evidence has one meaning. */
  lemma KeyDeterminesExpected(o1: string, s1: Source, t1: Typed, o2: string, s2: Source, t2: Typed)
    requires ExpectedFor(o1, s1, t1).Some? && ExpectedFor(o2, s2, t2).Some?
    requires ExpectedFor(o1, s1, t1).value.key == ExpectedFor(o2, s2, t2).value.key
    ensures o1 == o2 && s1 == s2 && t1 == t2
  {
  }

  // ---- The tables

  class EncodingStore {
    var encodings: EncodingTable
    var selections: SelectionTable

    constructor (encodings: EncodingTable, selections: SelectionTable)
      ensures this.encodings == encodings && this.selections == selections
    {
      this.encodings, this.selections := encodings, selections;
    }

    method InsertConfigurationEncodingIfAbsent(record: Record) returns (inserted: bool)
      modifies this`encodings
      ensures (encodings, inserted) == InsertIfAbsent(old(encodings), record.key, record)
    {
      inserted := record.key !in encodings;
      if inserted {
        encodings := encodings[record.key := record];
      }
    }

    method InsertConfigurationSelectionIfAbsent(config: ConfigHash, typed: Typed)
      modifies this`selections
      ensures selections == InsertIfAbsent(old(selections), config, Some(typed)).0
    {
      if config !in selections {
        selections := selections[config := Some(typed)];
      }
    }

    /** `retain_typed_selection`. */
    method RetainTypedSelection(expected: Expected, typed: Typed) returns (ok: bool)
      modifies this`selections
      ensures selections == InsertIfAbsent(old(selections), expected.key.config, Some(typed)).0
      ensures ok <==> selections[expected.key.config] == Some(typed)
    {
      InsertConfigurationSelectionIfAbsent(expected.key.config, typed);
      ok := selections[expected.key.config] == Some(typed);
    }

    /** `resolve_inner` after the version is resolved, with nobody interfering.
        `answer` is what the encoder would say; `asked` whether it was asked. */
    method Resolve(origin: string, source: Source, typed: Typed, requireQuery: bool, answer: Option<Response>)
      returns (r: Option<Resolution>, asked: bool)
      modifies this
      ensures forall k :: k in old(encodings) ==> k in encodings && encodings[k] == old(encodings)[k]
      ensures forall c :: c in old(selections) ==> c in selections && selections[c] == old(selections)[c]
      ensures r.Some? ==>
                && r.value.handoff.key in encodings && r.value.handoff.encodedId == encodings[r.value.handoff.key].encodedId
                && HandoffValid(encodings, selections, origin, source, r.value.handoff)
      ensures r.Some? && !asked ==>
                && r.value.handoff.key in old(encodings)
                && var response := old(encodings)[r.value.handoff.key].response;
                   response.Some? && response.value.encodedId == Some(r.value.handoff.encodedId) && Carries(r.value.queryParam, response.value)
      ensures r.Some? && asked ==>
                && answer.Some? && answer.value.encodedId == Some(r.value.handoff.encodedId) && Carries(r.value.queryParam, answer.value)
                && encodings[r.value.handoff.key].response == answer
      ensures ExpectedFor(origin, source, typed).Some? ==>
                var expected := ExpectedFor(origin, source, typed).value;
                var c := expected.key.config;
                && (asked <==> expected.key !in old(encodings))
                && (r.Some? ==> r.value.handoff.key == expected.key)
                && (r.Some? <==>
                      && (c in old(selections) ==> old(selections)[c] == Some(typed))
                      && if expected.key in old(encodings) then Validate(old(encodings)[expected.key], expected, requireQuery).Some?
                         else answer.Some? && FreshRecord(expected, answer.value, requireQuery).Some?)
      ensures ExpectedFor(origin, source, typed).None? ==> r.None? && !asked
    {
      asked := false;
      var e := ExpectedFor(origin, source, typed);
      if e.None? {
        return None, asked;
      }
      var expected := e.value;
      if expected.key in encodings {
        var validated := Validate(encodings[expected.key], expected, requireQuery);
        if validated.None? {
          return None, asked;
        }
        ValidIdentifies(encodings[expected.key], expected, requireQuery);
        ValidateExact(encodings[expected.key], expected, requireQuery);
        var retained := RetainTypedSelection(expected, typed);
        return if retained then validated else None, asked;
      }
      asked := true;
      if answer.None? {
        return None, asked;
      }
      FreshIsValid(expected, answer.value, requireQuery);
      var record := FreshRecord(expected, answer.value, requireQuery);
      if record.None? {
        return None, asked;
      }
      var validated := Validate(record.value, expected, requireQuery);
      ValidIdentifies(record.value, expected, requireQuery);
      ValidateExact(record.value, expected, requireQuery);
      FreshRecordExact(expected, answer.value, requireQuery);
      var retained := RetainTypedSelection(expected, typed);
      if !retained {
        return None, asked;
      }
      var _ := InsertConfigurationEncodingIfAbsent(record.value);
      return validated, asked;
    }
  }
}
