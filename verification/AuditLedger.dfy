/** The tenant-scoped, hash-chained audit ledger: appending events, and what every run of
    appends keeps. */
module AuditLedger {
  import opened Common
  import opened TenantScope

  datatype ActorType = User | ServiceAccount | Device | System

  datatype SummaryPrimitive = Text(text: string) | Number(number: int) | Flag(flag: bool) | Null

  type Summary = map<string, SummaryPrimitive>

  /** An audit event without its digest: the record the digest is computed over. */
  datatype Body = Body(
    eventId: StableId,
    action: string,
    scope: TenantScope,
    actorType: ActorType,
    actorId: StableId,
    entityType: string,
    entityId: StableId,
    entityRevision: int,
    sequence: int,
    occurredAt: string,
    correlationId: StableId,
    idempotencyKey: string,
    summary: Summary,
    previousDigest: Option<string>)

  datatype Event = Event(body: Body, digest: string)

  datatype AuditError =
    | InvalidIdentifier | InvalidTimestamp | InvalidScope | InvalidAction | InvalidActor
    | InvalidText | InvalidRevision | InvalidSequence | InvalidSummary
    | IdempotencyConflict | ChainInvalid

  /** What the ledger is given from outside: the canonical JSON layout, the digest port, the
      `text` normaliser (trim and NFC under a length limit) and the '|' join of digests. */
  datatype Port = Port(
    canonical: Body -> string,
    digest: string -> string,
    text: (string, nat) -> Option<string>,
    join: seq<string> -> string)
  {
    function DigestOf(body: Body): string {
      digest(canonical(body))
    }

    /** Digest outputs come back from `text` unchanged. */
    ghost predicate NormalDigests() {
      forall b: Body :: text(DigestOf(b), DIGEST_LENGTH) == Some(DigestOf(b))
    }
  }

  const DIGEST_LENGTH: nat := 512

  /** Append input; a field is `None` when its parser rejects it. */
  datatype AppendInput = AppendInput(
    eventId: Option<StableId>,
    action: Option<string>,
    scope: Option<TenantScope>,
    actorType: Option<ActorType>,
    actorId: Option<StableId>,
    entityType: string,
    entityId: Option<StableId>,
    entityRevision: Option<int>,
    occurredAt: Option<string>,
    correlationId: Option<StableId>,
    idempotencyKey: string,
    summary: Option<Summary>)

  datatype Appended = Appended(ledger: seq<Event>, event: Event)

  function EventKey(e: Event): string {
    ScopeKey(e.body.scope)
  }

  /** The events of one scope, in ledger order. */
  function Scoped(events: seq<Event>, key: string): seq<Event> {
    if events == [] then []
    else
      var init := Scoped(events[..|events| - 1], key);
      var last := events[|events| - 1];
      if EventKey(last) == key then init + [last] else init
  }

  /** The first event of a scope with an idempotency key. */
  function Find(events: seq<Event>, idempotencyKey: string, key: string): Option<Event> {
    if events == [] then None
    else
      match Find(events[..|events| - 1], idempotencyKey, key)
      case Some(e) => Some(e)
      case None =>
        var last := events[|events| - 1];
        if last.body.idempotencyKey == idempotencyKey && EventKey(last) == key then Some(last) else None
  }

  /** The guards at the top of an append, in their order; the sequence and link are still open. */
  function ParseInput(port: Port, input: AppendInput): Result<Body, AuditError> {
    var entityType := port.text(input.entityType, 80);
    var idempotencyKey := port.text(input.idempotencyKey, 200);
    if input.eventId.None? || input.entityId.None? || input.correlationId.None? then Rejected(InvalidIdentifier)
    else if input.action.None? then Rejected(InvalidAction)
    else if input.scope.None? then Rejected(InvalidScope)
    else if input.actorId.None? || input.actorType.None? then Rejected(InvalidActor)
    else if entityType.None? || input.entityRevision.None? || input.occurredAt.None? || idempotencyKey.None? then
      Rejected(if entityType.None? || idempotencyKey.None? then InvalidText else InvalidRevision)
    else if input.summary.None? then Rejected(InvalidSummary)
    else
      Accepted(Body(
        input.eventId.value, input.action.value, input.scope.value, input.actorType.value,
        input.actorId.value, entityType.value, input.entityId.value, input.entityRevision.value, 0,
        input.occurredAt.value, input.correlationId.value, idempotencyKey.value, input.summary.value, None))
  }

  /** Places a parsed record behind the last event of its scope. */
  function Link(record: Body, scoped: seq<Event>): Body {
    if scoped == [] then record.(sequence := 1, previousDigest := None)
    else
      var previous := scoped[|scoped| - 1];
      record.(sequence := previous.body.sequence + 1, previousDigest := Some(previous.digest))
  }

  function Append(port: Port, ledger: seq<Event>, input: AppendInput): Result<Appended, AuditError> {
    match ParseInput(port, input)
    case Rejected(code) => Rejected(code)
    case Accepted(record) =>
      var key := ScopeKey(record.scope);
      match Find(ledger, record.idempotencyKey, key)
      case Some(existing) =>
        if existing.body.eventId == record.eventId then Accepted(Appended(ledger, existing))
        else Rejected(IdempotencyConflict)
      case None =>
        var body := Link(record, Scoped(ledger, key));
        match port.text(port.DigestOf(body), DIGEST_LENGTH)
        case None => Rejected(ChainInvalid)
        case Some(digest) => Accepted(Appended(ledger + [Event(body, digest)], Event(body, digest)))
  }

  /** A caller keeps its ledger when an append is rejected. */
  function Step(port: Port, ledger: seq<Event>, input: AppendInput): seq<Event> {
    match Append(port, ledger, input)
    case Rejected(_) => ledger
    case Accepted(a) => a.ledger
  }

  function Run(port: Port, ledger: seq<Event>, inputs: seq<AppendInput>): seq<Event> {
    if inputs == [] then ledger
    else Step(port, Run(port, ledger, inputs[..|inputs| - 1]), inputs[|inputs| - 1])
  }

  lemma RunSnoc(port: Port, ledger: seq<Event>, inputs: seq<AppendInput>, input: AppendInput)
    ensures Run(port, ledger, inputs + [input]) == Step(port, Run(port, ledger, inputs), input)
  {
    assert (inputs + [input])[..|inputs|] == inputs;
  }

  /** A run in two halves is the second half run on what the first one left. */
  lemma {:induction false} RunInTwo(port: Port, ledger: seq<Event>, first: seq<AppendInput>, second: seq<AppendInput>)
    ensures Run(port, ledger, first + second) == Run(port, Run(port, ledger, first), second)
  {
    if second == [] {
      assert first + second == first;
    } else {
      var init, last := second[..|second| - 1], second[|second| - 1];
      RunInTwo(port, ledger, first, init);
      RunSnoc(port, ledger, first + init, last);
      assert first + second == (first + init) + [last];
    }
  }

  // ---- filters ---------------------------------------------------------------------------

  lemma ScopedSnoc(events: seq<Event>, e: Event, key: string)
    ensures Scoped(events + [e], key) == Scoped(events, key) + if EventKey(e) == key then [e] else []
  {
    assert (events + [e])[..|events|] == events;
  }

  lemma {:induction false} ScopedAppend(events: seq<Event>, more: seq<Event>, key: string)
    ensures Scoped(events + more, key) == Scoped(events, key) + Scoped(more, key)
  {
    if more == [] {
      assert events + more == events;
    } else {
      var init, last := more[..|more| - 1], more[|more| - 1];
      ScopedAppend(events, init, key);
      assert more == init + [last] && events + more == (events + init) + [last];
      ScopedSnocs(events + init, more, init, last, key);
    }
  }

  lemma ScopedSnocs(events: seq<Event>, more: seq<Event>, init: seq<Event>, last: Event, key: string)
    requires more == init + [last]
    ensures Scoped(more, key) == Scoped(init, key) + if EventKey(last) == key then [last] else []
    ensures Scoped(events + [last], key) == Scoped(events, key) + if EventKey(last) == key then [last] else []
  {
    ScopedSnoc(init, last, key);
    ScopedSnoc(events, last, key);
  }

  lemma {:induction false} ScopedMembers(events: seq<Event>, key: string)
    ensures forall e :: e in Scoped(events, key) <==> e in events && EventKey(e) == key
    ensures forall e :: multiset(Scoped(events, key))[e] == if EventKey(e) == key then multiset(events)[e] else 0
  {
    if events != [] {
      ScopedMembers(events[..|events| - 1], key);
      assert events == events[..|events| - 1] + [events[|events| - 1]];
    }
  }

  lemma {:induction false} ScopedAlone(events: seq<Event>, key: string)
    requires forall e :: e in events ==> EventKey(e) == key
    ensures Scoped(events, key) == events
  {
    if events != [] {
      ScopedAlone(events[..|events| - 1], key);
      assert events == events[..|events| - 1] + [events[|events| - 1]];
    }
  }

  lemma {:induction false} FindInScope(events: seq<Event>, idempotencyKey: string, key: string)
    ensures Find(events, idempotencyKey, key) == Find(Scoped(events, key), idempotencyKey, key)
  {
    if events != [] {
      var init, last := events[..|events| - 1], events[|events| - 1];
      FindInScope(init, idempotencyKey, key);
      var s := Scoped(init, key);
      assert (s + [last])[..|s|] == s;
    }
  }

  /** `Find` answers exactly the question "is there one", with an event that is one. */
  lemma {:induction false} FindFinds(events: seq<Event>, idempotencyKey: string, key: string)
    ensures match Find(events, idempotencyKey, key)
            case Some(e) => e in events && e.body.idempotencyKey == idempotencyKey && EventKey(e) == key
            case None => forall e :: e in events ==> e.body.idempotencyKey != idempotencyKey || EventKey(e) != key
  {
    if events != [] {
      FindFinds(events[..|events| - 1], idempotencyKey, key);
      assert events == events[..|events| - 1] + [events[|events| - 1]];
    }
  }

  lemma {:induction false} FindKeepsFirst(events: seq<Event>, more: seq<Event>, idempotencyKey: string, key: string)
    requires Find(events, idempotencyKey, key).Some?
    ensures Find(events + more, idempotencyKey, key) == Find(events, idempotencyKey, key)
  {
    if more == [] {
      assert events + more == events;
    } else {
      FindKeepsFirst(events, more[..|more| - 1], idempotencyKey, key);
      assert (events + more)[..|events + more| - 1] == events + more[..|more| - 1];
    }
  }

  // ---- one append ------------------------------------------------------------------------

  /** `b` says what `input` says. */
  ghost predicate Describes(port: Port, b: Body, input: AppendInput) {
    && input.eventId == Some(b.eventId) && input.action == Some(b.action) && input.scope == Some(b.scope)
    && input.actorType == Some(b.actorType) && input.actorId == Some(b.actorId)
    && port.text(input.entityType, 80) == Some(b.entityType) && input.entityId == Some(b.entityId)
    && input.entityRevision == Some(b.entityRevision) && input.occurredAt == Some(b.occurredAt)
    && input.correlationId == Some(b.correlationId) && input.summary == Some(b.summary)
    && port.text(input.idempotencyKey, 200) == Some(b.idempotencyKey)
  }

  /** `b` stands behind the last event of its scope. */
  ghost predicate StandsBehind(ledger: seq<Event>, b: Body) {
    var scoped := Scoped(ledger, ScopeKey(b.scope));
    && b.sequence == (if scoped == [] then 1 else scoped[|scoped| - 1].body.sequence + 1)
    && b.previousDigest == if scoped == [] then None else Some(scoped[|scoped| - 1].digest)
  }

  /** `event` is a stored event the input asks for again. */
  ghost predicate Replays(port: Port, ledger: seq<Event>, event: Event, input: AppendInput) {
    && event in ledger
    && input.scope == Some(event.body.scope) && input.eventId == Some(event.body.eventId)
    && port.text(input.idempotencyKey, 200) == Some(event.body.idempotencyKey)
  }

  /** `event` is new under its idempotency key and stands behind the last event of its scope. */
  ghost predicate Extends(port: Port, ledger: seq<Event>, event: Event) {
    var scoped := Scoped(ledger, EventKey(event));
    && Some(event.digest) == port.text(port.DigestOf(event.body), DIGEST_LENGTH)
    && (forall e :: e in scoped ==> e.body.idempotencyKey != event.body.idempotencyKey)
    && StandsBehind(ledger, event.body)
  }

  lemma FoundReplays(port: Port, ledger: seq<Event>, input: AppendInput)
    requires Append(port, ledger, input).Accepted? && Append(port, ledger, input).value.ledger == ledger
    ensures Replays(port, ledger, Append(port, ledger, input).value.event, input)
  {
    var record := ParseInput(port, input).value;
    FindFinds(ledger, record.idempotencyKey, ScopeKey(record.scope));
    var existing := Append(port, ledger, input).value.event;
    ScopeKeyIdentifiesScope(existing.body.scope, record.scope);
  }

  lemma LinkedExtends(port: Port, ledger: seq<Event>, record: Body, event: Event)
    requires Find(ledger, record.idempotencyKey, ScopeKey(record.scope)) == None
    requires Sealed(port, Link(record, Scoped(ledger, ScopeKey(record.scope)))) == Some(event)
    ensures Extends(port, ledger, event)
  {
    var key := ScopeKey(record.scope);
    assert EventKey(event) == key;
    forall e | e in Scoped(ledger, key)
      ensures e.body.idempotencyKey != record.idempotencyKey
    {
      ScopedMembers(ledger, key);
      FindFinds(ledger, record.idempotencyKey, key);
    }
  }

  lemma NotFoundExtends(port: Port, ledger: seq<Event>, input: AppendInput)
    requires Append(port, ledger, input).Accepted? && Append(port, ledger, input).value.ledger != ledger
    ensures var Appended(after, event) := Append(port, ledger, input).value;
            after == ledger + [event] && Describes(port, event.body, input) && Extends(port, ledger, event)
  {
    LinkedExtends(port, ledger, ParseInput(port, input).value, Append(port, ledger, input).value.event);
  }

  /** An accepted append either replays a stored event of the same scope, key and id, or adds
      exactly one event: it carries the input and stands behind the last event of its scope. */
  lemma AppendReplaysOrExtends(port: Port, ledger: seq<Event>, input: AppendInput)
    requires Append(port, ledger, input).Accepted?
    ensures var Appended(after, event) := Append(port, ledger, input).value;
            if after == ledger then Replays(port, ledger, event, input)
            else after == ledger + [event] && Describes(port, event.body, input) && Extends(port, ledger, event)
  {
    if Append(port, ledger, input).value.ledger == ledger {
      FoundReplays(port, ledger, input);
    } else {
      NotFoundExtends(port, ledger, input);
    }
  }

  // ---- which appends are accepted --------------------------------------------------------

  /** `e` is of the scope of `b` and used its idempotency key. */
  predicate SharesKey(e: Event, b: Body) {
    e.body.scope == b.scope && e.body.idempotencyKey == b.idempotencyKey
  }

  /** Place `i` holds the first event that shares its key with `b`. */
  ghost predicate FirstSharing(ledger: seq<Event>, i: int, b: Body) {
    0 <= i < |ledger| && SharesKey(ledger[i], b) && forall j :: 0 <= j < i ==> !SharesKey(ledger[j], b)
  }

  /** The first stored event under the key of `b`, if there is one, is the event of `b`. */
  ghost predicate KeyIsOwn(ledger: seq<Event>, b: Body) {
    forall i {:trigger FirstSharing(ledger, i, b)} :: FirstSharing(ledger, i, b) ==> ledger[i].body.eventId == b.eventId
  }

  ghost predicate KeyIsNew(ledger: seq<Event>, b: Body) {
    forall i :: 0 <= i < |ledger| ==> !SharesKey(ledger[i], b)
  }

  /** `Find` finds the first event of the scope with the key, or there is none. */
  lemma {:induction false} FindFindsFirst(ledger: seq<Event>, b: Body)
    ensures match Find(ledger, b.idempotencyKey, ScopeKey(b.scope))
            case Some(e) => exists i :: FirstSharing(ledger, i, b) && ledger[i] == e
            case None => KeyIsNew(ledger, b)
  {
    if ledger != [] {
      var init, last := ledger[..|ledger| - 1], ledger[|ledger| - 1];
      FindFindsFirst(init, b);
      ScopeKeyIdentifiesScope(last.body.scope, b.scope);
      match Find(init, b.idempotencyKey, ScopeKey(b.scope))
      case Some(e) =>
        var i :| FirstSharing(init, i, b) && init[i] == e;
        assert FirstSharing(ledger, i, b);
      case None =>
        assert forall i :: 0 <= i < |init| ==> ledger[i] == init[i];
        if SharesKey(last, b) {
          assert FirstSharing(ledger, |init|, b);
        }
    }
  }

  lemma OneFirst(ledger: seq<Event>, i: int, k: int, b: Body)
    requires FirstSharing(ledger, i, b) && FirstSharing(ledger, k, b)
    ensures i == k
  {
    var first := if i < k then i else k;
    assert SharesKey(ledger[first], b);
  }

  ghost predicate Identified(input: AppendInput) {
    input.eventId.Some? && input.entityId.Some? && input.correlationId.Some?
  }

  ghost predicate Texts(port: Port, input: AppendInput) {
    port.text(input.entityType, 80).Some? && port.text(input.idempotencyKey, 200).Some?
  }

  /** The input refused field by field: each code stands for the first group of fields, in the
      order of the guards, that is not there in full. */
  lemma AppendRefusesFirstFault(port: Port, ledger: seq<Event>, input: AppendInput)
    ensures var r := Append(port, ledger, input);
            var acting := Identified(input) && input.action.Some?;
            var placed := acting && input.scope.Some?;
            var acted := placed && input.actorId.Some? && input.actorType.Some?;
            var written := acted && Texts(port, input);
            var dated := written && input.entityRevision.Some? && input.occurredAt.Some?;
            && (r == Rejected(InvalidIdentifier) <==> !Identified(input))
            && (r == Rejected(InvalidAction) <==> Identified(input) && !acting)
            && (r == Rejected(InvalidScope) <==> acting && !placed)
            && (r == Rejected(InvalidActor) <==> placed && !acted)
            && (r == Rejected(InvalidText) <==> acted && !written)
            && (r == Rejected(InvalidRevision) <==> written && !dated)
            && (r == Rejected(InvalidSummary) <==> dated && input.summary.None?)
            && (dated && input.summary.Some? <==> r.Accepted? || r.code == IdempotencyConflict || r.code == ChainInvalid)
  {
  }

  /** An append of any actor, of any scope, to any ledger is accepted if and only if every field is
      there, the first stored event under its key, if any, is its own, and a new event's digest has
      a text. A foreign event under the key is a conflict; a digest without a text is an invalid
      chain. */
  lemma AppendAcceptedIff(port: Port, ledger: seq<Event>, input: AppendInput, b: Body)
    requires StandsBehind(ledger, b)
    requires Describes(port, b, input)
    ensures var r := Append(port, ledger, input);
            var sealable := port.text(port.DigestOf(b), DIGEST_LENGTH).Some?;
            && (r.Accepted? <==> KeyIsOwn(ledger, b) && (KeyIsNew(ledger, b) ==> sealable))
            && (r == Rejected(IdempotencyConflict) <==> !KeyIsOwn(ledger, b))
            && (r == Rejected(ChainInvalid) <==> KeyIsNew(ledger, b) && !sealable)
  {
    FindFindsFirst(ledger, b);
    assert Link(ParseInput(port, input).value, Scoped(ledger, ScopeKey(b.scope))) == b;
    var found := Find(ledger, b.idempotencyKey, ScopeKey(b.scope));
    if found.Some? {
      var i :| FirstSharing(ledger, i, b) && ledger[i] == found.value;
      assert SharesKey(ledger[i], b);
      forall k | FirstSharing(ledger, k, b)
        ensures k == i
      {
        OneFirst(ledger, i, k, b);
      }
    }
  }

  /** The premises above are no restriction: a record stands for the input exactly when no field
      is missing. */
  lemma RecordExistsIff(port: Port, ledger: seq<Event>, input: AppendInput)
    ensures (exists b :: StandsBehind(ledger, b) && Describes(port, b, input))
            <==> && Identified(input) && input.action.Some? && input.scope.Some? && input.actorId.Some?
                 && input.actorType.Some? && Texts(port, input) && input.entityRevision.Some?
                 && input.occurredAt.Some? && input.summary.Some?
  {
    var r := ParseInput(port, input);
    if r.Accepted? {
      var b := Link(r.value, Scoped(ledger, ScopeKey(r.value.scope)));
      assert StandsBehind(ledger, b) && Describes(port, b, input);
    }
  }

  // ---- what every run keeps --------------------------------------------------------------

  /** Event `i` of a scope has sequence `i + 1` and names its predecessor's digest. */
  predicate LinkHolds(chain: seq<Event>, i: nat)
    requires i < |chain|
  {
    && chain[i].body.sequence == i + 1
    && chain[i].body.previousDigest == if i == 0 then None else Some(chain[i - 1].digest)
  }

  ghost predicate Linked(chain: seq<Event>) {
    forall i :: 0 <= i < |chain| ==> LinkHolds(chain, i)
  }

  ghost predicate KeysUnique(events: seq<Event>) {
    forall i, j :: 0 <= i < j < |events| && EventKey(events[i]) == EventKey(events[j])
      ==> events[i].body.idempotencyKey != events[j].body.idempotencyKey
  }

  ghost predicate DigestsStored(port: Port, events: seq<Event>) {
    forall e :: e in events ==> Some(e.digest) == port.text(port.DigestOf(e.body), DIGEST_LENGTH)
  }

  ghost predicate WellFormed(port: Port, ledger: seq<Event>) {
    && (forall key: string :: Linked(Scoped(ledger, key)))
    && KeysUnique(ledger)
    && DigestsStored(port, ledger)
  }

  lemma LinkedSnoc(chain: seq<Event>, e: Event, extend: bool)
    requires Linked(chain)
    requires extend ==> e.body.sequence == if chain == [] then 1 else chain[|chain| - 1].body.sequence + 1
    requires extend ==> e.body.previousDigest == if chain == [] then None else Some(chain[|chain| - 1].digest)
    ensures Linked(chain + if extend then [e] else [])
  {
    if extend {
      var longer := chain + [e];
      if chain != [] {
        assert LinkHolds(chain, |chain| - 1);
      }
      forall i | 0 <= i < |longer|
        ensures LinkHolds(longer, i)
      {
        if i < |chain| {
          assert LinkHolds(chain, i);
        }
      }
    } else {
      assert chain + [] == chain;
    }
  }

  lemma StepKeepsWellFormed(port: Port, ledger: seq<Event>, input: AppendInput)
    requires WellFormed(port, ledger)
    ensures WellFormed(port, Step(port, ledger, input))
  {
    var after := Step(port, ledger, input);
    if after != ledger {
      var record := ParseInput(port, input).value;
      var key := ScopeKey(record.scope);
      FindFinds(ledger, record.idempotencyKey, key);
      var event := after[|ledger|];
      assert after == ledger + [event];
      forall k: string
        ensures Linked(Scoped(after, k))
      {
        var scoped := Scoped(ledger, k);
        assert Linked(scoped);
        ScopedSnoc(ledger, event, k);
        LinkedSnoc(scoped, event, EventKey(event) == k);
      }
    }
  }

  /** Any interleaving of appends over any scopes keeps every scope linked, its idempotency keys
      distinct and its digests as the port gave them. */
  lemma {:induction false} RunKeepsWellFormed(port: Port, ledger: seq<Event>, inputs: seq<AppendInput>)
    requires WellFormed(port, ledger)
    ensures WellFormed(port, Run(port, ledger, inputs))
  {
    if inputs != [] {
      RunKeepsWellFormed(port, ledger, inputs[..|inputs| - 1]);
      StepKeepsWellFormed(port, Run(port, ledger, inputs[..|inputs| - 1]), inputs[|inputs| - 1]);
    }
  }

  lemma {:induction false} RunOnlyAppends(port: Port, ledger: seq<Event>, inputs: seq<AppendInput>)
    ensures ledger <= Run(port, ledger, inputs)
  {
    if inputs != [] {
      RunOnlyAppends(port, ledger, inputs[..|inputs| - 1]);
    }
  }

  // ---- tenants do not see each other -----------------------------------------------------

  /** The inputs a scope would have sent alone. */
  function ForScope(inputs: seq<AppendInput>, key: string): seq<AppendInput> {
    if inputs == [] then []
    else
      var init := ForScope(inputs[..|inputs| - 1], key);
      var last := inputs[|inputs| - 1];
      if last.scope.Some? && ScopeKey(last.scope.value) == key then init + [last] else init
  }

  /** The event a step adds, read off the append. */
  function NewEvent(port: Port, ledger: seq<Event>, input: AppendInput): Option<Event> {
    match ParseInput(port, input)
    case Rejected(_) => None
    case Accepted(record) => EventFor(port, ledger, record)
  }

  function EventFor(port: Port, ledger: seq<Event>, record: Body): Option<Event> {
    var key := ScopeKey(record.scope);
    if Find(ledger, record.idempotencyKey, key).Some? then None else Sealed(port, Link(record, Scoped(ledger, key)))
  }

  function Sealed(port: Port, body: Body): Option<Event> {
    match port.text(port.DigestOf(body), DIGEST_LENGTH)
    case None => None
    case Some(digest) => Some(Event(body, digest))
  }

  lemma StepAddsNewEvent(port: Port, ledger: seq<Event>, input: AppendInput)
    ensures match NewEvent(port, ledger, input)
            case None => Step(port, ledger, input) == ledger
            case Some(e) => Step(port, ledger, input) == ledger + [e] && input.scope == Some(e.body.scope)
  {
  }

  lemma ScopedTwice(events: seq<Event>, key: string)
    ensures Scoped(Scoped(events, key), key) == Scoped(events, key)
  {
    ScopedMembers(events, key);
    ScopedAlone(Scoped(events, key), key);
  }

  lemma EventForReadsOwnScope(port: Port, ledger: seq<Event>, record: Body)
    ensures EventFor(port, ledger, record) == EventFor(port, Scoped(ledger, ScopeKey(record.scope)), record)
  {
    ScopedTwice(ledger, ScopeKey(record.scope));
    FindInScope(ledger, record.idempotencyKey, ScopeKey(record.scope));
  }

  lemma ParsedScope(port: Port, input: AppendInput)
    ensures match ParseInput(port, input) case Rejected(_) => true case Accepted(record) => input.scope == Some(record.scope)
  {
  }

  lemma NewEventReadsOwnScope(port: Port, ledger: seq<Event>, input: AppendInput, key: string)
    requires input.scope.Some? && ScopeKey(input.scope.value) == key
    ensures NewEvent(port, ledger, input) == NewEvent(port, Scoped(ledger, key), input)
  {
    ParsedScope(port, input);
    match ParseInput(port, input)
    case Rejected(_) =>
    case Accepted(record) => EventForReadsOwnScope(port, ledger, record);
  }

  lemma StepStaysInScope(port: Port, ledger: seq<Event>, input: AppendInput, key: string)
    ensures Scoped(Step(port, ledger, input), key)
            == if input.scope.Some? && ScopeKey(input.scope.value) == key
               then Step(port, Scoped(ledger, key), input)
               else Scoped(ledger, key)
  {
    var scoped := Scoped(ledger, key);
    StepAddsNewEvent(port, ledger, input);
    StepAddsNewEvent(port, scoped, input);
    var added := NewEvent(port, ledger, input);
    if added.Some? {
      ScopedSnoc(ledger, added.value, key);
    }
    if input.scope.Some? && ScopeKey(input.scope.value) == key {
      NewEventReadsOwnScope(port, ledger, input, key);
    }
  }

  /** Non-interference: what one tenant sees of an interleaved run is the run of its own
      appends alone. */
  lemma {:induction false} ProjectionIsOwnRun(port: Port, ledger: seq<Event>, inputs: seq<AppendInput>, key: string)
    ensures Scoped(Run(port, ledger, inputs), key) == Run(port, Scoped(ledger, key), ForScope(inputs, key))
  {
    if inputs != [] {
      var init, last := inputs[..|inputs| - 1], inputs[|inputs| - 1];
      ProjectionIsOwnRun(port, ledger, init, key);
      var before, own := Run(port, ledger, init), ForScope(init, key);
      assert (own + [last])[..|own|] == own;
      StepStaysInScope(port, before, last, key);
    }
  }

  // ---- replay ----------------------------------------------------------------------------

  /** Idempotency: however many appends of whatever tenants came in between, replaying an
      accepted append returns the event it first returned and leaves the ledger alone. */
  lemma ReplayReturnsTheSameEvent(port: Port, ledger: seq<Event>, input: AppendInput, others: seq<AppendInput>)
    requires Append(port, ledger, input).Accepted?
    ensures var Appended(after, event) := Append(port, ledger, input).value;
            var later := Run(port, after, others);
            Append(port, later, input) == Accepted(Appended(later, event))
  {
    var Appended(after, event) := Append(port, ledger, input).value;
    var record := ParseInput(port, input).value;
    var key := ScopeKey(record.scope);
    FindFinds(ledger, record.idempotencyKey, key);
    assert Find(after, record.idempotencyKey, key) == Some(event) by {
      if after != ledger {
        assert after[..|after| - 1] == ledger;
      }
    }
    var later := Run(port, after, others);
    RunOnlyAppends(port, after, others);
    assert later == after + later[|after|..];
    FindKeepsFirst(after, later[|after|..], record.idempotencyKey, key);
  }

  /** A second event under a used idempotency key is refused, whatever else it says. */
  lemma ReusedKeyConflicts(port: Port, ledger: seq<Event>, input: AppendInput, e: Event)
    requires ParseInput(port, input).Accepted? && KeysUnique(ledger)
    requires e in ledger && input.scope == Some(e.body.scope)
    requires port.text(input.idempotencyKey, 200) == Some(e.body.idempotencyKey)
    ensures input.eventId != Some(e.body.eventId) ==> Append(port, ledger, input) == Rejected(IdempotencyConflict)
    ensures input.eventId == Some(e.body.eventId) ==> Append(port, ledger, input) == Accepted(Appended(ledger, e))
  {
    var key := EventKey(e);
    FindFinds(ledger, e.body.idempotencyKey, key);
    var found := Find(ledger, e.body.idempotencyKey, key).value;
    var i :| 0 <= i < |ledger| && ledger[i] == e;
    var j :| 0 <= j < |ledger| && ledger[j] == found;
    assert i == j;
  }
}
