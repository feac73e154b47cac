/** The event schema (spec/event.go), its JSON form with omitempty, and the content
    payload that a payload hash commits to (core/payload.go, core/time.go). */
module Content {
  import opened Wrappers

  /** A JSON value as encoding/json decodes it into `any`. */
  datatype Json =
    | JNull
    | JBool(b: bool)
    | JNumber(text: string)
    | JString(s: string)
    | JArray(items: seq<Json>)
    | JObject(members: map<string, Json>)

  // ----- Go values -----

  datatype Source = Source(system: string, service: string, environment: string, region: string, version: string)

  datatype Actor = Actor(kind: string, id: string, displayName: string, email: string, role: string,
                         humanSupervisorId: string, ip: string, userAgent: string, idHash: string)

  datatype Action = Action(name: string, category: string, result: string, reason: string)

  datatype Resource = Resource(kind: string, id: string, idHash: string, tenantId: string, tenantIdHash: string,
                               classification: seq<string>, fieldsAccessed: seq<string>)

  datatype Policy = Policy(decision: string, policyId: string, approvalRequired: Option<bool>,
                           approvalId: string, controlIds: seq<string>)

  datatype RequestCtx = RequestCtx(requestId: string, traceId: string, sessionId: string, sessionIdHash: string)

  /** Timestamps are instants in nanoseconds.  Optional parts and the metadata map may be nil. */
  datatype EventInput = EventInput(
    eventType: string, occurredAt: int, externalEventId: string,
    source: Source, actor: Actor, action: Action, resource: Resource,
    policy: Option<Policy>, request: Option<RequestCtx>, metadata: Option<map<string, Json>>)

  // ----- their JSON objects: a member that omitempty leaves out is None -----

  datatype SourceJson = SourceJson(system: string, service: string, environment: Option<string>,
                                   region: Option<string>, version: Option<string>)

  datatype ActorJson = ActorJson(kind: string, id: Option<string>, displayName: Option<string>, email: Option<string>,
                                 role: Option<string>, humanSupervisorId: Option<string>, ip: Option<string>,
                                 userAgent: Option<string>, idHash: Option<string>)

  datatype ActionJson = ActionJson(name: string, category: string, result: string, reason: Option<string>)

  datatype ResourceJson = ResourceJson(kind: string, id: Option<string>, idHash: Option<string>,
                                       tenantId: Option<string>, tenantIdHash: Option<string>,
                                       classification: Option<seq<string>>, fieldsAccessed: Option<seq<string>>)

  datatype PolicyJson = PolicyJson(decision: Option<string>, policyId: Option<string>, approvalRequired: Option<bool>,
                                   approvalId: Option<string>, controlIds: Option<seq<string>>)

  datatype RequestJson = RequestJson(requestId: Option<string>, traceId: Option<string>,
                                     sessionId: Option<string>, sessionIdHash: Option<string>)

  datatype EventJson = EventJson(
    eventType: string, occurredAt: int, externalEventId: Option<string>,
    source: SourceJson, actor: ActorJson, action: ActionJson, resource: ResourceJson,
    policy: Option<PolicyJson>, request: Option<RequestJson>, metadata: Option<map<string, Json>>)

  // ----- json.Marshal and json.Unmarshal -----

  function OmitEmpty<T>(s: seq<T>): (o: Option<seq<T>>)
    ensures o.GetOr([]) == s
    ensures o != Some([])
  {
    if s == [] then None else Some(s)
  }

  function EncodeSource(s: Source): SourceJson {
    SourceJson(s.system, s.service, OmitEmpty(s.environment), OmitEmpty(s.region), OmitEmpty(s.version))
  }

  function DecodeSource(j: SourceJson): Source {
    Source(j.system, j.service, j.environment.GetOr(""), j.region.GetOr(""), j.version.GetOr(""))
  }

  function EncodeActor(a: Actor): ActorJson {
    ActorJson(a.kind, OmitEmpty(a.id), OmitEmpty(a.displayName), OmitEmpty(a.email), OmitEmpty(a.role),
              OmitEmpty(a.humanSupervisorId), OmitEmpty(a.ip), OmitEmpty(a.userAgent), OmitEmpty(a.idHash))
  }

  function DecodeActor(j: ActorJson): Actor {
    Actor(j.kind, j.id.GetOr(""), j.displayName.GetOr(""), j.email.GetOr(""), j.role.GetOr(""),
          j.humanSupervisorId.GetOr(""), j.ip.GetOr(""), j.userAgent.GetOr(""), j.idHash.GetOr(""))
  }

  function EncodeAction(a: Action): ActionJson {
    ActionJson(a.name, a.category, a.result, OmitEmpty(a.reason))
  }

  function DecodeAction(j: ActionJson): Action {
    Action(j.name, j.category, j.result, j.reason.GetOr(""))
  }

  function EncodeResource(r: Resource): ResourceJson {
    ResourceJson(r.kind, OmitEmpty(r.id), OmitEmpty(r.idHash), OmitEmpty(r.tenantId), OmitEmpty(r.tenantIdHash),
                 OmitEmpty(r.classification), OmitEmpty(r.fieldsAccessed))
  }

  function DecodeResource(j: ResourceJson): Resource {
    Resource(j.kind, j.id.GetOr(""), j.idHash.GetOr(""), j.tenantId.GetOr(""), j.tenantIdHash.GetOr(""),
             j.classification.GetOr([]), j.fieldsAccessed.GetOr([]))
  }

  function EncodePolicy(p: Policy): PolicyJson {
    PolicyJson(OmitEmpty(p.decision), OmitEmpty(p.policyId), p.approvalRequired,
               OmitEmpty(p.approvalId), OmitEmpty(p.controlIds))
  }

  function DecodePolicy(j: PolicyJson): Policy {
    Policy(j.decision.GetOr(""), j.policyId.GetOr(""), j.approvalRequired,
           j.approvalId.GetOr(""), j.controlIds.GetOr([]))
  }

  function EncodeRequest(r: RequestCtx): RequestJson {
    RequestJson(OmitEmpty(r.requestId), OmitEmpty(r.traceId), OmitEmpty(r.sessionId), OmitEmpty(r.sessionIdHash))
  }

  function DecodeRequest(j: RequestJson): RequestCtx {
    RequestCtx(j.requestId.GetOr(""), j.traceId.GetOr(""), j.sessionId.GetOr(""), j.sessionIdHash.GetOr(""))
  }

  /** omitempty leaves out a nil map and an empty map alike; a part that is present is kept. */
  function EncodeMetadata(m: Option<map<string, Json>>): Option<map<string, Json>> {
    if m == Some(map[]) then None else m
  }

  function EncodeEvent(e: EventInput): EventJson {
    EventJson(e.eventType, e.occurredAt, OmitEmpty(e.externalEventId),
              EncodeSource(e.source), EncodeActor(e.actor), EncodeAction(e.action), EncodeResource(e.resource),
              if e.policy.Some? then Some(EncodePolicy(e.policy.value)) else None,
              if e.request.Some? then Some(EncodeRequest(e.request.value)) else None,
              EncodeMetadata(e.metadata))
  }

  function DecodeEvent(j: EventJson): EventInput {
    EventInput(j.eventType, j.occurredAt, j.externalEventId.GetOr(""),
               DecodeSource(j.source), DecodeActor(j.actor), DecodeAction(j.action), DecodeResource(j.resource),
               if j.policy.Some? then Some(DecodePolicy(j.policy.value)) else None,
               if j.request.Some? then Some(DecodeRequest(j.request.value)) else None,
               j.metadata)
  }

  /** The stored envelope of a pending event (eventDataEnvelope). */
  datatype Envelope = Envelope(receivedAt: int, input: EventJson)

  /** Metadata that is absent or has at least one member. */
  predicate MetadataStorable(e: EventInput) {
    e.metadata != Some(map[])
  }

  lemma ActorRoundTrip(a: Actor)
    ensures DecodeActor(EncodeActor(a)) == a
  {
  }

  lemma ResourceRoundTrip(r: Resource)
    ensures DecodeResource(EncodeResource(r)) == r
  {
  }

  /** One trip through storage changes nothing but a present-but-empty metadata map. */
  lemma JsonRoundTrip(e: EventInput)
    ensures DecodeEvent(EncodeEvent(e)) == e.(metadata := if e.metadata == Some(map[]) then None else e.metadata)
    ensures DecodeEvent(EncodeEvent(e)) == e <==> MetadataStorable(e)
  {
    ActorRoundTrip(e.actor);
    ResourceRoundTrip(e.resource);
    assert e.policy.Some? ==> DecodePolicy(EncodePolicy(e.policy.value)) == e.policy.value;
    assert e.request.Some? ==> DecodeRequest(EncodeRequest(e.request.value)) == e.request.value;
  }

  /** Each JSON member carries the Go field of its own name: the required ones always, the others
      exactly when they are not empty. */
  lemma EventMembers(e: EventInput)
    ensures var j := EncodeEvent(e);
            && j.eventType == e.eventType && j.occurredAt == e.occurredAt
            && CarriesOwn(j.externalEventId, e.externalEventId)
            && (j.policy.Some? <==> e.policy.Some?) && (j.request.Some? <==> e.request.Some?)
    ensures var (j, s) := (EncodeEvent(e).source, e.source);
            && j.system == s.system && j.service == s.service && CarriesOwn(j.environment, s.environment)
            && CarriesOwn(j.region, s.region) && CarriesOwn(j.version, s.version)
    ensures var (j, a) := (EncodeEvent(e).actor, e.actor);
            && j.kind == a.kind && CarriesOwn(j.id, a.id) && CarriesOwn(j.displayName, a.displayName)
            && CarriesOwn(j.email, a.email) && CarriesOwn(j.role, a.role)
            && CarriesOwn(j.humanSupervisorId, a.humanSupervisorId) && CarriesOwn(j.ip, a.ip)
            && CarriesOwn(j.userAgent, a.userAgent) && CarriesOwn(j.idHash, a.idHash)
    ensures var (j, a) := (EncodeEvent(e).action, e.action);
            && j.name == a.name && j.category == a.category && j.result == a.result && CarriesOwn(j.reason, a.reason)
    ensures var (j, r) := (EncodeEvent(e).resource, e.resource);
            && j.kind == r.kind && CarriesOwn(j.id, r.id) && CarriesOwn(j.idHash, r.idHash)
            && CarriesOwn(j.tenantId, r.tenantId) && CarriesOwn(j.tenantIdHash, r.tenantIdHash)
            && CarriesOwn(j.classification, r.classification) && CarriesOwn(j.fieldsAccessed, r.fieldsAccessed)
    ensures e.policy.Some? ==>
              var (j, p) := (EncodeEvent(e).policy.value, e.policy.value);
              && CarriesOwn(j.decision, p.decision) && CarriesOwn(j.policyId, p.policyId)
              && j.approvalRequired == p.approvalRequired && CarriesOwn(j.approvalId, p.approvalId)
              && CarriesOwn(j.controlIds, p.controlIds)
    ensures e.request.Some? ==>
              var (j, r) := (EncodeEvent(e).request.value, e.request.value);
              && CarriesOwn(j.requestId, r.requestId) && CarriesOwn(j.traceId, r.traceId)
              && CarriesOwn(j.sessionId, r.sessionId) && CarriesOwn(j.sessionIdHash, r.sessionIdHash)
  {
  }

  /** Present exactly when the field is not empty, and then the field. */
  predicate CarriesOwn<T(==)>(o: Option<seq<T>>, s: seq<T>) {
    (o.None? <==> s == []) && (o.Some? ==> o.value == s)
  }

  // ----- the content payload -----

  datatype ContentInput = ContentInput(
    organizationId: string, projectId: string, environmentId: string, receivedAt: int, event: EventInput)

  /** Values of the payload map, in the JSON form that gets canonicalized. */
  datatype Value =
    | Text(text: string)
    | Instant(milliseconds: int)
    | SourceDoc(source: SourceJson)
    | ActorDoc(actor: ActorJson)
    | ActionDoc(action: ActionJson)
    | ResourceDoc(resource: ResourceJson)
    | PolicyDoc(policy: PolicyJson)
    | RequestDoc(request: RequestJson)
    | MetadataDoc(metadata: map<string, Json>)

  /** The member names of the payload object. */
  datatype Member =
    | OrganizationId | ProjectId | EnvironmentId | ReceivedAt | EventType | OccurredAt
    | SourceMember | ActorMember | ActionMember | ResourceMember
    | ExternalEventId | PolicyMember | RequestMember | MetadataMember

  type Payload = map<Member, Value>

  const NANOS_PER_MILLI := 1_000_000
  const NANOS_PER_MICRO := 1_000

  /** HashTime keeps whole milliseconds; the textual form is one-to-one with them. */
  function HashTime(t: int): Value {
    Instant(t / NANOS_PER_MILLI)
  }

  /** Truncate(time.Millisecond), as Accept applies it to the receive time. */
  function TruncateMilli(t: int): int {
    t - t % NANOS_PER_MILLI
  }

  /** A timestamptz column keeps microseconds. */
  function TimestampColumn(t: int): int {
    t - t % NANOS_PER_MICRO
  }

  /** A receive time truncated at accept is stored unchanged and hashed unchanged. */
  lemma ReceivedAtSurvives(t: int)
    ensures TruncateMilli(t) % 1_000_000 == 0 && TruncateMilli(t) <= t < TruncateMilli(t) + 1_000_000
    ensures TimestampColumn(t) % 1_000 == 0 && TimestampColumn(t) <= t < TimestampColumn(t) + 1_000
    ensures TimestampColumn(TruncateMilli(t)) == TruncateMilli(t)
    ensures HashTime(TruncateMilli(t)) == HashTime(t)
  {
    var q := t / NANOS_PER_MILLI;
    assert TruncateMilli(t) == q * NANOS_PER_MILLI == (q * 1000) * NANOS_PER_MICRO;
    assert (q * NANOS_PER_MILLI) / NANOS_PER_MILLI == q;
  }

  function ExternalIdValue(e: EventInput): Option<Value> {
    if e.externalEventId != "" then Some(Text(e.externalEventId)) else None
  }

  function PolicyValue(e: EventInput): Option<Value> {
    if e.policy.Some? then Some(PolicyDoc(EncodePolicy(e.policy.value))) else None
  }

  function RequestValue(e: EventInput): Option<Value> {
    if e.request.Some? then Some(RequestDoc(EncodeRequest(e.request.value))) else None
  }

  /** A nil check only: a present-but-empty metadata map is hashed. */
  function MetadataValue(e: EventInput): Option<Value> {
    if e.metadata.Some? then Some(MetadataDoc(e.metadata.value)) else None
  }

  /** The value of each member, or None where the payload has no such member. */
  function MemberValue(c: ContentInput, m: Member): Option<Value> {
    match m
    case OrganizationId => Some(Text(c.organizationId))
    case ProjectId => Some(Text(c.projectId))
    case EnvironmentId => Some(Text(c.environmentId))
    case ReceivedAt => Some(HashTime(c.receivedAt))
    case EventType => Some(Text(c.event.eventType))
    case OccurredAt => Some(HashTime(c.event.occurredAt))
    case SourceMember => Some(SourceDoc(EncodeSource(c.event.source)))
    case ActorMember => Some(ActorDoc(EncodeActor(c.event.actor)))
    case ActionMember => Some(ActionDoc(EncodeAction(c.event.action)))
    case ResourceMember => Some(ResourceDoc(EncodeResource(c.event.resource)))
    case ExternalEventId => ExternalIdValue(c.event)
    case PolicyMember => PolicyValue(c.event)
    case RequestMember => RequestValue(c.event)
    case MetadataMember => MetadataValue(c.event)
  }

  function ContentPayload(c: ContentInput): Payload {
    map m: Member | MemberValue(c, m).Some? :: MemberValue(c, m).value
  }

  function Lookup(p: Payload, key: Member): Option<Value> {
    if key in p then Some(p[key]) else None
  }

  function RequiredMembers(c: ContentInput): Payload {
    map[OrganizationId := Text(c.organizationId),
        ProjectId := Text(c.projectId),
        EnvironmentId := Text(c.environmentId),
        ReceivedAt := HashTime(c.receivedAt),
        EventType := Text(c.event.eventType),
        OccurredAt := HashTime(c.event.occurredAt),
        SourceMember := SourceDoc(EncodeSource(c.event.source)),
        ActorMember := ActorDoc(EncodeActor(c.event.actor)),
        ActionMember := ActionDoc(EncodeAction(c.event.action)),
        ResourceMember := ResourceDoc(EncodeResource(c.event.resource))]
  }

  predicate IsOptional(m: Member) {
    m.ExternalEventId? || m.PolicyMember? || m.RequestMember? || m.MetadataMember?
  }

  lemma RequiredMembersRead(c: ContentInput, m: Member)
    ensures Lookup(RequiredMembers(c), m) == if IsOptional(m) then None else MemberValue(c, m)
  {
    hide EncodeSource, EncodeActor, EncodeAction, EncodeResource, HashTime, ExternalIdValue, PolicyValue,
         RequestValue, MetadataValue;
  }

  function Put(p: Payload, m: Member, v: Option<Value>): Payload {
    if v.Some? then p[m := v.value] else p
  }

  function WithOptional(c: ContentInput, p: Payload): Payload {
    Put(Put(Put(Put(p, ExternalEventId, ExternalIdValue(c.event)),
                PolicyMember, PolicyValue(c.event)),
            RequestMember, RequestValue(c.event)),
        MetadataMember, MetadataValue(c.event))
  }

  lemma WithOptionalRead(c: ContentInput, p: Payload, m: Member)
    requires IsOptional(m) ==> m !in p
    ensures Lookup(WithOptional(c, p), m) == if IsOptional(m) then MemberValue(c, m) else Lookup(p, m)
  {
    hide EncodeSource, EncodeActor, EncodeAction, EncodeResource, HashTime, ExternalIdValue, PolicyValue,
         RequestValue, MetadataValue;
    var p1 := Put(p, ExternalEventId, ExternalIdValue(c.event));
    var p2 := Put(p1, PolicyMember, PolicyValue(c.event));
    var p3 := Put(p2, RequestMember, RequestValue(c.event));
    assert Lookup(p1, m) == if m.ExternalEventId? then MemberValue(c, m) else Lookup(p, m);
    assert Lookup(p2, m) == if m.PolicyMember? then MemberValue(c, m) else Lookup(p1, m);
    assert Lookup(p3, m) == if m.RequestMember? then MemberValue(c, m) else Lookup(p2, m);
  }

  lemma AssembledPayload(c: ContentInput)
    ensures WithOptional(c, RequiredMembers(c)) == ContentPayload(c)
  {
    var p := WithOptional(c, RequiredMembers(c));
    forall m ensures Lookup(p, m) == Lookup(ContentPayload(c), m) {
      RequiredMembersRead(c, m);
      WithOptionalRead(c, RequiredMembers(c), m);
    }
    SamePayload(p, ContentPayload(c));
  }

  lemma SamePayload(p: Payload, q: Payload)
    requires forall m :: Lookup(p, m) == Lookup(q, m)
    ensures p == q
  {
    forall m ensures (m in p <==> m in q) && (m in p ==> p[m] == q[m]) {
      assert Lookup(p, m) == Lookup(q, m);
    }
  }

  /** BuildContentPayload: the fixed members, then each optional one when present. */
  method BuildContentPayload(c: ContentInput) returns (p: Payload)
    ensures p == ContentPayload(c)
    ensures Lookup(p, OrganizationId) == Some(Text(c.organizationId))
    ensures Lookup(p, ProjectId) == Some(Text(c.projectId))
    ensures Lookup(p, EnvironmentId) == Some(Text(c.environmentId))
    ensures Lookup(p, ReceivedAt) == Some(Instant(c.receivedAt / 1_000_000))
    ensures Lookup(p, EventType) == Some(Text(c.event.eventType))
    ensures Lookup(p, OccurredAt) == Some(Instant(c.event.occurredAt / 1_000_000))
    ensures Lookup(p, SourceMember) == Some(SourceDoc(EncodeEvent(c.event).source))
    ensures Lookup(p, ActorMember) == Some(ActorDoc(EncodeEvent(c.event).actor))
    ensures Lookup(p, ActionMember) == Some(ActionDoc(EncodeEvent(c.event).action))
    ensures Lookup(p, ResourceMember) == Some(ResourceDoc(EncodeEvent(c.event).resource))
    ensures Lookup(p, ExternalEventId) == if c.event.externalEventId == "" then None else Some(Text(c.event.externalEventId))
    ensures Lookup(p, PolicyMember)
            == if c.event.policy.None? then None else Some(PolicyDoc(EncodeEvent(c.event).policy.value))
    ensures Lookup(p, RequestMember)
            == if c.event.request.None? then None else Some(RequestDoc(EncodeEvent(c.event).request.value))
    ensures Lookup(p, MetadataMember) == if c.event.metadata.None? then None else Some(MetadataDoc(c.event.metadata.value))
  {
    var e := c.event;
    p := RequiredMembers(c);
    if e.externalEventId != "" {
      p := p[ExternalEventId := Text(e.externalEventId)];
    }
    if e.policy.Some? {
      p := p[PolicyMember := PolicyDoc(EncodePolicy(e.policy.value))];
    }
    if e.request.Some? {
      p := p[RequestMember := RequestDoc(EncodeRequest(e.request.value))];
    }
    if e.metadata.Some? {
      p := p[MetadataMember := MetadataDoc(e.metadata.value)];
    }
    assert p == WithOptional(c, RequiredMembers(c));
    AssembledPayload(c);
    hide MemberValue, EncodeEvent, HashTime, ContentPayload, Put, WithOptional, RequiredMembers, Lookup;
    forall m ensures Lookup(p, m) == MemberValue(c, m) {
      PayloadMembers(c, m);
    }
    MemberValues(c);
  }

  /** The parts of an event are encoded one by one. */
  lemma EncodedParts(e: EventInput)
    ensures EncodeEvent(e).source == EncodeSource(e.source) && EncodeEvent(e).actor == EncodeActor(e.actor)
    ensures EncodeEvent(e).action == EncodeAction(e.action) && EncodeEvent(e).resource == EncodeResource(e.resource)
    ensures e.policy.Some? ==> EncodeEvent(e).policy == Some(EncodePolicy(e.policy.value))
    ensures e.request.Some? ==> EncodeEvent(e).request == Some(EncodeRequest(e.request.value))
  {
    hide EncodeSource, EncodeActor, EncodeAction, EncodeResource, EncodePolicy, EncodeRequest, EncodeMetadata;
  }

  lemma MemberValues(c: ContentInput)
    ensures MemberValue(c, OrganizationId) == Some(Text(c.organizationId))
    ensures MemberValue(c, ProjectId) == Some(Text(c.projectId))
    ensures MemberValue(c, EnvironmentId) == Some(Text(c.environmentId))
    ensures MemberValue(c, ReceivedAt) == Some(Instant(c.receivedAt / 1_000_000))
    ensures MemberValue(c, EventType) == Some(Text(c.event.eventType))
    ensures MemberValue(c, OccurredAt) == Some(Instant(c.event.occurredAt / 1_000_000))
    ensures MemberValue(c, SourceMember) == Some(SourceDoc(EncodeEvent(c.event).source))
    ensures MemberValue(c, ActorMember) == Some(ActorDoc(EncodeEvent(c.event).actor))
    ensures MemberValue(c, ActionMember) == Some(ActionDoc(EncodeEvent(c.event).action))
    ensures MemberValue(c, ResourceMember) == Some(ResourceDoc(EncodeEvent(c.event).resource))
    ensures MemberValue(c, ExternalEventId) == if c.event.externalEventId == "" then None else Some(Text(c.event.externalEventId))
    ensures MemberValue(c, PolicyMember)
            == if c.event.policy.None? then None else Some(PolicyDoc(EncodeEvent(c.event).policy.value))
    ensures MemberValue(c, RequestMember)
            == if c.event.request.None? then None else Some(RequestDoc(EncodeEvent(c.event).request.value))
    ensures MemberValue(c, MetadataMember) == if c.event.metadata.None? then None else Some(MetadataDoc(c.event.metadata.value))
  {
    EncodedParts(c.event);
    hide EncodeEvent, EncodeSource, EncodeActor, EncodeAction, EncodeResource, EncodePolicy, EncodeRequest;
  }

  lemma PayloadMembers(c: ContentInput, m: Member)
    ensures Lookup(ContentPayload(c), m) == MemberValue(c, m)
  {
  }

  /** Two contents have the same payload exactly when they agree on every member. */
  lemma PayloadEquality(c: ContentInput, d: ContentInput)
    ensures ContentPayload(c) == ContentPayload(d) <==> forall m :: MemberValue(c, m) == MemberValue(d, m)
  {
    if ContentPayload(c) == ContentPayload(d) {
      forall m ensures MemberValue(c, m) == MemberValue(d, m) {
        PayloadMembers(c, m);
        PayloadMembers(d, m);
      }
    }
  }

  /** What the payload commits to: two contents have the same payload exactly when they have the
      same identifiers and the same event, up to fractions of a millisecond. */
  lemma PayloadCommits(c: ContentInput, d: ContentInput)
    ensures ContentPayload(c) == ContentPayload(d)
      <==> && c.organizationId == d.organizationId && c.projectId == d.projectId && c.environmentId == d.environmentId
           && c.receivedAt / 1_000_000 == d.receivedAt / 1_000_000
           && c.event.occurredAt / 1_000_000 == d.event.occurredAt / 1_000_000
           && c.event.(occurredAt := d.event.occurredAt) == d.event
  {
    PayloadEquality(c, d);
    if ContentPayload(c) == ContentPayload(d) {
      EqualMembersEqualEvents(c, d);
    } else if c.event.(occurredAt := d.event.occurredAt) == d.event {
      hide EncodeSource, EncodeActor, EncodeAction, EncodeResource, EncodePolicy, EncodeRequest;
    }
  }

  /** The members of a payload determine the parts of the event. */
  lemma EqualMembersEqualEvents(c: ContentInput, d: ContentInput)
    requires forall m :: MemberValue(c, m) == MemberValue(d, m)
    ensures c.organizationId == d.organizationId && c.projectId == d.projectId && c.environmentId == d.environmentId
    ensures HashTime(c.receivedAt) == HashTime(d.receivedAt) && HashTime(c.event.occurredAt) == HashTime(d.event.occurredAt)
    ensures c.event.(occurredAt := d.event.occurredAt) == d.event
  {
    hide EncodeSource, EncodeActor, EncodeAction, EncodeResource, HashTime, PolicyValue, RequestValue;
    assert MemberValue(c, OrganizationId) == MemberValue(d, OrganizationId);
    assert MemberValue(c, ProjectId) == MemberValue(d, ProjectId);
    assert MemberValue(c, EnvironmentId) == MemberValue(d, EnvironmentId);
    assert MemberValue(c, ReceivedAt) == MemberValue(d, ReceivedAt);
    assert MemberValue(c, EventType) == MemberValue(d, EventType);
    assert MemberValue(c, OccurredAt) == MemberValue(d, OccurredAt);
    assert MemberValue(c, SourceMember) == MemberValue(d, SourceMember);
    assert MemberValue(c, ActorMember) == MemberValue(d, ActorMember);
    assert MemberValue(c, ActionMember) == MemberValue(d, ActionMember);
    assert MemberValue(c, ResourceMember) == MemberValue(d, ResourceMember);
    assert MemberValue(c, ExternalEventId) == MemberValue(d, ExternalEventId);
    assert MemberValue(c, PolicyMember) == MemberValue(d, PolicyMember);
    assert MemberValue(c, RequestMember) == MemberValue(d, RequestMember);
    assert MemberValue(c, MetadataMember) == MemberValue(d, MetadataMember);
    EqualPartsEqualEvents(c.event, d.event);
  }

  /** Parts with equal JSON are equal. */
  lemma EqualPartsEqualEvents(x: EventInput, y: EventInput)
    requires x.eventType == y.eventType && x.externalEventId == y.externalEventId && x.metadata == y.metadata
    requires EncodeSource(x.source) == EncodeSource(y.source) && EncodeActor(x.actor) == EncodeActor(y.actor)
    requires EncodeAction(x.action) == EncodeAction(y.action) && EncodeResource(x.resource) == EncodeResource(y.resource)
    requires PolicyValue(x) == PolicyValue(y) && RequestValue(x) == RequestValue(y)
    ensures x.(occurredAt := y.occurredAt) == y
  {
    JsonRoundTrip(x);
    JsonRoundTrip(y);
    hide EncodeSource, EncodeActor, EncodeAction, EncodeResource, EncodePolicy, EncodeRequest;
    hide DecodeSource, DecodeActor, DecodeAction, DecodeResource, DecodePolicy, DecodeRequest;
  }

  /** What verification reconstructs after an event went through storage `trips` times. */
  function Stored(e: EventInput, trips: nat): EventInput {
    if trips == 0 then e else DecodeEvent(EncodeEvent(Stored(e, trips - 1)))
  }

  lemma {:induction false} StoredIsOneTrip(e: EventInput, trips: nat)
    requires trips >= 1
    ensures Stored(e, trips) == e.(metadata := EncodeMetadata(e.metadata))
  {
    hide EncodeEvent, DecodeEvent;
    JsonRoundTrip(Stored(e, trips - 1));
    if trips > 1 {
      StoredIsOneTrip(e, trips - 1);
    }
  }

  /** The metadata and the project are members of their own; no other member reads them. */
  lemma OtherMembersKept(c: ContentInput, metadata: Option<map<string, Json>>, project: string, m: Member)
    requires m != ProjectId && m != MetadataMember
    ensures MemberValue(c.(event := c.event.(metadata := metadata), projectId := project), m) == MemberValue(c, m)
  {
  }

  /** Content survives storage with an equal payload exactly when the metadata is not a
      present-but-empty map and the project is the one that was hashed. */
  lemma PayloadSurvivesStorage(c: ContentInput, trips: nat, project: string)
    requires trips >= 1
    ensures ContentPayload(c.(event := Stored(c.event, trips), projectId := project)) == ContentPayload(c)
      <==> MetadataStorable(c.event) && project == c.projectId
  {
    var metadata := EncodeMetadata(c.event.metadata);
    var d := c.(event := c.event.(metadata := metadata), projectId := project);
    StoredIsOneTrip(c.event, trips);
    PayloadEquality(d, c);
    assert MemberValue(d, ProjectId) == MemberValue(c, ProjectId) <==> project == c.projectId;
    assert MemberValue(d, MetadataMember) == MemberValue(c, MetadataMember) <==> MetadataStorable(c.event);
    forall m | m != ProjectId && m != MetadataMember ensures MemberValue(d, m) == MemberValue(c, m) {
      OtherMembersKept(c, metadata, project, m);
    }
  }
}
