/** `ResourceBtmService`: the not-found rule of the snapshot read, parsing of the
    generative result, `prepareBtmRecommendations`, the status gate of
    `finalizeBreakServiceIntoMicroservices`, and the request built by
    `triggerBreakServiceIntoMicroservices`. The data store, the generative service
    and the job store are given as values; tracking is an opaque outcome. */
module ResourceBtm {
  import opened Wrappers
  import opened J = Json
  import opened BtmTypes
  import Prompt
  import Reconcile

  // ----- the snapshot read -----

  /** `getResourceDataForBtm`: a resource the store does not hold raises
      `INVALID_RESOURCE_ID`; otherwise the stored snapshot is returned. */
  function GetResourceDataForBtm(store: ResourceStore, resourceId: string): (r: Result<Resource, BtmError>)
    ensures r.Failure? <==> resourceId !in store
    ensures r.Failure? ==> r.error == InvalidResourceId
    ensures r.Success? ==> r.value == store[resourceId]
  {
    if resourceId in store then Success(store[resourceId]) else Failure(InvalidResourceId)
  }

  // ----- parsing the generative result -----

  /** The shape `JSON.parse(...).microservices.map(...)` accepts without throwing:
      an object whose `microservices` member is an array with no `null` element
      (reading a member of `null` throws; of any other value, it yields `undefined`). */
  predicate WellShaped(parsed: Option<Json>)
  {
    && parsed.Some?
    && parsed.value.JObject?
    && "microservices" in parsed.value.members
    && parsed.value.members["microservices"].JArray?
    && forall i :: 0 <= i < |parsed.value.members["microservices"].items| ==>
         parsed.value.members["microservices"].items[i] != JNull
  }

  function ToRawMicroservice(v: Json): RawMicroservice
  {
    RawMicroservice(Member(v, "name"), Member(v, "functionality"), Member(v, "dataModels"))
  }

  /** `mapToBreakTheMonolithOutput`: any failure to parse or to read the expected
      shape becomes `GptBadFormatResponseError` carrying the raw payload. On success
      each element keeps its position and its `name`, `functionality` and
      `dataModels`, none of which is validated here. */
  function MapToBreakTheMonolithOutput(payload: Payload): (r: Result<BtmOutput, BtmError>)
    ensures r.Failure? <==> !WellShaped(payload.parsed)
    ensures r.Failure? ==> r.error == GptBadFormatResponse(payload.text)
    ensures r.Success? ==>
      var items := payload.parsed.value.members["microservices"].items;
      && |r.value.microservices| == |items|
      && forall i :: 0 <= i < |items| ==>
           var m := r.value.microservices[i];
           && (m.name.Some? <==> items[i].JObject? && "name" in items[i].members)
           && (m.name.Some? ==> m.name.value == items[i].members["name"])
           && (m.functionality.Some? <==> items[i].JObject? && "functionality" in items[i].members)
           && (m.functionality.Some? ==> m.functionality.value == items[i].members["functionality"])
           && (m.dataModels.Some? <==> items[i].JObject? && "dataModels" in items[i].members)
           && (m.dataModels.Some? ==> m.dataModels.value == items[i].members["dataModels"])
  {
    if !WellShaped(payload.parsed) then Failure(GptBadFormatResponse(payload.text))
    else
      var items := payload.parsed.value.members["microservices"].items;
      Success(BtmOutput(seq(|items|, i requires 0 <= i < |items| => ToRawMicroservice(items[i]))))
  }

  /** Writes a present member into an object, leaving absent ones out (as
      serialization drops `undefined`). */
  function Put(members: map<string, Json>, key: string, value: Option<Json>): map<string, Json>
  {
    if value.Some? then members[key := value.value] else members
  }

  function EncodeMicroservice(m: RawMicroservice): Json
  {
    JObject(Put(Put(Put(map[], "name", m.name), "functionality", m.functionality), "dataModels", m.dataModels))
  }

  /** The JSON value of a `BreakTheMonolithOutput`. */
  function EncodeOutput(o: BtmOutput): Json
  {
    JObject(map["microservices" := JArray(seq(|o.microservices|, i requires 0 <= i < |o.microservices| =>
      EncodeMicroservice(o.microservices[i])))])
  }

  /** Parsing what a well-formed output encodes to gives that output back. */
  lemma ParseRoundTrip(o: BtmOutput, text: string)
    ensures MapToBreakTheMonolithOutput(Payload(text, Some(EncodeOutput(o)))) == Success(o)
  {
    var r := MapToBreakTheMonolithOutput(Payload(text, Some(EncodeOutput(o))));
    var items := EncodeOutput(o).members["microservices"].items;
    assert WellShaped(Some(EncodeOutput(o)));
    forall i | 0 <= i < |items| ensures r.value.microservices[i] == o.microservices[i] {
      assert items[i] == EncodeMicroservice(o.microservices[i]);
      DecodeEncodeMicroservice(o.microservices[i]);
    }
    assert r.value.microservices == o.microservices;
  }

  lemma DecodeEncodeMicroservice(m: RawMicroservice)
    ensures ToRawMicroservice(EncodeMicroservice(m)) == m
  {
  }

  // ----- preparing the recommendations -----

  /** The microservices whose `dataModels` are arrays, or `None` when reading one of
      them as an array throws (`sort` reads `.length`, `filter` needs an array). */
  function ToProposals(ms: seq<RawMicroservice>): (r: Option<seq<Proposal>>)
    ensures r.Some? <==> forall i :: 0 <= i < |ms| ==> ms[i].dataModels.Some? && ms[i].dataModels.value.JArray?
    ensures r.Some? ==> |r.value| == |ms|
    ensures r.Some? ==> forall i :: 0 <= i < |ms| ==>
      r.value[i] == Proposal(ms[i].name, ms[i].functionality, ms[i].dataModels.value.items)
  {
    if |ms| == 0 then Some([])
    else if !(ms[0].dataModels.Some? && ms[0].dataModels.value.JArray?) then None
    else
      match ToProposals(ms[1..])
      case None => None
      case Some(rest) =>
        Some([Proposal(ms[0].name, ms[0].functionality, ms[0].dataModels.value.items)] + rest)
  }

  /** The engine's `sort` with the comparator `m => -m.dataModels.length`: since the
      comparator ignores its second argument it defines no order, so the model
      admits any function that returns a permutation of its input. */
  ghost predicate IsReordering(reorder: seq<Proposal> -> seq<Proposal>)
  {
    forall ps :: multiset(reorder(ps)) == multiset(ps)
  }

  /** The invariants of a reconciled proposal: no microservice is empty, no name
      appears twice, the names are exactly the known proposed names, and each data
      model carries the id of the (last) original entity of its name. */
  ghost predicate Reconciled(out: seq<Microservice>, proposals: seq<Proposal>, entities: seq<Entity>)
  {
    && (forall i :: 0 <= i < |out| ==> |out[i].dataModels| > 0)
    && Reconcile.NoDuplicates(Reconcile.OutputNames(out))
    && (forall s :: s in Reconcile.OutputNames(out) <==>
          JString(s) in Reconcile.AllNames(proposals) && s in EntityNames(entities))
    && (forall i, j :: 0 <= i < |out| && 0 <= j < |out[i].dataModels| ==>
          out[i].dataModels[j].originalEntityId.Some? &&
          Reconcile.IsOriginalEntity(entities, out[i].dataModels[j].name,
                                     out[i].dataModels[j].originalEntityId.value))
  }

  /** `prepareBtmRecommendations`. Errors come in the source's order: a malformed
      payload, then a resource that does not resolve, then a `dataModels` that is not
      an array. Otherwise the result is the reconciled proposal, for whatever order
      the reordering produced. */
  function PrepareBtmRecommendations(
    payload: Payload, resourceId: string, store: ResourceStore,
    reorder: seq<Proposal> -> seq<Proposal>): (r: Result<seq<Microservice>, BtmError>)
    requires IsReordering(reorder)
    ensures !WellShaped(payload.parsed) ==> r == Failure(GptBadFormatResponse(payload.text))
    ensures WellShaped(payload.parsed) && resourceId !in store ==> r == Failure(InvalidResourceId)
    ensures WellShaped(payload.parsed) && resourceId in store ==>
      var output := MapToBreakTheMonolithOutput(payload).value;
      var proposals := ToProposals(output.microservices);
      && (proposals.None? <==> r == Failure(MalformedDataModels))
      && (proposals.Some? ==> r.Success? && Reconciled(r.value, proposals.value, store[resourceId].entities))
      && (proposals.Some? ==>
            r.value == Reconcile.ReconcileProposals(proposals.value, reorder(proposals.value), store[resourceId].entities))
  {
    match MapToBreakTheMonolithOutput(payload)
    case Failure(e) => Failure(e)
    case Success(output) =>
      match GetResourceDataForBtm(store, resourceId)
      case Failure(e) => Failure(e)
      case Success(resource) =>
        match ToProposals(output.microservices)
        case None => Failure(MalformedDataModels)
        case Some(proposals) =>
          var ordered := reorder(proposals);
          assert multiset(ordered) == multiset(proposals);
          Success(Reconcile.ReconcileProposals(proposals, ordered, resource.entities))
  }

  // ----- the status gate -----

  /** `EnumUserActionStatus`, as far as the gate distinguishes it. */
  datatype UserActionStatus = Running | Completed | Failed

  /** The job record: the resource it was started for and its stored metadata, a
      JSON value, with `metadataText` its serialization (which is not modelled). */
  datatype UserActionRecord = UserActionRecord(resourceId: string, metadata: Json, metadataText: string)

  /** What the gate hands to the reconciler: the serialized metadata, which parses
      back to the stored value. */
  function MetadataPayload(job: UserActionRecord): Payload
  {
    Payload(job.metadataText, Some(job.metadata))
  }

  /** `BreakServiceToMicroservicesResult`. */
  datatype FinalizeResult = FinalizeResult(
    status: UserActionStatus,
    originalResourceId: string,
    data: Option<seq<Microservice>>)

  /** `finalizeBreakServiceIntoMicroservices`: a job that has not completed yields its
      status and resource with no data, and no reconciliation is attempted; a
      completed one yields the reconciled proposal, or the reconciler's error. */
  function FinalizeBreakServiceIntoMicroservices(
    job: UserActionRecord, status: UserActionStatus, store: ResourceStore,
    reorder: seq<Proposal> -> seq<Proposal>): (r: Result<FinalizeResult, BtmError>)
    requires IsReordering(reorder)
    ensures status != Completed ==> r == Success(FinalizeResult(status, job.resourceId, None))
    ensures status == Completed ==>
      var prepared := PrepareBtmRecommendations(MetadataPayload(job), job.resourceId, store, reorder);
      && (r.Failure? <==> prepared.Failure?)
      && (r.Failure? ==> r.error == prepared.error)
      && (r.Success? ==> r.value.status == Completed && r.value.originalResourceId == job.resourceId &&
                         r.value.data == Some(prepared.value))
  {
    if status != Completed then Success(FinalizeResult(status, job.resourceId, None))
    else
      match PrepareBtmRecommendations(MetadataPayload(job), job.resourceId, store, reorder)
      case Failure(e) => Failure(e)
      case Success(recommendations) => Success(FinalizeResult(Completed, job.resourceId, Some(recommendations)))
  }

  // ----- triggering the redesign -----

  datatype ConversationType = BreakTheMonolith

  datatype ConversationParam = ConversationParam(name: string, value: BtmTypes.Prompt)

  /** What `gptService.startConversation` is called with. */
  datatype ConversationRequest = ConversationRequest(
    conversationType: ConversationType,
    params: seq<ConversationParam>,
    userId: string,
    resourceId: string)

  /** What tracking the event does: billing lookup and analytics call succeed, or one
      of them fails with a message. */
  datatype Tracking = Tracked | TrackingError(message: string)

  /** The conversation request that was submitted (if any) and the operation's result. */
  datatype TriggerResult = TriggerResult(submitted: Option<ConversationRequest>, result: Result<string, BtmError>)

  /** `triggerBreakServiceIntoMicroservices`: the snapshot read and the prompt may
      fail before anything is submitted; once the conversation is started, a
      tracking failure still turns the operation into an `AmplicationError`.
      `started` is the user action id the generative service hands back. */
  function TriggerBreakServiceIntoMicroservices(
    store: ResourceStore, resourceId: string, userId: string,
    started: string, tracking: Tracking): (r: TriggerResult)
    ensures resourceId !in store ==> r == TriggerResult(None, Failure(InvalidResourceId))
    ensures resourceId in store ==>
      var prompt := Prompt.GeneratePromptForBreakTheMonolith(store[resourceId]);
      && (prompt.Failure? ==> r == TriggerResult(None, Failure(PromptTypeError)))
      && (prompt.Success? ==>
            && r.submitted == Some(ConversationRequest(
                 BreakTheMonolith, [ConversationParam("userInput", prompt.value)], userId, resourceId))
            && (r.result.Success? <==> tracking == Tracked)
            && (r.result.Success? ==> r.result.value == started)
            && (r.result.Failure? ==> r.result.error == TrackingFailed(tracking.message)))
  {
    match GetResourceDataForBtm(store, resourceId)
    case Failure(e) => TriggerResult(None, Failure(e))
    case Success(resource) =>
      match Prompt.GeneratePromptForBreakTheMonolith(resource)
      case Failure(e) => TriggerResult(None, Failure(e))
      case Success(prompt) =>
        var request := ConversationRequest(
          BreakTheMonolith, [ConversationParam("userInput", prompt)], userId, resourceId);
        match tracking
        case Tracked => TriggerResult(Some(request), Success(started))
        case TrackingError(message) => TriggerResult(Some(request), Failure(TrackingFailed(message)))
  }

  /** The resource lookup gates both entry points: triggering submits nothing and
      fails with the invalid-id error exactly when the lookup fails, and finalizing a
      completed job whose metadata is well shaped fails with that error exactly then. */
  lemma LookupGatesOperations(
    store: ResourceStore, job: UserActionRecord, userId: string, started: string,
    tracking: Tracking, reorder: seq<Proposal> -> seq<Proposal>)
    requires IsReordering(reorder)
    ensures var trigger := TriggerBreakServiceIntoMicroservices(store, job.resourceId, userId, started, tracking);
      && (GetResourceDataForBtm(store, job.resourceId).Failure? <==> trigger.result == Failure(InvalidResourceId))
      && (GetResourceDataForBtm(store, job.resourceId).Failure? ==> trigger.submitted.None?)
    ensures WellShaped(MetadataPayload(job).parsed) ==>
      (GetResourceDataForBtm(store, job.resourceId).Failure? <==>
       FinalizeBreakServiceIntoMicroservices(job, Completed, store, reorder) == Failure(InvalidResourceId))
  {
  }
}
