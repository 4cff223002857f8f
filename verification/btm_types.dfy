/** The values the "break the monolith" redesign works on: the resource snapshot
    read from the data store, the prompt sent to the generative service, the raw
    proposal that comes back, and the reconciled proposal handed to the caller. */
module BtmTypes {
  import opened Wrappers
  import J = Json
  import DataTypes

  // ----- ground truth: the resource snapshot -----

  /** A field of an entity version; `properties` is the field's free-form settings
      object (a Lookup field keeps its target under "relatedEntityId"). */
  datatype Field = Field(
    name: string,
    displayName: string,
    dataType: DataTypes.EnumDataType,
    properties: map<string, J.Json>)

  datatype EntityVersion = EntityVersion(fields: seq<Field>)

  /** An entity with the versions the snapshot query selected (only version 0 is
      selected, so there is at most one, and possibly none). */
  datatype Entity = Entity(
    id: string,
    name: string,
    displayName: string,
    versions: seq<EntityVersion>)

  /** `ResourceDataForBtm`: a resource with its non-deleted entities. */
  datatype Resource = Resource(
    id: string,
    name: string,
    projectId: Option<string>,
    entities: seq<Entity>)

  /** The resources the data store can find, by id. */
  type ResourceStore = map<string, Resource>

  // ----- the prompt -----

  /** A prompt field; `dataType` is `None` when the source's value is `undefined`,
      which serialization omits. */
  datatype PromptField = PromptField(name: string, dataType: Option<string>)

  datatype PromptDataModel = PromptDataModel(name: string, fields: seq<PromptField>)

  /** `BreakTheMonolithPromptInput`. */
  datatype Prompt = Prompt(dataModels: seq<PromptDataModel>)

  // ----- the generative result -----

  /** One element of the parsed `microservices` array; each member is whatever
      the element carried under that key (`None`: the key was absent). */
  datatype RawMicroservice = RawMicroservice(
    name: Option<J.Json>,
    functionality: Option<J.Json>,
    dataModels: Option<J.Json>)

  /** `BreakTheMonolithOutput`. */
  datatype BtmOutput = BtmOutput(microservices: seq<RawMicroservice>)

  /** A raw microservice whose `dataModels` turned out to be an array. */
  datatype Proposal = Proposal(
    name: Option<J.Json>,
    functionality: Option<J.Json>,
    names: seq<J.Json>)

  // ----- the reconciled result -----

  /** A proposed entity, with the id of the original entity of that name
      (`None` would be the source's `undefined`). */
  datatype DataModel = DataModel(name: string, originalEntityId: Option<string>)

  datatype Microservice = Microservice(
    name: Option<J.Json>,
    functionality: Option<J.Json>,
    dataModels: seq<DataModel>)

  // ----- errors -----

  datatype BtmError =
    /** `AmplicationError(INVALID_RESOURCE_ID)`: the resource id does not resolve. */
    | InvalidResourceId
    /** `GptBadFormatResponseError`, carrying the raw payload (the source keeps its
        JSON string encoding; serialization is not modelled). */
    | GptBadFormatResponse(payload: string)
    /** A `TypeError` from reading the result's `dataModels` as an array. */
    | MalformedDataModels
    /** A `TypeError` while building the prompt (no entities, or an entity
        without its version 0). */
    | PromptTypeError
    /** `AmplicationError(message)` raised when tracking an event fails. */
    | TrackingFailed(message: string)

  // ----- helpers over entity lists -----

  /** The set of entity names of a snapshot: the reconciler's ground truth. */
  function EntityNames(entities: seq<Entity>): (names: set<string>)
    ensures forall n :: n in names <==> exists i :: 0 <= i < |entities| && entities[i].name == n
  {
    set i | 0 <= i < |entities| :: entities[i].name
  }
}
