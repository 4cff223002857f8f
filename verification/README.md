# Break-the-monolith redesign and module guards, modelled in Dafny

This project models two services of the Amplication server.

**`ResourceBtmService`** runs the "break the monolith" redesign of a service resource.
- It projects a resource snapshot into a prompt for the generative service. The snapshot is the resource's entities and their version-0 fields. Each field's data type is translated into a small primitive vocabulary, and a Lookup field is resolved to the name of its related entity.
- It submits that prompt as a conversation request and tracks an analytics event.
- When the job has completed, it reconciles the returned proposal against a fresh snapshot:
  - the raw result is parsed;
  - names proposed more than once are detected;
  - the microservices are reordered;
  - each microservice keeps only the known names that no earlier microservice has claimed;
  - every kept name is given the id of its original entity;
  - microservices left empty are dropped.

**`ModuleService`** guards module blocks:
- a name validator (`^[a-zA-Z0-9._-]{1,249}$`);
- the custom-actions feature flag;
- the rules of `create`/`update`/`delete` for default modules (modules created for an entity), and the mirroring of `displayName` from `name`;
- the lookup of an entity's default module.

## Files

| file | module | contents |
|---|---|---|
| wrappers.dfy | `Wrappers` | `Option` (JavaScript `undefined` as `None`) and `Result` (exceptions as `Failure`) |
| json.dfy | `Json` | parsed JSON values, a payload with its parse outcome, property access |
| assoc.dfy | `Assoc` | a map built from a list of pairs where later pairs overwrite earlier ones, as a `reduce` over an object does |
| datatypes.dfy | `DataTypes` | the 18 entity field data types and the `dataTypeMap` table |
| btm_types.dfy | `BtmTypes` | the snapshot, the prompt, the raw and reconciled proposals, the errors |
| prompt.dfy | `Prompt` | `generatePromptForBreakTheMonolith` |
| duplicates.dfy | `Duplicates` | `findDuplicatedEntities` |
| reconcile.dfy | `Reconcile` | the filter, id-attach and drop-empty pipeline of `prepareBtmRecommendations`, compared with a reference definition |
| btm_service.dfy | `ResourceBtm` | parsing, `prepareBtmRecommendations`, the status gate, the trigger, the snapshot's not-found rule |
| module_service.dfy | `Modules` | `ModuleService` |
| scenarios.dfy | `Scenarios` | worked examples derived from the general contracts |

## How the model reads the code

- **The reconciler's claimed set is an explicit fold accumulator.** A duplicated name is recorded as claimed the first time any microservice lists it, whether or not it is a known entity name. A name is kept when it is known and was not claimed before it was reached.
  - The main theorem (`Reconcile.ProcessAllMatchesReference`) says the kept names, read microservice after microservice, are exactly the known names of the reordered proposal, each taken at its first occurrence.
  - The reference function for this is `Reconcile.FirstKnown`.
- **The sort is a parameter.** The comparator at resourceBtm.service.ts:221 ignores its second argument, so it defines no order and the engine's result is unspecified. The code therefore does not guarantee a descending-by-size order with stable ties.
  - The model takes the reordering as a function argument. Its only requirement is that it returns a permutation of its input.
  - Every reconciliation property is proved for every such reordering.
  - Which microservice keeps a name that several list depends on that order, so the worked examples with two microservices are stated for both orders a permutation of two can take (`Scenarios.ContestedName`, `Scenarios.TwoOrders`).
- **The duplicate set and the reordering use different lists.** Duplicates are counted over the proposal in its original order. The fold runs over the reordered proposal. The model keeps this distinction.
- **The id→name table of the prompt drops the first entity.** It is built by a `reduce` with no initial value, so the accumulator starts as the first entity object itself. Only the entities after the first are entered, and a Lookup field pointing at the first entity gets no data type (`Scenarios.FirstEntityUnresolved`).
  - An empty entity list makes that `reduce` throw a `TypeError`. So does an entity without a version 0.
  - Both are modelled as the error `PromptTypeError`, not as preconditions.
- **The name→id table keeps the last entity of each name.** Later entities overwrite earlier ones in it.
- **Malformed `dataModels` are an error.** If some `dataModels` is not an array, the code throws a `TypeError`: `sort` reads `.length` and `filter` needs an array. This is the error `MalformedDataModels`. It is raised after the resource lookup, matching the order of the code.
- **`update` validates an absent name as text.** `RegExp.prototype.test` converts an absent name to the text `"undefined"`, and that text passes the pattern (`Modules.UndefinedNamePasses`).
- **Truthiness.** "Has an `entityId`" means JavaScript truthiness: present and not the empty string.

## Model

| member | source | states |
|---|---|---|
| DataTypes.DataTypeMap | packages/amplication-server/src/core/resource/resourceBtm.service.ts:30-49 | every data type is mapped, and every mapped value is one of string, int, float, bool, datetime, enum |
| DataTypes.AllDataTypesEnumerated | packages/amplication-server/src/core/resource/resourceBtm.service.ts:30-49 | the table covers 18 distinct data types, and every data type is among them |
| DataTypes.DataTypeMapOntoVocabulary | packages/amplication-server/src/core/resource/resourceBtm.service.ts:30-49 | a word is in the vocabulary iff some data type maps to it; WholeNumber→int, DecimalNumber→float, and only Boolean maps to bool |
| Json.Member | packages/amplication-server/src/core/resource/resourceBtm.service.ts:261-264 | a property read yields a value iff the value is an object holding that key, and then yields that member |
| Assoc.ToMap | packages/amplication-server/src/core/resource/resourceBtm.service.ts:238-244 | the keys are exactly the keys of the pairs, and each key holds the value of its last pair (later writes overwrite earlier ones) |
| Prompt.GeneratePromptForBreakTheMonolith | packages/amplication-server/src/core/resource/resourceBtm.service.ts:173-196 | fails with a type error iff there are no entities or some entity has no version 0; otherwise it has one data model per entity, in order and named as the entity, each with one field per version-0 field, in order and named as the field |
| Prompt.IdNameMapResolves | packages/amplication-server/src/core/resource/resourceBtm.service.ts:174-177 | an id is in the unseeded table iff an entity after the first has it, and it then yields the name of the last such entity |
| Prompt.PromptFieldDataType | packages/amplication-server/src/core/resource/resourceBtm.service.ts:183-190 | a non-Lookup field carries the table's translation; a Lookup field carries a name iff its related id belongs to an entity after the first, and that name is the resolved entity's |
| Duplicates.FindDuplicatedEntities | packages/amplication-server/src/core/resource/resourceBtm.service.ts:272-278 | the result is exactly the set of values occurring at least twice |
| Duplicates.DuplicatedIffRepeated | packages/amplication-server/src/core/resource/resourceBtm.service.ts:274-276 | some position holds a value whose first index is elsewhere iff that value occurs at least twice |
| Reconcile.FilterNames | packages/amplication-server/src/core/resource/resourceBtm.service.ts:226-236 | only known names are kept; the claimed set only grows, and only by duplicated names |
| Reconcile.FilterMatchesReference | packages/amplication-server/src/core/resource/resourceBtm.service.ts:226-236 | appended to the first known occurrences of the names already processed, one filter pass gives the first known occurrences of the extended list; the claimed set stays exactly the duplicates seen so far |
| Reconcile.KeptRule | packages/amplication-server/src/core/resource/resourceBtm.service.ts:226-236 | a name survives a pass iff the microservice lists it, it is known, and no earlier-processed name list contains it |
| Reconcile.FirstKnownSpec | packages/amplication-server/src/core/resource/resourceBtm.service.ts:219-253 | the reference holds each known proposed name exactly once and nothing else |
| Reconcile.NameIdMapSpec | packages/amplication-server/src/core/resource/resourceBtm.service.ts:238-248 | the name table's keys are exactly the entity names, and each yields the id of the last entity of that name |
| Reconcile.AttachIds | packages/amplication-server/src/core/resource/resourceBtm.service.ts:237-250 | the data models carry the surviving names, in order; a name in the name→id table carries that table's id, and any other name carries none (`?.id` of undefined) |
| Reconcile.ProcessAll | packages/amplication-server/src/core/resource/resourceBtm.service.ts:222-251 | one output per proposed microservice, with name and functionality carried over; every data model is a known name with the id of its original entity |
| Reconcile.ProcessAllMatchesReference | packages/amplication-server/src/core/resource/resourceBtm.service.ts:219-251 | the names of all outputs, read in order, are the first known occurrences of the reordered proposal's names |
| Reconcile.ClaimRule | packages/amplication-server/src/core/resource/resourceBtm.service.ts:219-251 | microservice k keeps a name iff it lists it, the name is an entity name, and no microservice processed before k lists it |
| Reconcile.DropEmpty | packages/amplication-server/src/core/resource/resourceBtm.service.ts:252 | no result is empty, the result holds exactly the non-empty microservices, and the output names are unchanged |
| Reconcile.DropEmptySnoc | packages/amplication-server/src/core/resource/resourceBtm.service.ts:252 | the filter keeps the relative order: an appended microservice is appended to the result exactly when it is not empty |
| Reconcile.ReorderKeepsNames | packages/amplication-server/src/core/resource/resourceBtm.service.ts:220-221 | a reordering of the microservices permutes their flattened names |
| Reconcile.ReconcileNames | packages/amplication-server/src/core/resource/resourceBtm.service.ts:219-253 | the output names are the first known occurrences of the reordered names: every known proposed name exactly once, and nothing else |
| Reconcile.ReconcileIds | packages/amplication-server/src/core/resource/resourceBtm.service.ts:237-250 | every output data model carries the id of the last original entity of its name |
| Reconcile.ReconcileProposals | packages/amplication-server/src/core/resource/resourceBtm.service.ts:199-254 | for any reordering: no empty microservice, no name twice, the names are exactly the known proposed names, and each carries its original entity's id |
| ResourceBtm.GetResourceDataForBtm | packages/amplication-server/src/core/resource/resourceBtm.service.ts:315-318 | fails with INVALID_RESOURCE_ID iff the store does not hold the id; otherwise returns the stored snapshot |
| ResourceBtm.LookupGatesOperations | packages/amplication-server/src/core/resource/resourceBtm.service.ts:108-138 | the lookup fails iff triggering fails with INVALID_RESOURCE_ID, and then nothing is submitted; for a completed job with well-shaped metadata, finalizing fails with INVALID_RESOURCE_ID iff the lookup fails |
| ResourceBtm.MapToBreakTheMonolithOutput | packages/amplication-server/src/core/resource/resourceBtm.service.ts:256-270 | fails with the bad-format error carrying the payload iff it does not parse to an object with a `microservices` array free of nulls; otherwise one element per array item, in order, each member present iff the item has it |
| ResourceBtm.ParseRoundTrip | packages/amplication-server/src/core/resource/resourceBtm.service.ts:256-270 | parsing what an output encodes to gives that output back |
| ResourceBtm.ToProposals | packages/amplication-server/src/core/resource/resourceBtm.service.ts:220-226 | succeeds iff every `dataModels` is an array, and then keeps order, names, functionality and the arrays' items |
| ResourceBtm.PrepareBtmRecommendations | packages/amplication-server/src/core/resource/resourceBtm.service.ts:199-254 | the errors come in the code's order (bad format, unknown resource, non-array `dataModels`); otherwise the result is the reconciliation of the proposals in the order the sort returns, and it satisfies the reconciliation invariants against the stored snapshot for any reordering |
| ResourceBtm.FinalizeBreakServiceIntoMicroservices | packages/amplication-server/src/core/resource/resourceBtm.service.ts:140-171 | a job that has not completed yields its status and resource with null data, whatever the store holds; a completed job yields the recommendations or their error |
| ResourceBtm.TriggerBreakServiceIntoMicroservices | packages/amplication-server/src/core/resource/resourceBtm.service.ts:108-138 | nothing is submitted when the resource is missing or the prompt fails; otherwise the request is a BreakTheMonolith conversation with the single parameter `userInput` set to the prompt, for the user and resource, and a tracking failure after submission becomes the operation's error |
| Modules.CustomActionsEnabled | packages/amplication-server/src/core/module/module.service.ts:42-45 | the flag is on only for the configured text "true"; an absent value or any other text leaves it off |
| Modules.FlagGatesValidation | packages/amplication-server/src/core/module/module.service.ts:42-73 | with the configuration not "true" and no entity, `create` returns null unchecked; it fails exactly when the flag is on or an entity is given and the name is invalid |
| Modules.MatchModuleNamePattern | packages/amplication-server/src/core/module/module.service.ts:48-53 | the scan accepts a name iff it has 1 to 249 characters, all in [a-zA-Z0-9._-] |
| Modules.ValidateModuleName | packages/amplication-server/src/core/module/module.service.ts:48-53 | fails, naming the text, iff the text matched against the pattern is not a valid module name |
| Modules.UndefinedNamePasses | packages/amplication-server/src/core/module/module.service.ts:93 | an absent name passes the validator |
| Modules.Create | packages/amplication-server/src/core/module/module.service.ts:55-73 | without an entity and with the flag off, returns null without validating; otherwise fails iff the name is invalid, and hands over the data with displayName = name and enabled = true, other fields unchanged |
| Modules.CreateIdempotent | packages/amplication-server/src/core/module/module.service.ts:60-72 | creating from the data `create` hands over the same data again |
| Modules.FindById | packages/amplication-server/src/core/module/module.service.ts:76-80 | a module is found iff the store holds one with the id, and the found module has that id |
| Modules.Update | packages/amplication-server/src/core/module/module.service.ts:75-104 | renaming a default module to a different defined name fails; otherwise it fails iff the name's text is invalid, and hands over the data with displayName = name |
| Modules.UpdateKeepsDefaultName | packages/amplication-server/src/core/module/module.service.ts:82-91 | a successful update of a default module leaves the name out or repeats the stored one |
| Modules.Delete | packages/amplication-server/src/core/module/module.service.ts:106-118 | fails iff the module found by id is a default module; otherwise hands the id to the store |
| Modules.GetDefaultModuleIdForEntity | packages/amplication-server/src/core/module/module.service.ts:152-175 | fails with the not-found error iff no module of the resource has the entity id; otherwise returns the id of the first such module |
| Modules.CreateDefaultModuleForEntity | packages/amplication-server/src/core/module/module.service.ts:120-150 | with a non-empty entity id (or the flag on) it fails with InvalidModuleName(name) iff the name is invalid, and otherwise stamps the entity id and the default description, sets displayName = name and enabled = true, and keeps name and resourceId; with an empty entity id and the flag off it returns null |
| Modules.UpdateDefaultModuleForEntity | packages/amplication-server/src/core/module/module.service.ts:177-210 | fails with the not-found error iff the entity has no default module; otherwise hands the data over unchanged for the first default module of the entity, with neither guard nor validation |
| Modules.DeleteDefaultModuleForEntity | packages/amplication-server/src/core/module/module.service.ts:212-223 | fails with the not-found error iff the entity has no default module; otherwise names the first default module of the entity |
| Modules.DeleteDefaultBypassesGuard | packages/amplication-server/src/core/module/module.service.ts:212-223 | with unique ids, the module deleteDefaultModuleForEntity removes is one that `delete` refuses |
| Scenarios.SalesAndOrgs | packages/amplication-server/src/core/resource/resourceBtm.service.ts:219-253 | Sales [Order, Customer] and Orgs [Customer, Organization], in either order the sort may leave them: Sales keeps Order, Orgs keeps Organization, Customer goes to exactly one of them, the one processed first, and carries Customer's original id |
| Scenarios.ContestedName | packages/amplication-server/src/core/resource/resourceBtm.service.ts:219-253 | two microservices, each with a known name of its own, sharing a third: for any order both survive, each keeps its own name and not the other's, and the shared name goes to the first processed only |
| Scenarios.DuplicateGoesToFirst | packages/amplication-server/src/core/resource/resourceBtm.service.ts:226-236 | A [x, y] and B [y, z], in either order: A keeps x, B keeps z, and y goes only to the one processed first |
| Scenarios.UnknownDropped | packages/amplication-server/src/core/resource/resourceBtm.service.ts:232-235 | [x, w] against the entities x, y keeps only x |
| Scenarios.EmptyServiceDropped | packages/amplication-server/src/core/resource/resourceBtm.service.ts:252 | A [x] and B [x, w] against the entity x, in either order: the second processed has all its names claimed or unknown and is absent; the first survives with x |
| Scenarios.MalformedPayload | packages/amplication-server/src/core/resource/resourceBtm.service.ts:256-270 | the text "{not json" fails with the bad-format error carrying that text |
| Scenarios.FirstEntityUnresolved | packages/amplication-server/src/core/resource/resourceBtm.service.ts:174-189 | a Lookup to the second entity gets its name; a Lookup to the first entity gets none |

## Left out

- Database queries are not modelled. The snapshot and the module blocks are given as values. The query's filters (non-deleted entities, version 0 only) are assumed to have been applied.
- `startRedesign` is left out. It only reads a resource and tracks an event.
- `trackEvent` is reduced to an outcome, `Tracked` or `TrackingError(message)`. The billing lookup, the analytics properties and the logging are not modelled.
- The generative service is a parameter. The user action it returns is passed in, and the conversation request it receives is returned. `startConversation` is assumed to succeed: a failure there, which aborts the trigger before tracking, is not modelled.
- The job store's `findOne` and `calcUserActionStatus` are parameters: the job record and its status are passed in. A missing job record, which makes the destructuring throw, is not modelled.
- `EnumUserActionStatus` is not part of this model. The gate only distinguishes `Completed` from the rest, and three statuses stand for the enum.
- The JSON grammar is not modelled. `JSON.parse` is given as the parse outcome paired with the text. `JSON.stringify` is not modelled either:
  - the prompt is returned as a structured value;
  - the bad-format error carries the raw text, not its JSON string encoding.
- `BlockTypeService` and its store semantics are not modelled. Module operations return what they would hand to `super.create`, `super.update` or `super.delete`. The delete flags are not modelled.
- The calls into `moduleActionService` and `moduleDtoService` made by the default-module operations are foreign calls and are left out.
- Reconcile.FilterNames: non-string proposed names are compared structurally. JavaScript `Set.has` compares objects by identity. Such names are never known entity names, so the output is the same either way.
- Duplicates.FindDuplicatedEntities: non-string proposed names are compared structurally, while `indexOf` compares parsed objects by identity, so two equal objects count as a duplicate here and not in the source. Such names are never known entity names, so the output is the same either way.
- Prompt.IdNameMapResolves: states the lookup for entity ids only. The source's table is the first entity object, so property names such as `name` or `id` and inherited ones like `toString` also resolve. An entity id equal to one of them would also overwrite that field of the first entity. Generated entity ids never take these forms.
- Prompt.PromptFieldDataType: a non-string `relatedEntityId` is treated as unresolved. The source converts it to a property key.
- Concurrent redesign requests and repeated polling are not modelled: each operation is a pure function of its inputs.
- The client hooks and dialogs, the end-to-end test, and the declarative DTO, module-wiring and constants files carry no logic of the two services and are not modelled.
