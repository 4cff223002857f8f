/** `ModuleService`: the module-name validator, the feature flag, the guards and
    field mirroring of `create`/`update`/`delete`, and the default-module lookup.
    The block store behind the service is a sequence of module records; what the
    store does with the data handed to it is not modelled, so each operation returns
    exactly what it would hand to the store. */
module Modules {
  import opened Wrappers

  /** The text stamped into a default module's description. */
  const DefaultModuleDescription: string :=
    "This module was automatically created as the default module for an entity"

  /** The longest name the validator accepts. */
  const MaxModuleNameLength: nat := 249

  /** A module block as the store holds it. */
  datatype ModuleRecord = ModuleRecord(
    id: string,
    resourceId: string,
    name: string,
    displayName: string,
    description: Option<string>,
    entityId: Option<string>,
    enabled: bool)

  /** The `data` of `CreateModuleArgs`; an absent member is `None`. */
  datatype ModuleCreateInput = ModuleCreateInput(
    resourceId: string,
    name: string,
    displayName: Option<string>,
    description: Option<string>,
    entityId: Option<string>,
    enabled: Option<bool>)

  /** The `data` of `UpdateModuleArgs` (`ModuleUpdateInput`). */
  datatype ModuleUpdateInput = ModuleUpdateInput(
    name: Option<string>,
    displayName: Option<string>,
    description: Option<string>,
    enabled: Option<bool>)

  datatype ModuleError =
    | InvalidModuleName(name: string)
    | CannotRenameDefaultModule
    | CannotDeleteDefaultModule
    | DefaultModuleForEntityNotFound(entityId: string)

  // ----- the feature flag -----

  /** `customActionsEnabled`: on exactly when the configuration value is the text
      `"true"`; an absent value or any other text leaves it off. */
  function CustomActionsEnabled(config: Option<string>): (enabled: bool)
    ensures enabled <==> config.Some? && config.value == "true"
  {
    config == Some("true")
  }

  // ----- the name validator -----

  /** One character of the class `[a-zA-Z0-9._-]`. */
  predicate IsModuleNameChar(c: char)
  {
    ('a' <= c <= 'z') || ('A' <= c <= 'Z') || ('0' <= c <= '9') || c == '.' || c == '_' || c == '-'
  }

  /** The language of `^[a-zA-Z0-9._-]{1,249}$`. */
  predicate ValidModuleName(s: string)
  {
    1 <= |s| <= MaxModuleNameLength && forall i :: 0 <= i < |s| ==> IsModuleNameChar(s[i])
  }

  /** The anchored pattern matched by one left-to-right scan: reject on the first
      character outside the class or once the count passes the bound. */
  method MatchModuleNamePattern(s: string) returns (ok: bool)
    ensures ok <==> ValidModuleName(s)
  {
    var n := 0;
    while n < |s|
      invariant 0 <= n <= |s|
      invariant n <= MaxModuleNameLength
      invariant forall i :: 0 <= i < n ==> IsModuleNameChar(s[i])
    {
      if !IsModuleNameChar(s[n]) || n == MaxModuleNameLength {
        return false;
      }
      n := n + 1;
    }
    ok := n >= 1;
  }

  /** What `RegExp.prototype.test` sees: an undefined name is converted to the text
      `"undefined"`. */
  function NameText(name: Option<string>): string
  {
    if name.Some? then name.value else "undefined"
  }

  /** `validateModuleName`: an error naming the rejected text, or success. */
  function ValidateModuleName(name: Option<string>): (r: Result<(), ModuleError>)
    ensures r.Success? <==> ValidModuleName(NameText(name))
    ensures r.Failure? ==> r.error == InvalidModuleName(NameText(name))
  {
    if ValidModuleName(NameText(name)) then Success(()) else Failure(InvalidModuleName(NameText(name)))
  }

  /** An undefined name passes the validator. */
  lemma UndefinedNamePasses()
    ensures ValidateModuleName(None).Success?
  {
  }

  // ----- create -----

  /** JavaScript truthiness of an optional text: present and not empty. */
  predicate Truthy(s: Option<string>)
  {
    s.Some? && s.value != ""
  }

  /** `create`: without an entity and with custom actions off, nothing is validated
      and `None` (the source's `null`) is returned. Otherwise the name is validated
      and the data handed to the store mirrors `displayName` from `name` and is
      enabled, every other field as given. */
  function Create(data: ModuleCreateInput, customActionsEnabled: bool): (r: Result<Option<ModuleCreateInput>, ModuleError>)
    ensures !Truthy(data.entityId) && !customActionsEnabled ==> r == Success(None)
    ensures Truthy(data.entityId) || customActionsEnabled ==>
      && (r.Success? <==> ValidModuleName(data.name))
      && (r.Failure? ==> r.error == InvalidModuleName(data.name))
      && (r.Success? ==>
            && r.value.Some?
            && r.value.value.displayName == Some(data.name)
            && r.value.value.enabled == Some(true)
            && r.value.value.name == data.name
            && r.value.value.resourceId == data.resourceId
            && r.value.value.description == data.description
            && r.value.value.entityId == data.entityId)
  {
    if !Truthy(data.entityId) && !customActionsEnabled then Success(None)
    else
      match ValidateModuleName(Some(data.name))
      case Failure(e) => Failure(e)
      case Success(_) => Success(Some(data.(displayName := Some(data.name), enabled := Some(true))))
  }

  /** Creating again from what `Create` hands to the store hands over the same data:
      the mirroring is idempotent. */
  lemma CreateIdempotent(data: ModuleCreateInput, customActionsEnabled: bool)
    requires Create(data, customActionsEnabled).Success?
    requires Create(data, customActionsEnabled).value.Some?
    ensures Create(Create(data, customActionsEnabled).value.value, customActionsEnabled)
         == Create(data, customActionsEnabled)
  {
  }

  /** The flag and the entity id together decide whether `create` validates: with
      the flag off and no entity, nothing is checked and `null` comes back; with
      either one set, the call fails exactly for an invalid name. */
  lemma FlagGatesValidation(config: Option<string>, data: ModuleCreateInput)
    ensures config != Some("true") && !Truthy(data.entityId) ==>
      Create(data, CustomActionsEnabled(config)) == Success(None)
    ensures Create(data, CustomActionsEnabled(config)).Failure? <==>
      (config == Some("true") || Truthy(data.entityId)) && !ValidModuleName(data.name)
  {
  }

  // ----- lookups in the block store -----

  /** The position of the first record satisfying `matches`, or -1 when none does. */
  function FirstMatch(modules: seq<ModuleRecord>, matches: ModuleRecord -> bool): (k: int)
    ensures -1 <= k < |modules|
    ensures k == -1 <==> forall i :: 0 <= i < |modules| ==> !matches(modules[i])
    ensures k >= 0 ==> matches(modules[k]) && forall i :: 0 <= i < k ==> !matches(modules[i])
  {
    if |modules| == 0 then -1
    else if matches(modules[0]) then 0
    else
      var k := FirstMatch(modules[1..], matches);
      if k == -1 then -1 else k + 1
  }

  /** `findOne({ where: { id } })`. */
  function FindById(modules: seq<ModuleRecord>, id: string): (m: Option<ModuleRecord>)
    ensures m.Some? <==> exists i :: 0 <= i < |modules| && modules[i].id == id
    ensures m.Some? ==> m.value in modules && m.value.id == id
  {
    var k := FirstMatch(modules, (m: ModuleRecord) => m.id == id);
    if k == -1 then None else Some(modules[k])
  }

  /** A module created as the default module of an entity (`module?.entityId`). */
  predicate IsDefaultModule(m: Option<ModuleRecord>)
  {
    m.Some? && Truthy(m.value.entityId)
  }

  // ----- update -----

  /** `update`: renaming a default module (a defined name different from the
      stored one) fails; otherwise the name, or `"undefined"` when it is absent, is
      validated and the data handed to the store mirrors `displayName` from `name`. */
  function Update(modules: seq<ModuleRecord>, id: string, data: ModuleUpdateInput): (r: Result<ModuleUpdateInput, ModuleError>)
    ensures var existing := FindById(modules, id);
      IsDefaultModule(existing) && data.name.Some? && data.name.value != existing.value.name ==>
        r == Failure(CannotRenameDefaultModule)
    ensures var existing := FindById(modules, id);
      !(IsDefaultModule(existing) && data.name.Some? && data.name.value != existing.value.name) ==>
        && (r.Success? <==> ValidModuleName(NameText(data.name)))
        && (r.Failure? ==> r.error == InvalidModuleName(NameText(data.name)))
    ensures r.Success? ==>
      r.value.displayName == data.name && r.value.name == data.name &&
      r.value.description == data.description && r.value.enabled == data.enabled
  {
    var existing := FindById(modules, id);
    if IsDefaultModule(existing) && data.name.Some? && data.name.value != existing.value.name then
      Failure(CannotRenameDefaultModule)
    else
      match ValidateModuleName(data.name)
      case Failure(e) => Failure(e)
      case Success(_) => Success(data.(displayName := data.name))
  }

  /** Through `update`, a default module keeps its name: whatever succeeds either
      leaves the name out or repeats the stored one. */
  lemma UpdateKeepsDefaultName(modules: seq<ModuleRecord>, id: string, data: ModuleUpdateInput)
    requires IsDefaultModule(FindById(modules, id))
    requires Update(modules, id, data).Success?
    ensures Update(modules, id, data).value.name.None? ||
            Update(modules, id, data).value.name.value == FindById(modules, id).value.name
  {
  }

  // ----- delete -----

  /** `delete`: a default module cannot be deleted; any other id (including one the
      store does not hold) is handed to the store. */
  function Delete(modules: seq<ModuleRecord>, id: string): (r: Result<string, ModuleError>)
    ensures r.Failure? <==> IsDefaultModule(FindById(modules, id))
    ensures r.Failure? ==> r.error == CannotDeleteDefaultModule
    ensures r.Success? ==> r.value == id
  {
    if IsDefaultModule(FindById(modules, id)) then Failure(CannotDeleteDefaultModule) else Success(id)
  }

  // ----- default modules of entities -----

  /** The settings filter of `getDefaultModuleIdForEntity`: the resource, and
      `entityId` equal to the entity's id. */
  predicate IsDefaultFor(m: ModuleRecord, resourceId: string, entityId: string)
  {
    m.resourceId == resourceId && m.entityId == Some(entityId)
  }

  /** `getDefaultModuleIdForEntity`: the id of the first module of the resource whose
      `entityId` is the entity's, or `DefaultModuleForEntityNotFoundError`. */
  function GetDefaultModuleIdForEntity(modules: seq<ModuleRecord>, resourceId: string, entityId: string): (r: Result<string, ModuleError>)
    ensures r.Failure? <==> forall i :: 0 <= i < |modules| ==> !IsDefaultFor(modules[i], resourceId, entityId)
    ensures r.Failure? ==> r.error == DefaultModuleForEntityNotFound(entityId)
    ensures r.Success? ==>
      exists k :: 0 <= k < |modules| && IsDefaultFor(modules[k], resourceId, entityId) && r.value == modules[k].id &&
                  forall i :: 0 <= i < k ==> !IsDefaultFor(modules[i], resourceId, entityId)
  {
    var k := FirstMatch(modules, m => IsDefaultFor(m, resourceId, entityId));
    if k == -1 then Failure(DefaultModuleForEntityNotFound(entityId)) else Success(modules[k].id)
  }

  /** `createDefaultModuleForEntity`: `create` with the entity's id and the default
      description stamped into the data; the guard is passed whenever the entity id
      is not empty, and then `create`'s validation and defaults apply. */
  function CreateDefaultModuleForEntity(data: ModuleCreateInput, entityId: string, customActionsEnabled: bool): (r: Result<Option<ModuleCreateInput>, ModuleError>)
    ensures entityId != "" || customActionsEnabled ==>
      && (r.Success? <==> ValidModuleName(data.name))
      && (r.Failure? ==> r.error == InvalidModuleName(data.name))
      && (r.Success? ==>
            && r.value.Some?
            && r.value.value.entityId == Some(entityId)
            && r.value.value.description == Some(DefaultModuleDescription)
            && r.value.value.displayName == Some(data.name)
            && r.value.value.enabled == Some(true)
            && r.value.value.name == data.name
            && r.value.value.resourceId == data.resourceId)
    ensures entityId == "" && !customActionsEnabled ==> r == Success(None)
  {
    Create(data.(description := Some(DefaultModuleDescription), entityId := Some(entityId)), customActionsEnabled)
  }

  /** `updateDefaultModuleForEntity`: finds the default module and hands the data to
      the store unchanged, with neither the rename guard nor the name validator. */
  function UpdateDefaultModuleForEntity(modules: seq<ModuleRecord>, resourceId: string, entityId: string, data: ModuleUpdateInput): (r: Result<(string, ModuleUpdateInput), ModuleError>)
    ensures r.Failure? <==> GetDefaultModuleIdForEntity(modules, resourceId, entityId).Failure?
    ensures r.Failure? ==> r.error == DefaultModuleForEntityNotFound(entityId)
    ensures r.Success? ==> r.value.1 == data
    ensures r.Success? ==>
      exists k :: 0 <= k < |modules| && IsDefaultFor(modules[k], resourceId, entityId) && r.value.0 == modules[k].id &&
                  forall i :: 0 <= i < k ==> !IsDefaultFor(modules[i], resourceId, entityId)
  {
    match GetDefaultModuleIdForEntity(modules, resourceId, entityId)
    case Failure(e) => Failure(e)
    case Success(id) => Success((id, data))
  }

  /** `deleteDefaultModuleForEntity`: finds the default module and hands its id to
      the store, without the guard that `delete` applies. */
  function DeleteDefaultModuleForEntity(modules: seq<ModuleRecord>, resourceId: string, entityId: string): (r: Result<string, ModuleError>)
    ensures r.Failure? <==> forall i :: 0 <= i < |modules| ==> !IsDefaultFor(modules[i], resourceId, entityId)
    ensures r.Failure? ==> r.error == DefaultModuleForEntityNotFound(entityId)
    ensures r.Success? ==>
      exists k :: 0 <= k < |modules| && IsDefaultFor(modules[k], resourceId, entityId) && r.value == modules[k].id &&
                  forall i :: 0 <= i < k ==> !IsDefaultFor(modules[i], resourceId, entityId)
  {
    GetDefaultModuleIdForEntity(modules, resourceId, entityId)
  }

  /** With unique ids, the module `deleteDefaultModuleForEntity` removes is one that
      `delete` refuses whenever the entity id is not empty. */
  lemma DeleteDefaultBypassesGuard(modules: seq<ModuleRecord>, resourceId: string, entityId: string)
    requires forall i, j :: 0 <= i < j < |modules| ==> modules[i].id != modules[j].id
    requires entityId != ""
    requires DeleteDefaultModuleForEntity(modules, resourceId, entityId).Success?
    ensures Delete(modules, DeleteDefaultModuleForEntity(modules, resourceId, entityId).value) == Failure(CannotDeleteDefaultModule)
  {
  }
}
