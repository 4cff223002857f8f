/** Projection of a resource snapshot into the prompt for the generative service
    (`generatePromptForBreakTheMonolith`). Serialization of the prompt to text is
    not modelled: the structured prompt is the result. */
module Prompt {
  import opened Wrappers
  import DataTypes
  import Assoc
  import opened BtmTypes

  /** The id-to-name table of the source. Its `reduce` has no initial value, so the
      accumulator starts as the first entity itself and only the entities after the
      first are entered; ids are generated identifiers, so a lookup in the first
      entity object finds none of them. */
  function IdNameMap(entities: seq<Entity>): map<string, string>
    requires |entities| > 0
  {
    Assoc.ToMap(IdNamePairs(entities[1..]))
  }

  /** The (id, name) pair of every entity, in order. */
  function IdNamePairs(entities: seq<Entity>): (pairs: seq<(string, string)>)
    ensures |pairs| == |entities|
    ensures forall k :: 0 <= k < |entities| ==> pairs[k] == (entities[k].id, entities[k].name)
  {
    seq(|entities|, k requires 0 <= k < |entities| => (entities[k].id, entities[k].name))
  }

  /** The related entity id a Lookup field names, when it is a string. */
  function RelatedEntityId(f: Field): Option<string>
  {
    if "relatedEntityId" in f.properties && f.properties["relatedEntityId"].JString?
    then Some(f.properties["relatedEntityId"].str)
    else None
  }

  /** Entity `k` is the last entity after the first whose id is `id`, and its name is
      `name`: the entity an id-to-name lookup in the source's table resolves to. */
  predicate ResolvesTo(entities: seq<Entity>, id: string, k: int, name: string)
  {
    1 <= k < |entities| && entities[k].id == id && entities[k].name == name &&
    forall k' :: k < k' < |entities| ==> entities[k'].id != id
  }

  function ProjectField(f: Field, idNames: map<string, string>): PromptField
  {
    PromptField(
      f.name,
      if f.dataType == DataTypes.Lookup then
        (match RelatedEntityId(f)
         case Some(id) => if id in idNames then Some(idNames[id]) else None
         case None => None)
      else Some(DataTypes.DataTypeMap(f.dataType)))
  }

  function ProjectEntity(e: Entity, idNames: map<string, string>): PromptDataModel
    requires |e.versions| > 0
  {
    PromptDataModel(e.name, seq(|e.versions[0].fields|, j requires 0 <= j < |e.versions[0].fields| =>
      ProjectField(e.versions[0].fields[j], idNames)))
  }

  /** The source throws a `TypeError` for an empty entity list (unseeded `reduce`) and
      for an entity without version 0 (`versions[0].fields`). Otherwise the prompt
      has one data model per entity, in order, named as the entity, with one field
      per version-0 field, in order, named as the field. */
  function GeneratePromptForBreakTheMonolith(resource: Resource): (r: Result<Prompt, BtmError>)
    ensures r.Failure? <==>
      |resource.entities| == 0 ||
      exists i :: 0 <= i < |resource.entities| && |resource.entities[i].versions| == 0
    ensures r.Failure? ==> r.error == PromptTypeError
    ensures r.Success? ==>
      var es := resource.entities;
      var dms := r.value.dataModels;
      && |dms| == |es|
      && forall i :: 0 <= i < |es| ==>
           && |es[i].versions| > 0
           && dms[i].name == es[i].name
           && |dms[i].fields| == |es[i].versions[0].fields|
           && forall j :: 0 <= j < |dms[i].fields| ==>
                dms[i].fields[j].name == es[i].versions[0].fields[j].name
  {
    var es := resource.entities;
    if |es| == 0 then Failure(PromptTypeError)
    else if exists i :: 0 <= i < |es| && |es[i].versions| == 0 then Failure(PromptTypeError)
    else
      var idNames := IdNameMap(es);
      Success(Prompt(seq(|es|, i requires 0 <= i < |es| => ProjectEntity(es[i], idNames))))
  }

  /** An id is in the table exactly when an entity after the first has it, and the
      table then yields the name of the last such entity. */
  lemma IdNameMapResolves(entities: seq<Entity>, id: string)
    requires |entities| > 0
    ensures id in IdNameMap(entities) <==> exists k :: 1 <= k < |entities| && entities[k].id == id
    ensures id in IdNameMap(entities) ==> exists k :: ResolvesTo(entities, id, k, IdNameMap(entities)[id])
  {
    var rest := entities[1..];
    var pairs := IdNamePairs(rest);
    var m := IdNameMap(entities);
    if exists k :: 1 <= k < |entities| && entities[k].id == id {
      var k :| 1 <= k < |entities| && entities[k].id == id;
      assert pairs[k - 1].0 == id;
    }
    if id in m {
      var p := Assoc.LastIndexOf(pairs, id);
      assert 0 <= p;
      assert entities[p + 1] == rest[p];
      forall k' | p + 1 < k' < |entities| ensures entities[k'].id != id {
        assert pairs[k' - 1].0 == entities[k'].id;
      }
      assert ResolvesTo(entities, id, p + 1, m[id]);
    }
  }

  /** The data type a prompt field carries: the table's translation for a non-Lookup
      field; for a Lookup field, the name of its related entity when that entity is
      found among the entities after the first, and nothing otherwise. */
  lemma {:induction false} PromptFieldDataType(resource: Resource, i: int, j: int)
    requires GeneratePromptForBreakTheMonolith(resource).Success?
    requires 0 <= i < |resource.entities|
    requires 0 <= j < |resource.entities[i].versions[0].fields|
    ensures var f := resource.entities[i].versions[0].fields[j];
      var dt := GeneratePromptForBreakTheMonolith(resource).value.dataModels[i].fields[j].dataType;
      && (f.dataType != DataTypes.Lookup ==> dt == Some(DataTypes.DataTypeMap(f.dataType)))
      && (f.dataType == DataTypes.Lookup ==>
            (dt.Some? <==> RelatedEntityId(f).Some? &&
                           exists k :: 1 <= k < |resource.entities| &&
                                       resource.entities[k].id == RelatedEntityId(f).value)
            && (dt.Some? ==> exists k :: ResolvesTo(resource.entities, RelatedEntityId(f).value, k, dt.value)))
  {
    var es := resource.entities;
    var f := es[i].versions[0].fields[j];
    var m := IdNameMap(es);
    var dt := GeneratePromptForBreakTheMonolith(resource).value.dataModels[i].fields[j].dataType;
    assert dt == ProjectField(f, m).dataType;
    if f.dataType == DataTypes.Lookup && RelatedEntityId(f).Some? {
      IdNameMapResolves(es, RelatedEntityId(f).value);
    }
  }
}
