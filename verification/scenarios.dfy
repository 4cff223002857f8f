/** Worked examples of the redesign on small concrete snapshots and proposals,
    derived from the general contracts. */
module Scenarios {
  import opened Wrappers
  import opened J = Json
  import opened BtmTypes
  import DataTypes
  import Prompt
  import Reconcile
  import ResourceBtm

  /** An entity with an empty version 0. */
  function Ent(id: string, name: string): Entity
  {
    Entity(id, name, name, [EntityVersion([])])
  }

  /** A proposed microservice with an empty functionality. */
  function Svc(name: string, names: seq<Json>): Proposal
  {
    Proposal(Some(JString(name)), Some(JString("")), names)
  }

  lemma PairMembers(s: string, a: string, b: string)
    ensures JString(s) in [JString(a), JString(b)] <==> s == a || s == b
  {
  }

  /** The names kept by one output microservice. */
  function Kept(m: Microservice): seq<string>
  {
    Reconcile.Names(m.dataModels)
  }

  // ----- two microservices contesting a name -----

  /** Some output microservice called `service` keeps `name`. */
  ghost predicate KeepsIn(out: seq<Microservice>, service: string, name: string)
  {
    exists i :: 0 <= i < |out| && out[i].name == Some(JString(service)) && name in Kept(out[i])
  }

  /** `a` [ownA, shared] and `b` [shared, ownB]. */
  function Contest(a: string, b: string, ownA: string, shared: string, ownB: string): seq<Proposal>
  {
    [Svc(a, [JString(ownA), JString(shared)]), Svc(b, [JString(shared), JString(ownB)])]
  }

  /** Two microservices, each with a name of its own, list a third known name. For
      any order the sort leaves them in, both survive, each keeps its own name and
      not the other's, and the contested name goes to exactly one of them: to the
      one processed first. */
  lemma ContestedName(a: string, b: string, ownA: string, shared: string, ownB: string,
                      entities: seq<Entity>, ordered: seq<Proposal>)
    requires a != b && ownA != shared && shared != ownB && ownA != ownB
    requires EntityNames(entities) == {ownA, shared, ownB}
    requires multiset(ordered) == multiset(Contest(a, b, ownA, shared, ownB))
    ensures var out := Reconcile.ReconcileProposals(Contest(a, b, ownA, shared, ownB), ordered, entities);
      && |out| == 2
      && KeepsIn(out, a, ownA) && KeepsIn(out, b, ownB)
      && !KeepsIn(out, a, ownB) && !KeepsIn(out, b, ownA)
      && (KeepsIn(out, a, shared) <==> !KeepsIn(out, b, shared))
      && (ordered == Contest(a, b, ownA, shared, ownB) ==> KeepsIn(out, a, shared))
      && (ordered != Contest(a, b, ownA, shared, ownB) ==> KeepsIn(out, b, shared))
  {
    var ps := Contest(a, b, ownA, shared, ownB);
    TwoOrders(ps, ordered);
    forall n ensures JString(n) in ps[0].names <==> n == ownA || n == shared {
      PairMembers(n, ownA, shared);
    }
    forall n ensures JString(n) in ps[1].names <==> n == ownB || n == shared {
      PairMembers(n, shared, ownB);
    }
    if ordered == ps {
      ContestInOrder(ps, ordered, entities, a, b, ownA, shared, ownB);
    } else {
      ContestInOrder(ps, [ps[1], ps[0]], entities, b, a, ownB, shared, ownA);
    }
  }

  /** `ContestedName` for one processing order: the first processed keeps its own
      name and the contested one, the second only its own. */
  lemma ContestInOrder(ps: seq<Proposal>, ordered: seq<Proposal>, entities: seq<Entity>,
                       first: string, second: string, ownF: string, shared: string, ownS: string)
    requires multiset(ordered) == multiset(ps) && |ordered| == 2
    requires first != second && ownF != shared && shared != ownS && ownF != ownS
    requires ordered[0].name == Some(JString(first)) && ordered[1].name == Some(JString(second))
    requires forall n :: JString(n) in ordered[0].names <==> n == ownF || n == shared
    requires forall n :: JString(n) in ordered[1].names <==> n == ownS || n == shared
    requires EntityNames(entities) == {ownF, shared, ownS}
    ensures var out := Reconcile.ReconcileProposals(ps, ordered, entities);
      && |out| == 2
      && KeepsIn(out, first, ownF) && KeepsIn(out, first, shared) && !KeepsIn(out, first, ownS)
      && KeepsIn(out, second, ownS) && !KeepsIn(out, second, shared) && !KeepsIn(out, second, ownF)
  {
    TwoServices(ps, ordered, entities, ownF, ownS);
    var out := Reconcile.ReconcileProposals(ps, ordered, entities);
    KeepsInOfTwo(out, first, second, ownF);
    KeepsInOfTwo(out, first, second, shared);
    KeepsInOfTwo(out, first, second, ownS);
  }

  /** Reading `KeepsIn` off two differently named microservices. */
  lemma KeepsInOfTwo(out: seq<Microservice>, first: string, second: string, n: string)
    requires |out| == 2 && first != second
    requires out[0].name == Some(JString(first)) && out[1].name == Some(JString(second))
    ensures KeepsIn(out, first, n) <==> n in Kept(out[0])
    ensures KeepsIn(out, second, n) <==> n in Kept(out[1])
  {
    if n in Kept(out[0]) { assert out[0].name == Some(JString(first)) && n in Kept(out[0]); }
    if n in Kept(out[1]) { assert out[1].name == Some(JString(second)) && n in Kept(out[1]); }
  }

  /** A rearrangement of two elements is the identity or the swap. */
  lemma TwoOrders<T>(ps: seq<T>, ordered: seq<T>)
    requires |ps| == 2 && multiset(ordered) == multiset(ps)
    ensures ordered == ps || ordered == [ps[1], ps[0]]
  {
    assert |ordered| == |multiset(ordered)| == 2;
    assert ps == [ps[0]] + [ps[1]];
    assert ordered == [ordered[0]] + [ordered[1]];
    assert multiset(ps) == multiset{ps[0], ps[1]};
    assert multiset(ordered) == multiset{ordered[0], ordered[1]};
    if ordered[0] == ps[0] {
      assert multiset{ordered[1]} == multiset(ordered) - multiset{ps[0]} == multiset{ps[1]};
    } else {
      assert ordered[0] == ps[1];
      assert multiset{ordered[1]} == multiset(ordered) - multiset{ps[1]} == multiset{ps[0]};
    }
  }

  /** The snapshot Customer ("c"), Order ("o"), Organization ("g"). */
  function SalesEntities(): seq<Entity>
  {
    [Ent("c", "Customer"), Ent("o", "Order"), Ent("g", "Organization")]
  }

  /** "Sales" [Order, Customer] and "Orgs" [Customer, Organization]. */
  function SalesAndOrgsProposals(): seq<Proposal>
  {
    Contest("Sales", "Orgs", "Order", "Customer", "Organization")
  }

  /** Sales and Orgs against the entities Customer, Order, Organization, in any order:
      Sales keeps Order, Orgs keeps Organization, Customer goes to whichever is
      processed first and only to it, and it carries Customer's id "c". */
  lemma SalesAndOrgs(ordered: seq<Proposal>)
    requires multiset(ordered) == multiset(SalesAndOrgsProposals())
    ensures var out := Reconcile.ReconcileProposals(SalesAndOrgsProposals(), ordered, SalesEntities());
      && |out| == 2
      && KeepsIn(out, "Sales", "Order") && KeepsIn(out, "Orgs", "Organization")
      && !KeepsIn(out, "Sales", "Organization") && !KeepsIn(out, "Orgs", "Order")
      && (KeepsIn(out, "Sales", "Customer") <==> !KeepsIn(out, "Orgs", "Customer"))
      && (ordered == SalesAndOrgsProposals() ==> KeepsIn(out, "Sales", "Customer"))
      && (ordered != SalesAndOrgsProposals() ==> KeepsIn(out, "Orgs", "Customer"))
      && (forall i, j :: 0 <= i < |out| && 0 <= j < |out[i].dataModels| && out[i].dataModels[j].name == "Customer" ==>
            out[i].dataModels[j].originalEntityId == Some("c"))
  {
    var entities := SalesEntities();
    assert EntityNames(entities) == {"Order", "Customer", "Organization"} by {
      assert entities[0].name == "Customer" && entities[1].name == "Order" && entities[2].name == "Organization";
    }
    ContestedName("Sales", "Orgs", "Order", "Customer", "Organization", entities, ordered);
    var out := Reconcile.ReconcileProposals(SalesAndOrgsProposals(), ordered, entities);
    forall i, j | 0 <= i < |out| && 0 <= j < |out[i].dataModels| && out[i].dataModels[j].name == "Customer"
      ensures out[i].dataModels[j].originalEntityId == Some("c")
    {
      CustomerIsC(entities, out[i].dataModels[j].originalEntityId.value);
    }
  }

  lemma CustomerIsC(entities: seq<Entity>, id: string)
    requires entities == SalesEntities()
    requires Reconcile.IsOriginalEntity(entities, "Customer", id)
    ensures id == "c"
  {
  }

  /** `A` [x, y] and `B` [y, z] against the entities x, y, z, in any order: `A` keeps
      x, `B` keeps z, and y goes to whichever is processed first and only to it. */
  lemma DuplicateGoesToFirst(ordered: seq<Proposal>)
    requires multiset(ordered) == multiset(Contest("A", "B", "x", "y", "z"))
    ensures var out := Reconcile.ReconcileProposals(Contest("A", "B", "x", "y", "z"), ordered,
                                                    [Ent("1", "x"), Ent("2", "y"), Ent("3", "z")]);
      && |out| == 2
      && KeepsIn(out, "A", "x") && KeepsIn(out, "B", "z")
      && !KeepsIn(out, "A", "z") && !KeepsIn(out, "B", "x")
      && (KeepsIn(out, "A", "y") <==> !KeepsIn(out, "B", "y"))
      && (ordered == Contest("A", "B", "x", "y", "z") ==> KeepsIn(out, "A", "y"))
      && (ordered != Contest("A", "B", "x", "y", "z") ==> KeepsIn(out, "B", "y"))
  {
    var entities := [Ent("1", "x"), Ent("2", "y"), Ent("3", "z")];
    assert EntityNames(entities) == {"x", "y", "z"} by {
      assert entities[0].name == "x" && entities[1].name == "y" && entities[2].name == "z";
    }
    ContestedName("A", "B", "x", "y", "z", entities, ordered);
  }

  /** Both microservices of a two-element processing order survive when each keeps a
      name of its own; the first processed keeps its known names, the second those
      known names the first did not list. */
  lemma TwoServices(ps: seq<Proposal>, ordered: seq<Proposal>, entities: seq<Entity>, own0: string, own1: string)
    requires multiset(ordered) == multiset(ps) && |ordered| == 2
    requires JString(own0) in ordered[0].names && own0 in EntityNames(entities)
    requires JString(own1) in ordered[1].names && own1 in EntityNames(entities) && JString(own1) !in ordered[0].names
    ensures var out := Reconcile.ReconcileProposals(ps, ordered, entities);
      && |out| == 2
      && out[0].name == ordered[0].name && out[1].name == ordered[1].name
      && (forall s :: s in Kept(out[0]) <==> JString(s) in ordered[0].names && s in EntityNames(entities))
      && (forall s :: s in Kept(out[1]) <==>
            JString(s) in ordered[1].names && s in EntityNames(entities) && JString(s) !in ordered[0].names)
  {
    var processed := Reconcile.Processed(ps, ordered, entities);
    TwoProcessed(ps, ordered, entities, own0, own1);
    var out := Reconcile.ReconcileProposals(ps, ordered, entities);
    KeepTwo(processed);
    assert Kept(out[0]) == Reconcile.Names(processed[0].dataModels);
    assert Kept(out[1]) == Reconcile.Names(processed[1].dataModels);
  }

  /** The names processed before the first and before the second of two microservices. */
  lemma PrefixesOfTwo(ordered: seq<Proposal>)
    requires |ordered| == 2
    ensures Reconcile.AllNames(ordered[..0]) == []
    ensures Reconcile.AllNames(ordered[..1]) == ordered[0].names
  {
    assert ordered[..0] == [];
    assert ordered[..1] == [ordered[0]];
    assert Reconcile.AllNames([ordered[0]]) == ordered[0].names + Reconcile.AllNames([]);
  }

  /** The filter's outcome for two microservices, before empties are dropped. */
  lemma TwoProcessed(ps: seq<Proposal>, ordered: seq<Proposal>, entities: seq<Entity>, own0: string, own1: string)
    requires multiset(ordered) == multiset(ps) && |ordered| == 2
    requires JString(own0) in ordered[0].names && own0 in EntityNames(entities)
    requires JString(own1) in ordered[1].names && own1 in EntityNames(entities) && JString(own1) !in ordered[0].names
    ensures var processed := Reconcile.Processed(ps, ordered, entities);
      && |processed| == 2
      && processed[0].name == ordered[0].name && processed[1].name == ordered[1].name
      && (forall s :: s in Reconcile.Names(processed[0].dataModels) <==>
            JString(s) in ordered[0].names && s in EntityNames(entities))
      && (forall s :: s in Reconcile.Names(processed[1].dataModels) <==>
            JString(s) in ordered[1].names && s in EntityNames(entities) && JString(s) !in ordered[0].names)
      && |processed[0].dataModels| > 0 && |processed[1].dataModels| > 0
  {
    var processed := Reconcile.Processed(ps, ordered, entities);
    PrefixesOfTwo(ordered);
    Reconcile.ClaimRule(ps, ordered, entities);
    assert own0 in Reconcile.Names(processed[0].dataModels);
    assert own1 in Reconcile.Names(processed[1].dataModels);
  }

  /** When no microservice comes out of the filter empty, none is dropped. */
  lemma NothingDropped(ps: seq<Proposal>, entities: seq<Entity>)
    requires forall k :: 0 <= k < |Reconcile.Processed(ps, ps, entities)| ==>
      |Reconcile.Processed(ps, ps, entities)[k].dataModels| > 0
    ensures Reconcile.ReconcileProposals(ps, ps, entities) == Reconcile.Processed(ps, ps, entities)
  {
    Reconcile.DropEmptyKeepsFull(Reconcile.Processed(ps, ps, entities));
  }

  /** Two non-empty microservices pass the final filter unchanged. */
  lemma KeepTwo(ms: seq<Microservice>)
    requires |ms| == 2 && |ms[0].dataModels| > 0 && |ms[1].dataModels| > 0
    ensures Reconcile.DropEmpty(ms) == ms
  {
    assert forall i :: 0 <= i < |ms| ==> |ms[i].dataModels| > 0 by {
      forall i | 0 <= i < |ms| ensures |ms[i].dataModels| > 0 {
        if i != 0 { assert i == 1; }
      }
    }
    Reconcile.DropEmptyKeepsFull(ms);
  }

  /** A microservice [x, w] against the entities x, y keeps only `x`. */
  lemma UnknownDropped()
    ensures var entities := [Ent("1", "x"), Ent("2", "y")];
      var ps := [Svc("M", [JString("x"), JString("w")])];
      var out := Reconcile.ReconcileProposals(ps, ps, entities);
      |out| == 1 && forall s :: s in Kept(out[0]) <==> s == "x"
  {
    var entities := [Ent("1", "x"), Ent("2", "y")];
    var ps := [Svc("M", [JString("x"), JString("w")])];
    PairNames(entities, "x", "y");
    OneService(ps, entities, "x");
    var out := Reconcile.ReconcileProposals(ps, ps, entities);
    forall s ensures s in Kept(out[0]) <==> s == "x" {
      PairMembers(s, "x", "w");
    }
  }

  /** The names of a two-entity snapshot. */
  lemma PairNames(entities: seq<Entity>, a: string, b: string)
    requires |entities| == 2 && entities[0].name == a && entities[1].name == b
    ensures EntityNames(entities) == {a, b}
  {
    assert a in EntityNames(entities) && b in EntityNames(entities);
  }

  /** A lone microservice that lists a known name survives and keeps exactly its
      known names. */
  lemma OneService(ps: seq<Proposal>, entities: seq<Entity>, own0: string)
    requires |ps| == 1
    requires JString(own0) in ps[0].names && own0 in EntityNames(entities)
    ensures var out := Reconcile.ReconcileProposals(ps, ps, entities);
      && |out| == 1
      && (forall s :: s in Kept(out[0]) <==> JString(s) in ps[0].names && s in EntityNames(entities))
  {
    var known := EntityNames(entities);
    var processed := Reconcile.Processed(ps, ps, entities);
    assert Reconcile.AllNames(ps[..0]) == [] by { assert ps[..0] == []; }
    assert |processed| == 1 &&
      (forall s :: s in Reconcile.Names(processed[0].dataModels) <==> JString(s) in ps[0].names && s in known) by {
      Reconcile.ClaimRule(ps, ps, entities);
    }
    assert own0 in Reconcile.Names(processed[0].dataModels);
    NothingDropped(ps, entities);
  }

  /** `A` [x] and `B` [x, w] against the entity x, in any order: the one processed
      first claims x, everything the other lists is then claimed or unknown, and only
      the first survives, keeping x. */
  lemma EmptyServiceDropped(ordered: seq<Proposal>)
    requires multiset(ordered) == multiset([Svc("A", [JString("x")]), Svc("B", [JString("x"), JString("w")])])
    ensures var ps := [Svc("A", [JString("x")]), Svc("B", [JString("x"), JString("w")])];
      var out := Reconcile.ReconcileProposals(ps, ordered, [Ent("1", "x")]);
      && |out| == 1
      && (forall s :: s in Kept(out[0]) <==> s == "x")
      && (out[0].name == Some(JString("A")) <==> ordered == ps)
      && (out[0].name == Some(JString("B")) <==> ordered != ps)
  {
    var entities := [Ent("1", "x")];
    var ps := [Svc("A", [JString("x")]), Svc("B", [JString("x"), JString("w")])];
    assert EntityNames(entities) == {"x"} by { assert entities[0].name == "x"; }
    TwoOrders(ps, ordered);
    forall s ensures JString(s) in ps[1].names <==> s == "x" || s == "w" {
      PairMembers(s, "x", "w");
    }
    SecondServiceEmptied(ps, ordered, entities, "x");
  }

  /** A non-empty list of data models lists the name of its first one. */
  lemma HeadNamed(dms: seq<DataModel>)
    ensures |dms| > 0 ==> dms[0].name in Reconcile.Names(dms)
  {
  }

  /** Of two microservices, the second processed disappears when every known name it
      lists is already listed by the first, and the first keeps its known names. */
  lemma SecondServiceEmptied(ps: seq<Proposal>, ordered: seq<Proposal>, entities: seq<Entity>, own0: string)
    requires multiset(ordered) == multiset(ps) && |ordered| == 2
    requires JString(own0) in ordered[0].names && own0 in EntityNames(entities)
    requires forall s :: JString(s) in ordered[1].names && s in EntityNames(entities) ==> JString(s) in ordered[0].names
    ensures var out := Reconcile.ReconcileProposals(ps, ordered, entities);
      && |out| == 1
      && out[0].name == ordered[0].name
      && (forall s :: s in Kept(out[0]) <==> JString(s) in ordered[0].names && s in EntityNames(entities))
  {
    var known := EntityNames(entities);
    var processed := Reconcile.Processed(ps, ordered, entities);
    PrefixesOfTwo(ordered);
    assert |processed| == 2 && processed[0].name == ordered[0].name &&
      (forall s :: s in Reconcile.Names(processed[0].dataModels) <==> JString(s) in ordered[0].names && s in known) &&
      (forall s :: s in Reconcile.Names(processed[1].dataModels) <==>
         JString(s) in ordered[1].names && s in known && JString(s) !in ordered[0].names) by {
      Reconcile.ClaimRule(ps, ordered, entities);
    }
    assert |processed[0].dataModels| > 0 by {
      assert own0 in Reconcile.Names(processed[0].dataModels);
    }
    assert |processed[1].dataModels| == 0 by {
      HeadNamed(processed[1].dataModels);
    }
    assert Reconcile.ReconcileProposals(ps, ordered, entities) == [processed[0]] by {
      DropSecond(processed);
    }
  }

  lemma DropSecond(ms: seq<Microservice>)
    requires |ms| == 2 && |ms[0].dataModels| > 0 && |ms[1].dataModels| == 0
    ensures Reconcile.DropEmpty(ms) == [ms[0]]
  {
  }

  /** A payload that does not parse (`"{not json"`) fails with the bad-format error
      carrying the text, whatever the store and the ordering. */
  lemma MalformedPayload(resourceId: string, store: ResourceStore, reorder: seq<Proposal> -> seq<Proposal>)
    requires ResourceBtm.IsReordering(reorder)
    ensures ResourceBtm.PrepareBtmRecommendations(Payload("{not json", None), resourceId, store, reorder)
         == Failure(GptBadFormatResponse("{not json"))
  {
  }

  /** A Lookup field of a snapshot with two entities: a field that points at the
      second entity gets its name, one that points at the first gets none. */
  lemma FirstEntityUnresolved()
    ensures var toB := Field("b", "b", DataTypes.Lookup, map["relatedEntityId" := JString("idB")]);
      var toA := Field("a", "a", DataTypes.Lookup, map["relatedEntityId" := JString("idA")]);
      var resource := Resource("r", "r", None, [
        Entity("idA", "A", "A", [EntityVersion([toB])]),
        Entity("idB", "B", "B", [EntityVersion([toA])])]);
      var prompt := Prompt.GeneratePromptForBreakTheMonolith(resource);
      && prompt.Success?
      && prompt.value.dataModels[0].fields[0].dataType == Some("B")
      && prompt.value.dataModels[1].fields[0].dataType == None
  {
    var toB := Field("b", "b", DataTypes.Lookup, map["relatedEntityId" := JString("idB")]);
    var toA := Field("a", "a", DataTypes.Lookup, map["relatedEntityId" := JString("idA")]);
    var es := [Entity("idA", "A", "A", [EntityVersion([toB])]), Entity("idB", "B", "B", [EntityVersion([toA])])];
    var resource := Resource("r", "r", None, es);
    Prompt.PromptFieldDataType(resource, 0, 0);
    Prompt.PromptFieldDataType(resource, 1, 0);
    assert Prompt.RelatedEntityId(toB) == Some("idB");
    assert Prompt.RelatedEntityId(toA) == Some("idA");
    var dt := Prompt.GeneratePromptForBreakTheMonolith(resource).value.dataModels[0].fields[0].dataType;
    assert dt.Some? by { assert es[1].id == "idB"; }
    var k :| Prompt.ResolvesTo(es, "idB", k, dt.value);
    assert k == 1;
  }
}
