/** The reconciliation of a generative proposal against the original entities
    (the body of `prepareBtmRecommendations` after parsing): a left-to-right filter
    that threads the set of already-claimed duplicated names through all
    microservices, id attachment, and removal of microservices left empty. */
module Reconcile {
  import opened Wrappers
  import opened J = Json
  import Assoc
  import opened BtmTypes
  import Duplicates

  predicate NoDuplicates<T(==)>(s: seq<T>)
  {
    forall i, j :: 0 <= i < j < |s| ==> s[i] != s[j]
  }

  /** A proposed name is known when it is a string naming an original entity. */
  predicate IsKnown(x: Json, known: set<string>)
  {
    x.JString? && x.str in known
  }

  // ----- flattening -----

  /** All proposed names, microservice after microservice (`map(...).flat()`). */
  function AllNames(ps: seq<Proposal>): seq<Json>
  {
    if |ps| == 0 then [] else ps[0].names + AllNames(ps[1..])
  }

  function Names(dms: seq<DataModel>): (names: seq<string>)
    ensures |names| == |dms|
    ensures forall i :: 0 <= i < |dms| ==> names[i] == dms[i].name
  {
    if |dms| == 0 then [] else [dms[0].name] + Names(dms[1..])
  }

  /** All output names, microservice after microservice. */
  function OutputNames(ms: seq<Microservice>): seq<string>
  {
    if |ms| == 0 then [] else Names(ms[0].dataModels) + OutputNames(ms[1..])
  }

  // ----- the reference: first known occurrences -----

  /** The known names of `xs`, each taken at its first occurrence, in order. This is
      what the reconciler is meant to distribute over the microservices. */
  function FirstKnown(xs: seq<Json>, known: set<string>): seq<string>
  {
    if |xs| == 0 then []
    else
      var init := xs[..|xs| - 1];
      var x := xs[|xs| - 1];
      FirstKnown(init, known) + (if IsKnown(x, known) && x !in init then [x.str] else [])
  }

  /** The reference holds every known proposed name exactly once, and nothing else. */
  lemma {:induction false} FirstKnownSpec(xs: seq<Json>, known: set<string>)
    ensures forall s :: s in FirstKnown(xs, known) <==> JString(s) in xs && s in known
    ensures NoDuplicates(FirstKnown(xs, known))
    decreases |xs|
  {
    if |xs| > 0 {
      var init := xs[..|xs| - 1];
      var x := xs[|xs| - 1];
      assert xs == init + [x];
      FirstKnownSpec(init, known);
    }
  }

  lemma ConcatAssoc<T>(a: seq<T>, b: seq<T>, c: seq<T>)
    ensures a + (b + c) == (a + b) + c
  {
  }

  lemma FirstKnownSnoc(pre: seq<Json>, x: Json, known: set<string>)
    ensures FirstKnown(pre + [x], known)
         == FirstKnown(pre, known) + (if IsKnown(x, known) && x !in pre then [x.str] else [])
  {
  }

  // ----- the filter pass -----

  /** Every value that occurs at least twice in `xs` is marked duplicated. */
  ghost predicate DupsCover(xs: seq<Json>, dups: set<Json>)
  {
    forall y :: multiset(xs)[y] >= 2 ==> y in dups
  }

  /** The claimed set holds exactly the duplicated values seen in `pre`. */
  ghost predicate ClaimedSoFar(used: set<Json>, dups: set<Json>, pre: seq<Json>)
  {
    forall y :: y in used <==> y in dups && y in pre
  }

  /** What a filter pass keeps, and the claimed-duplicates set after it. */
  datatype Pass = Pass(kept: seq<string>, used: set<Json>)

  /** The `filter` callback run over one microservice's names: a name is marked as
      claimed when it is a duplicated one (known or not), and kept when it is known
      and was not claimed before. */
  function FilterNames(names: seq<Json>, known: set<string>, dups: set<Json>, used: set<Json>): (p: Pass)
    ensures forall s :: s in p.kept ==> s in known
    ensures used <= p.used && p.used <= used + dups
  {
    if |names| == 0 then Pass([], used)
    else
      var x := names[0];
      var alreadyUsed := x in used;
      var used' := if x in dups then used + {x} else used;
      var rest := FilterNames(names[1..], known, dups, used');
      if IsKnown(x, known) && !alreadyUsed then Pass([x.str] + rest.kept, rest.used) else rest
  }

  /** With the claimed set holding the duplicated names seen so far, and every
      repeated name marked duplicated, a pass keeps exactly the first known
      occurrences that the list adds to what was seen before. */
  lemma {:induction false} FilterMatchesReference(
    pre: seq<Json>, xs: seq<Json>, known: set<string>, dups: set<Json>, used: set<Json>)
    requires ClaimedSoFar(used, dups, pre)
    requires DupsCover(pre + xs, dups)
    ensures FirstKnown(pre, known) + FilterNames(xs, known, dups, used).kept == FirstKnown(pre + xs, known)
    ensures ClaimedSoFar(FilterNames(xs, known, dups, used).used, dups, pre + xs)
    decreases |xs|
  {
    if |xs| == 0 {
      assert pre + xs == pre;
    } else {
      var x := xs[0];
      var used' := if x in dups then used + {x} else used;
      var pre' := pre + [x];
      assert pre' + xs[1..] == pre + xs;
      if x in pre {
        assert multiset(pre + xs) == multiset(pre) + multiset(xs);
        assert x in multiset(xs);
        assert x in dups;
      }
      assert x in used <==> x in pre;
      assert ClaimedSoFar(used', dups, pre');
      FilterMatchesReference(pre', xs[1..], known, dups, used');
      FirstKnownSnoc(pre, x, known);
      var rest := FilterNames(xs[1..], known, dups, used');
      assert FilterNames(xs, known, dups, used).kept
          == (if IsKnown(x, known) && x !in pre then [x.str] else []) + rest.kept;
      assert FilterNames(xs, known, dups, used).used == rest.used;
      var step := if IsKnown(x, known) && x !in pre then [x.str] else [];
      calc {
        FirstKnown(pre, known) + FilterNames(xs, known, dups, used).kept;
        FirstKnown(pre, known) + (step + rest.kept);
        { ConcatAssoc(FirstKnown(pre, known), step, rest.kept); }
        (FirstKnown(pre, known) + step) + rest.kept;
        FirstKnown(pre', known) + rest.kept;
        FirstKnown(pre + xs, known);
      }
    }
  }

  /** A pass keeps a name exactly when the list proposes it, it is known, and it
      was not proposed before. */
  lemma KeptRule(pre: seq<Json>, xs: seq<Json>, known: set<string>, dups: set<Json>, used: set<Json>)
    requires ClaimedSoFar(used, dups, pre)
    requires DupsCover(pre + xs, dups)
    ensures forall s :: s in FilterNames(xs, known, dups, used).kept <==>
      JString(s) in xs && s in known && JString(s) !in pre
  {
    var kept := FilterNames(xs, known, dups, used).kept;
    var whole := FirstKnown(pre + xs, known);
    var before := FirstKnown(pre, known);
    assert whole == before + kept by { FilterMatchesReference(pre, xs, known, dups, used); }
    KeptFromWhole(pre, xs, known, before, kept);
  }

  /** Reading the kept names off the reference split at the end of `pre`. */
  lemma KeptFromWhole(pre: seq<Json>, xs: seq<Json>, known: set<string>, before: seq<string>, kept: seq<string>)
    requires before == FirstKnown(pre, known)
    requires FirstKnown(pre + xs, known) == before + kept
    ensures forall s :: s in kept <==> JString(s) in xs && s in known && JString(s) !in pre
  {
    var whole := FirstKnown(pre + xs, known);
    FirstKnownSpec(pre, known);
    FirstKnownSpec(pre + xs, known);
    forall s | s in kept ensures JString(s) in xs && s in known && JString(s) !in pre {
      var i :| 0 <= i < |kept| && kept[i] == s;
      assert whole[|before| + i] == s;
      forall b | 0 <= b < |before| ensures before[b] != s {
        assert whole[b] == before[b];
      }
    }
  }

  // ----- id attachment and the whole fold -----

  /** The (name, id) pair of every entity, in order. */
  function NameIdPairs(entities: seq<Entity>): (pairs: seq<(string, string)>)
    ensures |pairs| == |entities|
    ensures forall k :: 0 <= k < |entities| ==> pairs[k] == (entities[k].name, entities[k].id)
  {
    seq(|entities|, k requires 0 <= k < |entities| => (entities[k].name, entities[k].id))
  }

  /** `entityNameIdMap`, reduced from an empty object: a later entity of the same
      name overwrites an earlier one. */
  function NameIdMap(entities: seq<Entity>): map<string, string>
  {
    Assoc.ToMap(NameIdPairs(entities))
  }

  /** `entities[e]` is the last entity named `name`, and its id is `id`. */
  predicate IsOriginalEntity(entities: seq<Entity>, name: string, id: string)
  {
    exists e :: 0 <= e < |entities| && entities[e].name == name && entities[e].id == id &&
      forall e' :: e < e' < |entities| ==> entities[e'].name != name
  }

  /** The name table has exactly the entity names as keys, and yields the id of the
      last entity of each name. */
  lemma NameIdMapSpec(entities: seq<Entity>)
    ensures NameIdMap(entities).Keys == EntityNames(entities)
    ensures forall n :: n in NameIdMap(entities) ==> IsOriginalEntity(entities, n, NameIdMap(entities)[n])
  {
    var pairs := NameIdPairs(entities);
    var m := NameIdMap(entities);
    forall n | n in EntityNames(entities) ensures n in m {
      var k :| 0 <= k < |entities| && entities[k].name == n;
      assert pairs[k].0 == n;
    }
    forall n | n in m ensures n in EntityNames(entities) && IsOriginalEntity(entities, n, m[n]) {
      var p := Assoc.LastIndexOf(pairs, n);
      assert 0 <= p;
      forall e' | p < e' < |entities| ensures entities[e'].name != n {
        assert pairs[e'].0 == entities[e'].name;
      }
    }
  }

  function AttachIds(names: seq<string>, nameIds: map<string, string>): (dms: seq<DataModel>)
    ensures Names(dms) == names
    ensures forall i :: 0 <= i < |names| && names[i] in nameIds ==> dms[i].originalEntityId == Some(nameIds[names[i]])
    ensures forall i :: 0 <= i < |names| && names[i] !in nameIds ==> dms[i].originalEntityId.None?
  {
    var dms := seq(|names|, i requires 0 <= i < |names| =>
      DataModel(names[i], if names[i] in nameIds then Some(nameIds[names[i]]) else None));
    assert forall i :: 0 <= i < |names| ==> Names(dms)[i] == names[i];
    dms
  }

  /** Every data model names a known entity and carries the id the table gives it. */
  predicate WellAttached(m: Microservice, known: set<string>, nameIds: map<string, string>)
  {
    forall j :: 0 <= j < |m.dataModels| ==>
      m.dataModels[j].name in known &&
      (m.dataModels[j].name in nameIds ==>
         m.dataModels[j].originalEntityId == Some(nameIds[m.dataModels[j].name]))
  }

  /** The `map` over the (reordered) microservices: name and functionality pass
      through, the names are filtered with the claimed set threaded from one
      microservice to the next, and ids are attached. */
  function ProcessAll(ps: seq<Proposal>, known: set<string>, dups: set<Json>,
                      nameIds: map<string, string>, used: set<Json>): (ms: seq<Microservice>)
    ensures |ms| == |ps|
    ensures forall k :: 0 <= k < |ps| ==>
      ms[k].name == ps[k].name && ms[k].functionality == ps[k].functionality &&
      WellAttached(ms[k], known, nameIds)
  {
    if |ps| == 0 then []
    else
      var pass := FilterNames(ps[0].names, known, dups, used);
      var dms := AttachIds(pass.kept, nameIds);
      assert forall j :: 0 <= j < |dms| ==> dms[j].name == pass.kept[j];
      [Microservice(ps[0].name, ps[0].functionality, dms)]
        + ProcessAll(ps[1..], known, dups, nameIds, pass.used)
  }

  /** Over all microservices, the output names are the first known occurrences of
      the proposed names, and the claimed set ends up holding every duplicated name
      proposed. */
  lemma {:induction false} ProcessAllMatchesReference(
    pre: seq<Json>, ps: seq<Proposal>, known: set<string>, dups: set<Json>,
    nameIds: map<string, string>, used: set<Json>)
    requires ClaimedSoFar(used, dups, pre)
    requires DupsCover(pre + AllNames(ps), dups)
    ensures FirstKnown(pre, known) + OutputNames(ProcessAll(ps, known, dups, nameIds, used))
         == FirstKnown(pre + AllNames(ps), known)
    decreases |ps|
  {
    if |ps| == 0 {
      assert pre + AllNames(ps) == pre;
    } else {
      var names0 := ps[0].names;
      var pass := FilterNames(names0, known, dups, used);
      var pre' := pre + names0;
      var out := ProcessAll(ps, known, dups, nameIds, used);
      var tail := ProcessAll(ps[1..], known, dups, nameIds, pass.used);
      FirstStepSetup(pre, ps, known, dups, used);
      ProcessAllMatchesReference(pre', ps[1..], known, dups, nameIds, pass.used);
      assert out == [out[0]] + tail;
      assert Names(out[0].dataModels) == pass.kept;
      assert OutputNames(out) == pass.kept + OutputNames(tail);
      calc {
        FirstKnown(pre, known) + OutputNames(out);
        FirstKnown(pre, known) + (pass.kept + OutputNames(tail));
        { ConcatAssoc(FirstKnown(pre, known), pass.kept, OutputNames(tail)); }
        (FirstKnown(pre, known) + pass.kept) + OutputNames(tail);
        FirstKnown(pre', known) + OutputNames(tail);
        FirstKnown(pre' + AllNames(ps[1..]), known);
        FirstKnown(pre + AllNames(ps), known);
      }
    }
  }

  /** The facts the fold needs when it moves past the first microservice: the pass
      over it matches the reference, and the claimed set and duplicate coverage
      carry over to the remaining microservices. */
  lemma FirstStepSetup(pre: seq<Json>, ps: seq<Proposal>, known: set<string>, dups: set<Json>, used: set<Json>)
    requires |ps| > 0
    requires ClaimedSoFar(used, dups, pre)
    requires DupsCover(pre + AllNames(ps), dups)
    ensures var pass := FilterNames(ps[0].names, known, dups, used);
      && FirstKnown(pre, known) + pass.kept == FirstKnown(pre + ps[0].names, known)
      && ClaimedSoFar(pass.used, dups, pre + ps[0].names)
      && DupsCover((pre + ps[0].names) + AllNames(ps[1..]), dups)
      && pre + AllNames(ps) == (pre + ps[0].names) + AllNames(ps[1..])
  {
    FirstStepCover(pre, ps, dups);
    FilterMatchesReference(pre, ps[0].names, known, dups, used);
  }

  lemma FirstStepCover(pre: seq<Json>, ps: seq<Proposal>, dups: set<Json>)
    requires |ps| > 0
    requires DupsCover(pre + AllNames(ps), dups)
    ensures DupsCover(pre + ps[0].names, dups)
    ensures DupsCover((pre + ps[0].names) + AllNames(ps[1..]), dups)
    ensures pre + AllNames(ps) == (pre + ps[0].names) + AllNames(ps[1..])
  {
    var pre' := pre + ps[0].names;
    assert pre + AllNames(ps) == pre' + AllNames(ps[1..]);
    forall y | multiset(pre')[y] >= 2 ensures y in dups {
      assert multiset(pre + AllNames(ps)) == multiset(pre') + multiset(AllNames(ps[1..]));
    }
  }

  /** Microservice `k` keeps exactly the known names it proposes that were not
      proposed before it in the processing order. */
  lemma {:induction false} ClaimAt(
    pre: seq<Json>, ps: seq<Proposal>, known: set<string>, dups: set<Json>,
    nameIds: map<string, string>, used: set<Json>, k: int)
    requires ClaimedSoFar(used, dups, pre)
    requires DupsCover(pre + AllNames(ps), dups)
    requires 0 <= k < |ps|
    ensures forall s :: s in Names(ProcessAll(ps, known, dups, nameIds, used)[k].dataModels) <==>
      JString(s) in ps[k].names && s in known && JString(s) !in pre + AllNames(ps[..k])
    decreases k
  {
    if k == 0 {
      ClaimFirst(pre, ps, known, dups, nameIds, used);
    } else {
      var pass := FilterNames(ps[0].names, known, dups, used);
      var pre' := pre + ps[0].names;
      CarryOver(pre, ps, known, dups, used);
      ClaimAt(pre', ps[1..], known, dups, nameIds, pass.used, k - 1);
      ShiftIndex(pre, ps, known, dups, nameIds, used, k);
    }
  }

  lemma ClaimFirst(
    pre: seq<Json>, ps: seq<Proposal>, known: set<string>, dups: set<Json>,
    nameIds: map<string, string>, used: set<Json>)
    requires ClaimedSoFar(used, dups, pre)
    requires DupsCover(pre + AllNames(ps), dups)
    requires 0 < |ps|
    ensures forall s :: s in Names(ProcessAll(ps, known, dups, nameIds, used)[0].dataModels) <==>
      JString(s) in ps[0].names && s in known && JString(s) !in pre + AllNames(ps[..0])
  {
    var pass := FilterNames(ps[0].names, known, dups, used);
    assert Names(ProcessAll(ps, known, dups, nameIds, used)[0].dataModels) == pass.kept;
    FirstStepCover(pre, ps, dups);
    KeptRule(pre, ps[0].names, known, dups, used);
    assert pre + AllNames(ps[..0]) == pre by {
      assert ps[..0] == [];
    }
  }

  lemma CarryOver(pre: seq<Json>, ps: seq<Proposal>, known: set<string>, dups: set<Json>, used: set<Json>)
    requires ClaimedSoFar(used, dups, pre)
    requires DupsCover(pre + AllNames(ps), dups)
    requires 0 < |ps|
    ensures ClaimedSoFar(FilterNames(ps[0].names, known, dups, used).used, dups, pre + ps[0].names)
    ensures DupsCover((pre + ps[0].names) + AllNames(ps[1..]), dups)
  {
    FirstStepCover(pre, ps, dups);
    FilterMatchesReference(pre, ps[0].names, known, dups, used);
  }

  lemma ShiftIndex(
    pre: seq<Json>, ps: seq<Proposal>, known: set<string>, dups: set<Json>,
    nameIds: map<string, string>, used: set<Json>, k: int)
    requires 1 <= k < |ps|
    ensures var pass := FilterNames(ps[0].names, known, dups, used);
      && ProcessAll(ps, known, dups, nameIds, used)[k]
         == ProcessAll(ps[1..], known, dups, nameIds, pass.used)[k - 1]
      && ps[1..][k - 1] == ps[k]
      && pre + AllNames(ps[..k]) == (pre + ps[0].names) + AllNames(ps[1..][..k - 1])
  {
    PrefixNames(ps, k);
  }

  /** The names proposed before microservice `k`, split after the first one. */
  lemma PrefixNames(ps: seq<Proposal>, k: int)
    requires 1 <= k <= |ps|
    ensures AllNames(ps[..k]) == ps[0].names + AllNames(ps[1..][..k - 1])
  {
    assert ps[..k][0] == ps[0];
    assert ps[..k][1..] == ps[1..][..k - 1];
  }

  // ----- dropping empty microservices -----

  /** `filter(microservice => microservice.dataModels.length > 0)`. */
  function DropEmpty(ms: seq<Microservice>): (r: seq<Microservice>)
    ensures forall i :: 0 <= i < |r| ==> |r[i].dataModels| > 0
    ensures forall m :: m in r <==> m in ms && |m.dataModels| > 0
    ensures OutputNames(r) == OutputNames(ms)
    ensures |r| <= |ms|
  {
    if |ms| == 0 then []
    else
      var rest := DropEmpty(ms[1..]);
      assert ms == [ms[0]] + ms[1..];
      if |ms[0].dataModels| == 0 then
        assert Names(ms[0].dataModels) == [];
        assert OutputNames(ms) == OutputNames(ms[1..]);
        rest
      else
        var r := [ms[0]] + rest;
        assert r[0] == ms[0] && r[1..] == rest;
        assert OutputNames(r) == Names(ms[0].dataModels) + OutputNames(rest);
        r
  }

  /** When no microservice is empty, the filter drops nothing. */
  lemma {:induction false} DropEmptyKeepsFull(ms: seq<Microservice>)
    requires forall i :: 0 <= i < |ms| ==> |ms[i].dataModels| > 0
    ensures DropEmpty(ms) == ms
    decreases |ms|
  {
    if |ms| > 0 {
      assert |ms[0].dataModels| > 0;
      DropEmptyKeepsFull(ms[1..]);
      assert ms == [ms[0]] + ms[1..];
    }
  }

  /** The filter keeps the relative order: appending a microservice appends it to
      the result exactly when it is not empty. */
  lemma {:induction false} DropEmptySnoc(ms: seq<Microservice>, m: Microservice)
    ensures DropEmpty(ms + [m]) == DropEmpty(ms) + (if |m.dataModels| > 0 then [m] else [])
    decreases |ms|, 1
  {
    if |ms| == 0 {
      assert ms + [m] == [m];
    } else {
      DropEmptyCons(ms, m);
    }
  }

  lemma TailOfSnoc<T>(s: seq<T>, x: T)
    requires |s| > 0
    ensures (s + [x])[1..] == s[1..] + [x]
  {
  }

  /** The inductive step of `DropEmptySnoc`: one unfolding of `DropEmpty` on `ms + [m]`. */
  lemma {:induction false} DropEmptyCons(ms: seq<Microservice>, m: Microservice)
    requires |ms| > 0
    ensures DropEmpty(ms + [m]) == DropEmpty(ms) + (if |m.dataModels| > 0 then [m] else [])
    decreases |ms|, 0
  {
    DropEmptySnoc(ms[1..], m);
    var whole := ms + [m];
    assert whole[0] == ms[0];
    TailOfSnoc(ms, m);
    var tail := if |m.dataModels| > 0 then [m] else [];
    if |ms[0].dataModels| == 0 {
      assert DropEmpty(whole) == DropEmpty(whole[1..]);
    } else {
      assert DropEmpty(whole) == [ms[0]] + DropEmpty(whole[1..]);
      assert DropEmpty(ms) == [ms[0]] + DropEmpty(ms[1..]);
      ConcatAssoc([ms[0]], DropEmpty(ms[1..]), tail);
    }
  }

  // ----- reordering -----

  lemma {:induction false} AllNamesAppend(a: seq<Proposal>, b: seq<Proposal>)
    ensures AllNames(a + b) == AllNames(a) + AllNames(b)
    decreases |a|
  {
    if |a| == 0 {
      assert a + b == b;
    } else {
      assert (a + b)[0] == a[0];
      assert (a + b)[1..] == a[1..] + b;
      AllNamesAppend(a[1..], b);
    }
  }

  /** Reordering the microservices does not change how often each name is proposed. */
  lemma {:induction false} ReorderKeepsNames(a: seq<Proposal>, b: seq<Proposal>)
    requires multiset(a) == multiset(b)
    ensures multiset(AllNames(a)) == multiset(AllNames(b))
    decreases |a|
  {
    if |a| == 0 {
      assert |b| == |multiset(b)| == 0;
    } else {
      assert a[0] in multiset(b);
      var k :| 0 <= k < |b| && b[k] == a[0];
      var left, right := b[..k], b[k + 1..];
      RemoveMatched(a, b, k);
      ReorderKeepsNames(a[1..], left + right);
      AllNamesAround(b, k);
      AllNamesAppend(left, right);
      calc {
        multiset(AllNames(a));
        multiset(a[0].names + AllNames(a[1..]));
        multiset(a[0].names) + multiset(AllNames(a[1..]));
        multiset(b[k].names) + multiset(AllNames(left) + AllNames(right));
        multiset(AllNames(left) + (b[k].names + AllNames(right)));
        multiset(AllNames(b));
      }
    }
  }

  /** Taking the first element of `a` and a matching element of `b` away leaves
      equal multisets. */
  lemma RemoveMatched(a: seq<Proposal>, b: seq<Proposal>, k: int)
    requires multiset(a) == multiset(b)
    requires |a| > 0 && 0 <= k < |b| && b[k] == a[0]
    ensures multiset(a[1..]) == multiset(b[..k] + b[k + 1..])
  {
    var left, right := b[..k], b[k + 1..];
    assert b == left + [b[k]] + right;
    assert a == [a[0]] + a[1..];
    forall y ensures multiset(a[1..])[y] == multiset(left + right)[y] {
      assert multiset(a)[y] == multiset([a[0]])[y] + multiset(a[1..])[y];
      assert multiset(b)[y] == multiset(left)[y] + multiset([b[k]])[y] + multiset(right)[y];
    }
  }

  lemma AllNamesAround(b: seq<Proposal>, k: int)
    requires 0 <= k < |b|
    ensures AllNames(b) == AllNames(b[..k]) + (b[k].names + AllNames(b[k + 1..]))
  {
    var left, mid, right := b[..k], [b[k]] + b[k + 1..], b[k + 1..];
    assert AllNames(mid) == b[k].names + AllNames(right) by {
      assert mid[0] == b[k] && mid[1..] == right;
    }
    assert AllNames(b) == AllNames(left) + AllNames(mid) by {
      assert b == left + mid;
      AllNamesAppend(left, mid);
    }
  }

  // ----- the reconciler -----

  /** The microservices after the filter-and-attach `map`, before empties are dropped:
      duplicates are counted over the proposals in their original order, while the
      fold runs over the reordered ones. */
  function Processed(proposals: seq<Proposal>, ordered: seq<Proposal>, entities: seq<Entity>): seq<Microservice>
  {
    ProcessAll(ordered, EntityNames(entities),
               Duplicates.FindDuplicatedEntities(AllNames(proposals)),
               NameIdMap(entities), {})
  }

  /** The reconciled proposal, for any reordering of the proposals: no microservice
      is empty; every known proposed name appears exactly once and no other name
      appears; and every data model carries the id of the (last) original entity of
      its name. */
  function ReconcileProposals(proposals: seq<Proposal>, ordered: seq<Proposal>, entities: seq<Entity>)
    : (out: seq<Microservice>)
    requires multiset(ordered) == multiset(proposals)
    ensures forall i :: 0 <= i < |out| ==> |out[i].dataModels| > 0
    ensures NoDuplicates(OutputNames(out))
    ensures forall s :: s in OutputNames(out) <==>
      JString(s) in AllNames(proposals) && s in EntityNames(entities)
    ensures forall i, j :: 0 <= i < |out| && 0 <= j < |out[i].dataModels| ==>
      var dm := out[i].dataModels[j];
      dm.originalEntityId.Some? && IsOriginalEntity(entities, dm.name, dm.originalEntityId.value)
  {
    var processed := Processed(proposals, ordered, entities);
    ReconcileInvariants(proposals, ordered, entities);
    DropEmpty(processed)
  }

  lemma ReconcileInvariants(proposals: seq<Proposal>, ordered: seq<Proposal>, entities: seq<Entity>)
    requires multiset(ordered) == multiset(proposals)
    ensures var out := DropEmpty(Processed(proposals, ordered, entities));
      && NoDuplicates(OutputNames(out))
      && (forall s :: s in OutputNames(out) <==>
           JString(s) in AllNames(proposals) && s in EntityNames(entities))
      && (forall i, j :: 0 <= i < |out| && 0 <= j < |out[i].dataModels| ==>
           var dm := out[i].dataModels[j];
           dm.originalEntityId.Some? && IsOriginalEntity(entities, dm.name, dm.originalEntityId.value))
  {
    ReconcileNames(proposals, ordered, entities);
    ReconcileIds(proposals, ordered, entities);
  }

  /** The output names are the first known occurrences of the reordered proposal, so
      they hold each known proposed name once. */
  lemma ReconcileNames(proposals: seq<Proposal>, ordered: seq<Proposal>, entities: seq<Entity>)
    requires multiset(ordered) == multiset(proposals)
    ensures var out := DropEmpty(Processed(proposals, ordered, entities));
      && OutputNames(out) == FirstKnown(AllNames(ordered), EntityNames(entities))
      && NoDuplicates(OutputNames(out))
      && (forall s :: s in OutputNames(out) <==>
           JString(s) in AllNames(proposals) && s in EntityNames(entities))
  {
    OutputIsFirstKnown(proposals, ordered, entities);
    ReorderKeepsNames(ordered, proposals);
    ReorderedFirstKnown(AllNames(ordered), AllNames(proposals), EntityNames(entities));
  }

  /** The fold, followed by the filter, yields the first known occurrences. */
  lemma OutputIsFirstKnown(proposals: seq<Proposal>, ordered: seq<Proposal>, entities: seq<Entity>)
    requires multiset(ordered) == multiset(proposals)
    ensures OutputNames(DropEmpty(Processed(proposals, ordered, entities))) ==
            FirstKnown(AllNames(ordered), EntityNames(entities))
  {
    var known := EntityNames(entities);
    var dups := Duplicates.FindDuplicatedEntities(AllNames(proposals));
    StartFold(proposals, ordered);
    ProcessAllMatchesReference([], ordered, known, dups, NameIdMap(entities), {});
    assert [] + AllNames(ordered) == AllNames(ordered);
  }

  /** The first known occurrences of a sequence hold the known values of any
      rearrangement of it, once each. */
  lemma ReorderedFirstKnown(a: seq<Json>, b: seq<Json>, known: set<string>)
    requires multiset(a) == multiset(b)
    ensures NoDuplicates(FirstKnown(a, known))
    ensures forall s :: s in FirstKnown(a, known) <==> JString(s) in b && s in known
  {
    FirstKnownSpec(a, known);
    forall s ensures JString(s) in a <==> JString(s) in b {
      assert JString(s) in a <==> JString(s) in multiset(a);
      assert JString(s) in b <==> JString(s) in multiset(b);
    }
  }

  /** Every output data model carries the id of the last original entity of its name. */
  lemma ReconcileIds(proposals: seq<Proposal>, ordered: seq<Proposal>, entities: seq<Entity>)
    requires multiset(ordered) == multiset(proposals)
    ensures var out := DropEmpty(Processed(proposals, ordered, entities));
      forall i, j :: 0 <= i < |out| && 0 <= j < |out[i].dataModels| ==>
        var dm := out[i].dataModels[j];
        dm.originalEntityId.Some? && IsOriginalEntity(entities, dm.name, dm.originalEntityId.value)
  {
    var processed := Processed(proposals, ordered, entities);
    NameIdMapSpec(entities);
    IdsSurviveFilter(processed, entities);
  }

  /** Microservices whose ids are attached from the name table still carry original
      entity ids after the empty ones are dropped. */
  lemma IdsSurviveFilter(processed: seq<Microservice>, entities: seq<Entity>)
    requires forall k :: 0 <= k < |processed| ==>
      WellAttached(processed[k], EntityNames(entities), NameIdMap(entities))
    requires NameIdMap(entities).Keys == EntityNames(entities)
    requires forall n :: n in NameIdMap(entities) ==> IsOriginalEntity(entities, n, NameIdMap(entities)[n])
    ensures var out := DropEmpty(processed);
      forall i, j :: 0 <= i < |out| && 0 <= j < |out[i].dataModels| ==>
        var dm := out[i].dataModels[j];
        dm.originalEntityId.Some? && IsOriginalEntity(entities, dm.name, dm.originalEntityId.value)
  {
    var known := EntityNames(entities);
    var nameIds := NameIdMap(entities);
    var out := DropEmpty(processed);
    forall i, j | 0 <= i < |out| && 0 <= j < |out[i].dataModels|
      ensures out[i].dataModels[j].originalEntityId.Some? &&
              IsOriginalEntity(entities, out[i].dataModels[j].name, out[i].dataModels[j].originalEntityId.value)
    {
      assert out[i] in processed;
      var k :| 0 <= k < |processed| && processed[k] == out[i];
      assert WellAttached(processed[k], known, nameIds);
    }
  }

  /** Which names each microservice keeps, before empties are dropped: a
      microservice keeps a name exactly when it proposes it, the name is an
      original entity name, and no microservice earlier in the processing order
      proposed it. Name and functionality are carried over unchanged. */
  lemma ClaimRule(proposals: seq<Proposal>, ordered: seq<Proposal>, entities: seq<Entity>)
    requires multiset(ordered) == multiset(proposals)
    ensures var processed := Processed(proposals, ordered, entities);
      && |processed| == |ordered|
      && forall k :: 0 <= k < |ordered| ==>
           && processed[k].name == ordered[k].name
           && processed[k].functionality == ordered[k].functionality
           && forall s :: s in Names(processed[k].dataModels) <==>
                JString(s) in ordered[k].names && s in EntityNames(entities) &&
                JString(s) !in AllNames(ordered[..k])
  {
    var known := EntityNames(entities);
    var dups := Duplicates.FindDuplicatedEntities(AllNames(proposals));
    StartFold(proposals, ordered);
    forall k | 0 <= k < |ordered|
      ensures forall s :: s in Names(Processed(proposals, ordered, entities)[k].dataModels) <==>
                JString(s) in ordered[k].names && s in known && JString(s) !in AllNames(ordered[..k])
    {
      ClaimAt([], ordered, known, dups, NameIdMap(entities), {}, k);
      assert [] + AllNames(ordered[..k]) == AllNames(ordered[..k]);
    }
  }

  /** The fold starts with nothing claimed, and the duplicates counted over the
      proposals in their original order cover every repeat in the reordered ones. */
  lemma StartFold(proposals: seq<Proposal>, ordered: seq<Proposal>)
    requires multiset(ordered) == multiset(proposals)
    ensures ClaimedSoFar({}, Duplicates.FindDuplicatedEntities(AllNames(proposals)), [])
    ensures DupsCover([] + AllNames(ordered), Duplicates.FindDuplicatedEntities(AllNames(proposals)))
  {
    var dups := Duplicates.FindDuplicatedEntities(AllNames(proposals));
    assert [] + AllNames(ordered) == AllNames(ordered);
    ReorderKeepsNames(ordered, proposals);
    forall y | multiset(AllNames(ordered))[y] >= 2 ensures y in dups {
      assert multiset(AllNames(proposals))[y] >= 2;
    }
  }
}
