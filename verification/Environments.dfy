/**
  The environments of a project: at most one is the default, and each has a sort order.
 */
module Environments {
  import opened Wrappers

  type Id = string

  datatype Environment = Environment(
    projectId: Id, name: string, baseUrl: Option<string>, description: Option<string>, isDefault: bool, sortOrder: int)

  /** The columns an update names; the address and the description can be set to none. */
  datatype Data = Data(name: Option<string>, baseUrl: Option<Option<string>>, description: Option<Option<string>>,
                       isDefault: Option<bool>)

  type Table = map<Id, Environment>

  predicate InProject(t: Table, projectId: Id, id: Id) {
    id in t && t[id].projectId == projectId
  }

  predicate IsDefault(t: Table, projectId: Id, id: Id) {
    InProject(t, projectId, id) && t[id].isDefault
  }

  ghost predicate AtMostOneDefault(t: Table) {
    forall p, a, b :: IsDefault(t, p, a) && IsDefault(t, p, b) ==> a == b
  }

  ghost predicate DistinctOrders(t: Table, projectId: Id) {
    forall a, b :: InProject(t, projectId, a) && InProject(t, projectId, b) && t[a].sortOrder == t[b].sortOrder ==> a == b
  }

  /** `id` comes first in the project. */
  ghost predicate IsFirst(t: Table, projectId: Id, id: Id) {
    InProject(t, projectId, id) && forall other :: InProject(t, projectId, other) ==> t[id].sortOrder <= t[other].sortOrder
  }

  predicate SameButDefault(a: Environment, b: Environment) {
    b == a.(isDefault := b.isDefault)
  }

  /** Rows other than those of the project are left alone. */
  ghost predicate OthersKept(t: Table, projectId: Id, t': Table) {
    forall id :: (id in t && t[id].projectId != projectId) || (id in t' && t'[id].projectId != projectId) ==>
      id in t && id in t' && t'[id] == t[id]
  }

  /** The row with the columns written that the update names. */
  function Edited(row: Environment, data: Data): Environment {
    row.(name := Requested(row.name, data.name), baseUrl := Requested(row.baseUrl, data.baseUrl),
         description := Requested(row.description, data.description),
         isDefault := Requested(row.isDefault, data.isDefault))
  }

  /** `n` is one more than the largest order in the project, or 0 when it has no rows. */
  ghost predicate NextOrder(t: Table, projectId: Id, n: int) {
    && (forall id :: InProject(t, projectId, id) ==> t[id].sortOrder <= n - 1)
    && ((exists id :: InProject(t, projectId, id) && t[id].sortOrder == n - 1)
        || (n == 0 && forall id :: !InProject(t, projectId, id)))
  }

  lemma ClearedNextOrder(t: Table, projectId: Id, n: int)
    ensures NextOrder(WithoutDefault(t, projectId), projectId, n) ==> NextOrder(t, projectId, n)
  {
    var t' := WithoutDefault(t, projectId);
    forall id ensures InProject(t, projectId, id) <==> InProject(t', projectId, id) {
    }
    if NextOrder(t', projectId, n) && exists id :: InProject(t', projectId, id) && t'[id].sortOrder == n - 1 {
      var id :| InProject(t', projectId, id) && t'[id].sortOrder == n - 1;
      assert InProject(t, projectId, id) && t[id].sortOrder == n - 1;
    }
  }

  /** Making some row the default clears the others' flag first. */
  function Cleared(t: Table, projectId: Id, makesDefault: bool): Table {
    if makesDefault then WithoutDefault(t, projectId) else t
  }

  function WithoutDefault(t: Table, projectId: Id): Table {
    map id | id in t :: if t[id].projectId == projectId && t[id].isDefault then t[id].(isDefault := false) else t[id]
  }

  /** Beside a new row `t'` holds the rows of `t`, changed in the flags cleared and nothing else. */
  lemma OthersCleared(t: Table, projectId: Id, makesDefault: bool, newId: Id, t': Table)
    requires newId in t' && newId !in t && t' - {newId} == Cleared(t, projectId, makesDefault)
    ensures t'.Keys == t.Keys + {newId}
    ensures forall other :: other in t ==>
      && SameButDefault(t[other], t'[other])
      && (t'[other].isDefault <==> t[other].isDefault && !(makesDefault && t[other].projectId == projectId))
  {
    forall other ensures other in t' && other != newId <==> other in t {
      assert other in t' - {newId} <==> other in Cleared(t, projectId, makesDefault);
    }
    forall other | other in t ensures t'[other] == Cleared(t, projectId, makesDefault)[other] {
      assert (t' - {newId})[other] == t'[other];
    }
  }

  /** A row with the next order clashes with none. */
  lemma CreatedKeepsDistinct(t: Table, projectId: Id, makesDefault: bool, newId: Id, row: Environment)
    requires newId !in t && row.projectId == projectId && NextOrder(t, projectId, row.sortOrder)
    ensures DistinctOrders(t, projectId) ==> DistinctOrders(Cleared(t, projectId, makesDefault)[newId := row], projectId)
  {
    var t' := Cleared(t, projectId, makesDefault)[newId := row];
    forall id | InProject(t', projectId, id) && id != newId
      ensures InProject(t, projectId, id) && t'[id].sortOrder == t[id].sortOrder < row.sortOrder
    {
    }
  }

  lemma FewerDefaults(t: Table, t': Table)
    requires AtMostOneDefault(t) && forall p, id :: IsDefault(t', p, id) ==> IsDefault(t, p, id)
    ensures AtMostOneDefault(t')
  {
    forall p, a, b | IsDefault(t', p, a) && IsDefault(t', p, b) ensures a == b {
      assert IsDefault(t, p, a) && IsDefault(t, p, b);
    }
  }

  lemma DefaultsCleared(t: Table, projectId: Id)
    requires AtMostOneDefault(t)
    ensures AtMostOneDefault(WithoutDefault(t, projectId))
    ensures forall id :: !IsDefault(WithoutDefault(t, projectId), projectId, id)
  {
    FewerDefaults(t, WithoutDefault(t, projectId));
  }

  /** Clearing the flags only matters to the default itself. */
  lemma ClearedButFor(t: Table, projectId: Id, id: Id, row: Environment)
    requires AtMostOneDefault(t) && InProject(t, projectId, id)
    ensures t[id].isDefault ==> WithoutDefault(t, projectId)[id := row] == t[id := row]
    ensures t[id].isDefault ==> forall other :: other != id ==> !IsDefault(t, projectId, other)
  {
    if t[id].isDefault {
      assert IsDefault(t, projectId, id);
      forall other | other in t && other != id ensures WithoutDefault(t, projectId)[other] == t[other] {
        assert t[other].projectId == projectId && t[other].isDefault ==> IsDefault(t, projectId, other);
      }
    }
  }

  /** Writing a row of a project keeps one default at most, if the row is none or nothing else is. */
  lemma RowWritten(t: Table, id: Id, row: Environment)
    requires AtMostOneDefault(t) && (id in t ==> t[id].projectId == row.projectId)
    requires row.isDefault ==> forall other :: other != id ==> !IsDefault(t, row.projectId, other)
    ensures AtMostOneDefault(t[id := row])
  {
    var t' := t[id := row];
    forall p, a, b | IsDefault(t', p, a) && IsDefault(t', p, b) ensures a == b {
      assert a != id ==> IsDefault(t, p, a);
      assert b != id ==> IsDefault(t, p, b);
    }
  }

  /** The position a request gives to `id`: the last one that names it. */
  function LastIndex(ids: seq<Id>, id: Id): (i: nat)
    requires id in ids
    ensures i < |ids| && ids[i] == id && forall j :: i < j < |ids| ==> ids[j] != id
  {
    if ids[|ids| - 1] == id then |ids| - 1 else LastIndex(ids[..|ids| - 1], id)
  }

  function Reordered(t: Table, ids: seq<Id>): Table {
    map id | id in t :: if id in ids then t[id].(sortOrder := LastIndex(ids, id)) else t[id]
  }

  lemma FirstExists(t: Table, members: set<Id>) returns (first: Id)
    requires members != {} && members <= t.Keys
    ensures first in members && forall id :: id in members ==> t[first].sortOrder <= t[id].sortOrder
  {
    first :| first in members;
    var rest := members - {first};
    if rest != {} {
      var second := FirstExists(t, rest);
      if t[second].sortOrder < t[first].sortOrder {
        first := second;
      }
    }
  }

  lemma WithoutTheDefault(t: Table, projectId: Id, id: Id)
    requires AtMostOneDefault(t) && InProject(t, projectId, id)
    ensures t[id].isDefault ==> forall other :: !IsDefault(t - {id}, projectId, other)
  {
    if t[id].isDefault {
      forall other ensures !IsDefault(t - {id}, projectId, other) {
        assert IsDefault(t, projectId, id);
        assert IsDefault(t - {id}, projectId, other) ==> IsDefault(t, projectId, other);
      }
    }
  }

  class EnvironmentService {
    /** The projects `findById` finds. */
    const projects: set<Id>
    var environments: Table

    ghost predicate Valid()
      reads this
    {
      AtMostOneDefault(environments)
    }

    constructor (projects: set<Id>)
      ensures Valid() && this.projects == projects && environments == map[]
    {
      this.projects := projects;
      environments := map[];
    }

    /** `aggregate` of the largest sort order, or -1. */
    method MaxSortOrder(projectId: Id) returns (max: int)
      ensures NextOrder(environments, projectId, max + 1)
    {
      var rest := set id | id in environments && environments[id].projectId == projectId;
      var found := false;
      max := -1;
      while rest != {}
        invariant forall id :: id in rest ==> InProject(environments, projectId, id)
        invariant forall id :: InProject(environments, projectId, id) && id !in rest ==>
                    found && environments[id].sortOrder <= max
        invariant if found then exists id :: InProject(environments, projectId, id) && environments[id].sortOrder == max
                  else max == -1
        decreases rest
      {
        var id :| id in rest;
        if !found || environments[id].sortOrder > max {
          max := environments[id].sortOrder;
        }
        found := true;
        rest := rest - {id};
      }
    }

    method CreateEnvironment(projectId: Id, name: string, baseUrl: Option<string>, description: Option<string>,
                             isDefault: bool, newId: Id) returns (r: Result<Id>)
      requires Valid() && newId !in environments
      modifies this`environments
      ensures Valid()
      ensures r.Ok? <==> projectId in projects
      ensures r.Err? ==> r.error == NotFound && environments == old(environments)
      ensures r.Ok? ==> r.value == newId && InProject(environments, projectId, newId)
      ensures r.Ok? ==> environments[newId] ==
                          Environment(projectId, name, baseUrl, description, isDefault, environments[newId].sortOrder)
      ensures r.Ok? ==> environments - {newId} == Cleared(old(environments), projectId, isDefault)
      ensures r.Ok? ==> environments.Keys == old(environments).Keys + {newId}
      ensures r.Ok? ==> forall other :: other in old(environments) ==>
        && SameButDefault(old(environments)[other], environments[other])
        && (environments[other].isDefault <==>
              old(environments)[other].isDefault && !(isDefault && old(environments)[other].projectId == projectId))
      ensures r.Ok? ==> NextOrder(old(environments), projectId, environments[newId].sortOrder)
      ensures old(DistinctOrders(environments, projectId)) ==> DistinctOrders(environments, projectId)
    {
      if projectId !in projects {
        return Err(NotFound);
      }
      ghost var was := environments;
      DefaultsCleared(environments, projectId);
      if isDefault {
        environments := WithoutDefault(environments, projectId);
      }
      var maxOrder := MaxSortOrder(projectId);
      ClearedNextOrder(was, projectId, maxOrder + 1);
      var row := Environment(projectId, name, baseUrl, description, isDefault, maxOrder + 1);
      RowWritten(environments, newId, row);
      CreatedKeepsDistinct(was, projectId, isDefault, newId, row);
      environments := environments[newId := row];
      assert environments - {newId} == Cleared(was, projectId, isDefault);
      OthersCleared(was, projectId, isDefault, newId, environments);
      r := Ok(newId);
    }

    method UpdateEnvironment(projectId: Id, id: Id, data: Data) returns (r: Result<()>)
      requires Valid()
      modifies this`environments
      ensures Valid()
      ensures r.Ok? <==> projectId in projects && InProject(old(environments), projectId, id)
      ensures r.Err? ==> r.error == NotFound && environments == old(environments)
      ensures r.Ok? ==> environments == Cleared(old(environments), projectId, data.isDefault == Some(true))
                                          [id := Edited(old(environments)[id], data)]
      ensures r.Ok? ==> environments.Keys == old(environments).Keys
      ensures r.Ok? ==>
        var row, row' := old(environments)[id], environments[id];
        && row'.projectId == row.projectId && row'.sortOrder == row.sortOrder
        && row'.name == (if data.name.Some? then data.name.value else row.name)
        && row'.baseUrl == (if data.baseUrl.Some? then data.baseUrl.value else row.baseUrl)
        && row'.description == (if data.description.Some? then data.description.value else row.description)
        && row'.isDefault == (if data.isDefault.Some? then data.isDefault.value else row.isDefault)
      ensures r.Ok? ==> forall other :: other in environments && other != id ==>
        && SameButDefault(old(environments)[other], environments[other])
        && (environments[other].isDefault <==>
              old(environments)[other].isDefault
              && !(data.isDefault == Some(true) && old(environments)[other].projectId == projectId))
    {
      if projectId !in projects || id !in environments || environments[id].projectId != projectId {
        return Err(NotFound);
      }
      var environment := environments[id];
      DefaultsCleared(environments, projectId);
      ClearedButFor(environments, projectId, id, Edited(environment, data));
      if data.isDefault == Some(true) && !environment.isDefault {
        environments := WithoutDefault(environments, projectId);
      }
      RowWritten(environments, id, Edited(environments[id], data));
      environments := environments[id := Edited(environments[id], data)];
      r := Ok(());
    }

    /** `findFirst` by ascending sort order. */
    method FindFirst(projectId: Id) returns (first: Option<Id>)
      ensures first.None? ==> forall id :: !InProject(environments, projectId, id)
      ensures first.Some? ==> IsFirst(environments, projectId, first.value)
    {
      var members := set id | id in environments && environments[id].projectId == projectId;
      if members == {} {
        assert forall id :: InProject(environments, projectId, id) ==> id in members;
        return None;
      }
      ghost var least := FirstExists(environments, members);
      var id :| id in members && forall other :: other in members ==> environments[id].sortOrder <= environments[other].sortOrder;
      first := Some(id);
    }

    /** Deleting the default promotes the first of the remaining environments, if any remains. */
    method DeleteEnvironment(projectId: Id, id: Id) returns (r: Result<()>)
      requires Valid()
      modifies this`environments
      ensures Valid()
      ensures r.Ok? <==> projectId in projects && InProject(old(environments), projectId, id)
      ensures r.Err? ==> r.error == NotFound && environments == old(environments)
      ensures r.Ok? ==> environments.Keys == old(environments).Keys - {id}
      ensures r.Ok? && !old(environments)[id].isDefault ==> environments == old(environments) - {id}
      ensures r.Ok? ==> forall other :: other in environments ==>
                          SameButDefault(old(environments)[other], environments[other])
      ensures r.Ok? && old(environments)[id].isDefault ==>
                forall other :: IsDefault(environments, projectId, other) ==> IsFirst(environments, projectId, other)
      ensures r.Ok? && old(environments)[id].isDefault && (exists other :: InProject(environments, projectId, other)) ==>
                exists next :: IsDefault(environments, projectId, next)
      ensures old(DistinctOrders(environments, projectId)) ==> DistinctOrders(environments, projectId)
      ensures OthersKept(old(environments), projectId, environments)
    {
      if projectId !in projects || id !in environments || environments[id].projectId != projectId {
        return Err(NotFound);
      }
      var environment := environments[id];
      WithoutTheDefault(environments, projectId, id);
      FewerDefaults(environments, environments - {id});
      environments := environments - {id};
      if environment.isDefault {
        var next := FindFirst(projectId);
        if next.Some? {
          RowWritten(environments, next.value, environments[next.value].(isDefault := true));
          environments := environments[next.value := environments[next.value].(isDefault := true)];
          assert IsDefault(environments, projectId, next.value);
        }
      }
      r := Ok(());
    }

    method ReorderEnvironments(projectId: Id, ids: seq<Id>) returns (r: Result<()>)
      requires Valid()
      modifies this`environments
      ensures Valid()
      ensures r.Ok? <==> projectId in projects && forall id :: id in ids ==> InProject(old(environments), projectId, id)
      ensures r.Err? ==> r.error == NotFound && environments == old(environments)
      ensures r.Ok? ==> environments == Reordered(old(environments), ids)
      ensures r.Ok? ==> environments.Keys == old(environments).Keys
      ensures r.Ok? ==> forall id :: id in environments ==>
                          environments[id] == old(environments)[id].(sortOrder := environments[id].sortOrder)
      ensures r.Ok? ==> forall id :: id in environments && id !in ids ==> environments[id] == old(environments)[id]
      ensures r.Ok? ==> forall k :: 0 <= k < |ids| && (forall j :: k < j < |ids| ==> ids[j] != ids[k]) ==>
                          ids[k] in environments && environments[ids[k]].sortOrder == k
    {
      if projectId !in projects {
        return Err(NotFound);
      }
      for k := 0 to |ids|
        invariant forall j :: 0 <= j < k ==> InProject(environments, projectId, ids[j])
      {
        if ids[k] !in environments || environments[ids[k]].projectId != projectId {
          assert ids[k] in ids && !InProject(environments, projectId, ids[k]);
          return Err(NotFound);
        }
      }
      ghost var before := environments;
      for k := 0 to |ids|
        invariant environments == Reordered(before, ids[..k])
      {
        ReorderedOneMore(before, ids, k);
        environments := environments[ids[k] := environments[ids[k]].(sortOrder := k)];
      }
      assert ids[..|ids|] == ids;
      FewerDefaults(before, environments);
      r := Ok(());
    }
  }

  lemma ReorderedOneMore(t: Table, ids: seq<Id>, k: nat)
    requires k < |ids| && ids[k] in t
    ensures ids[k] in Reordered(t, ids[..k])
    ensures Reordered(t, ids[..k + 1]) ==
              Reordered(t, ids[..k])[ids[k] := Reordered(t, ids[..k])[ids[k]].(sortOrder := k)]
  {
    var before, after := Reordered(t, ids[..k]), Reordered(t, ids[..k + 1]);
    assert ids[..k + 1][..k] == ids[..k];
    assert ids[..k + 1] == ids[..k] + [ids[k]];
    forall id | id in t && id != ids[k] ensures after[id] == before[id] {
    }
  }

  // ----- sort orders after a reorder -----

  /** A row the request leaves out stands at one of the positions it gives away. */
  predicate Clashes(t: Table, ids: seq<Id>, id: Id)
    requires id in t
  {
    id !in ids && 0 <= t[id].sortOrder < |ids| && LastIndex(ids, ids[t[id].sortOrder]) == t[id].sortOrder
  }

  /**
    After a reorder the sort orders are distinct iff those of the rows left out were, and none of
    them clashes with a new one.
   */
  lemma ReorderKeepsDistinctIff(t: Table, projectId: Id, ids: seq<Id>)
    requires forall id :: id in ids ==> InProject(t, projectId, id)
    ensures DistinctOrders(Reordered(t, ids), projectId) <==>
              && DistinctOrders(t - (set id | id in ids), projectId)
              && (forall id :: InProject(t, projectId, id) ==> !Clashes(t, ids, id))
  {
    var t', rest := Reordered(t, ids), t - (set id | id in ids);
    forall a ensures InProject(t', projectId, a) <==> InProject(t, projectId, a) {
    }
    if DistinctOrders(t', projectId) {
      forall id | InProject(t, projectId, id) ensures !Clashes(t, ids, id) {
        assert InProject(t', projectId, id);
        assert 0 <= t[id].sortOrder < |ids| ==> InProject(t', projectId, ids[t[id].sortOrder]);
      }
      forall a, b | InProject(rest, projectId, a) && InProject(rest, projectId, b) && rest[a].sortOrder == rest[b].sortOrder
        ensures a == b
      {
        assert InProject(t', projectId, a) && InProject(t', projectId, b);
        assert t'[a].sortOrder == t'[b].sortOrder;
      }
    } else if DistinctOrders(rest, projectId) {
      var a, b :| InProject(t', projectId, a) && InProject(t', projectId, b)
        && t'[a].sortOrder == t'[b].sortOrder && a != b;
      if a !in ids && b !in ids {
        assert InProject(rest, projectId, a) && InProject(rest, projectId, b);
      } else {
        var left := if a in ids then b else a;
        assert Clashes(t, ids, left);
      }
    }
  }

  /** A reorder that names every environment of the project gives distinct sort orders. */
  lemma FullReorderIsDistinct(t: Table, projectId: Id, ids: seq<Id>)
    requires forall id :: id in ids <==> InProject(t, projectId, id)
    ensures DistinctOrders(Reordered(t, ids), projectId)
  {
    ReorderKeepsDistinctIff(t, projectId, ids);
    forall id | InProject(t, projectId, id) ensures !Clashes(t, ids, id) {
    }
  }

  /** A request that names only some of them can make two sort orders equal. */
  lemma PartialReorderClashes()
    ensures var t := map["a" := Environment("p", "A", None, None, true, 0), "b" := Environment("p", "B", None, None, false, 1)];
            DistinctOrders(t, "p") && !DistinctOrders(Reordered(t, ["b"]), "p")
  {
    var t := map["a" := Environment("p", "A", None, None, true, 0), "b" := Environment("p", "B", None, None, false, 1)];
    var t' := Reordered(t, ["b"]);
    assert InProject(t', "p", "a") && InProject(t', "p", "b");
    assert t'["a"].sortOrder == t'["b"].sortOrder && "a" != "b";
  }
}
