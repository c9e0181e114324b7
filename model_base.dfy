/**
 * The model mixin every table class shares (grouper/models/model_base.py): the polymorphic
 * object-type tags, `member_type`, `get` and `get_or_create`. A stored instance is modelled
 * as its columns, a map from column name to value.
 */
module ModelBase {
  import opened Wrappers

  /** OBJ_TYPES_IDX: the integer tag of a class is its position here. */
  const ObjTypesIdx: seq<string> := ["User", "Group", "Request", "RequestStatusChange", "PermissionRequestStatusChange"]

  /** `{name: i for i, name in enumerate(names)}`: each name to the last position holding it. */
  function Enumerate(names: seq<string>): (m: map<string, nat>)
    ensures forall x :: x in m <==> x in names
    ensures forall x :: x in m ==> m[x] < |names| && names[m[x]] == x
    ensures forall x, j :: x in m && m[x] < j < |names| ==> names[j] != x
  {
    if names == [] then map[] else
      var n := |names| - 1;
      assert names == names[..n] + [names[n]];
      Enumerate(names[..n])[names[n] := n]
  }

  /** OBJ_TYPES. */
  const ObjTypes: map<string, nat> := Enumerate(ObjTypesIdx)

  predicate Distinct(names: seq<string>)
  {
    forall i, j :: 0 <= i < j < |names| ==> names[i] != names[j]
  }

  /** Enumerating distinct names gives the inverse of indexing. */
  lemma EnumerateInverts(names: seq<string>)
    requires Distinct(names)
    ensures forall i :: 0 <= i < |names| ==> names[i] in Enumerate(names) && Enumerate(names)[names[i]] == i
  {
    var m := Enumerate(names);
    forall i | 0 <= i < |names| ensures m[names[i]] == i {
      assert names[m[names[i]]] == names[i];
    }
  }

  /** OBJ_TYPES inverts OBJ_TYPES_IDX. */
  lemma ObjTypesInvertsIdx()
    ensures forall i :: 0 <= i < |ObjTypesIdx| ==> ObjTypesIdx[i] in ObjTypes && ObjTypes[ObjTypesIdx[i]] == i
    ensures forall name :: name in ObjTypes ==> ObjTypesIdx[ObjTypes[name]] == name
  {
    assert Distinct(ObjTypesIdx) by {
      forall i, j | 0 <= i < j < |ObjTypesIdx| ensures ObjTypesIdx[i] != ObjTypesIdx[j] {
        assert ObjTypesIdx[i][0] != ObjTypesIdx[j][0] || |ObjTypesIdx[i]| != |ObjTypesIdx[j]|;
      }
    }
    EnumerateInverts(ObjTypesIdx);
  }

  datatype ModelError = ValueError | MultipleResultsFound

  /** `member_type`: the tag of the instance's class; a class outside the table is an error. */
  function MemberType(className: string): (r: Result<nat, ModelError>)
    ensures r.Ok? <==> className in ObjTypesIdx
    ensures r.Ok? ==> r.value < |ObjTypesIdx| && ObjTypesIdx[r.value] == className
    ensures r.Err? ==> r.error == ValueError
  {
    if className in ObjTypes then Ok(ObjTypes[className]) else Err(ValueError)
  }

  /** A stored instance: its column values. */
  type Row<V> = map<string, V>

  /** `filter_by(**kwargs)`: every given column holds the given value. */
  predicate FilterBy<V(==,!new)>(row: Row<V>, kwargs: Row<V>)
  {
    forall c :: c in kwargs ==> c in row && row[c] == kwargs[c]
  }

  /** The rows `query(cls).filter_by(**kwargs)` returns, in table order. */
  function Matching<V(==,!new)>(rows: seq<Row<V>>, kwargs: Row<V>): (r: seq<Row<V>>)
    ensures forall x :: x in r <==> x in rows && FilterBy(x, kwargs)
  {
    if rows == [] then [] else
      var n := |rows| - 1;
      assert rows == rows[..n] + [rows[n]];
      Matching(rows[..n], kwargs) + (if FilterBy(rows[n], kwargs) then [rows[n]] else [])
  }

  /** `Model.get`: `.scalar()` gives nothing, the one matching row, or raises on two. */
  function Get<V(==,!new)>(rows: seq<Row<V>>, kwargs: Row<V>): (r: Result<Option<Row<V>>, ModelError>)
    ensures r == Ok(None) <==> forall x :: x in rows ==> !FilterBy(x, kwargs)
    ensures r.Ok? && r.value.Some? ==>
      r.value.value in rows && FilterBy(r.value.value, kwargs) && Matching(rows, kwargs) == [r.value.value]
    ensures r.Err? <==> |Matching(rows, kwargs)| >= 2
    ensures r.Err? ==> r.error == MultipleResultsFound
  {
    var found := Matching(rows, kwargs);
    if |found| == 0 then Ok(None)
    else if |found| == 1 then
      assert found[0] in found;
      Ok(Some(found[0]))
    else
      assert found[0] in found;
      Err(MultipleResultsFound)
  }

  /** One table of instances of a model class, with the calls made to its `just_created` hook. */
  class ModelTable<V(==,!new)> {
    var rows: seq<Row<V>>
    /** The instances passed to `just_created`, oldest first. */
    var created: seq<Row<V>>

    constructor ()
      ensures rows == [] && created == []
    {
      rows := [];
      created := [];
    }

    /**
     * `get_or_create`: an existing match is returned unchanged with False; otherwise a new
     * instance built from `kwargs` is added, handed to `just_created` once, and returned
     * with True. Afterwards `get` finds the returned instance.
     */
    method GetOrCreate(kwargs: Row<V>) returns (r: Result<(Row<V>, bool), ModelError>)
      modifies this
      ensures r.Err? <==> |Matching(old(rows), kwargs)| >= 2
      ensures r.Err? ==> rows == old(rows) && created == old(created)
      ensures r.Ok? && !r.value.1 ==>
        r.value.0 in old(rows) && FilterBy(r.value.0, kwargs) && rows == old(rows) && created == old(created)
      ensures r.Ok? && r.value.1 ==>
        (forall x :: x in old(rows) ==> !FilterBy(x, kwargs)) &&
        r.value.0 == kwargs && rows == old(rows) + [kwargs] && created == old(created) + [kwargs]
      ensures r.Ok? ==> Get(rows, kwargs) == Ok(Some(r.value.0))
    {
      var existing := Get(rows, kwargs);
      if existing.Err? {
        return Err(existing.error);
      }
      if existing.value.Some? {
        return Ok((existing.value.value, false));
      }
      var instance := kwargs;
      rows := rows + [instance];
      created := created + [instance];
      assert rows[..|rows| - 1] == old(rows);
      assert Matching(old(rows), kwargs) == [];
      assert Matching(rows, kwargs) == [instance];
      return Ok((instance, true));
    }
  }
}
