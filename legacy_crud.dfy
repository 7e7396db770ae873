/**
 * The older CRUD helpers (gestor/crud/instances.py) over the simpler
 * `instances` table of gestor/models/instances.py: an integer primary key and
 * three nullable columns. The session is the `InstanceTable` object.
 */
module LegacyCrud {
  import opened Wrappers
  import opened Query

  /** A row of gestor/models/instances.py: every column but the key may be NULL. */
  datatype LegacyRecord = LegacyRecord(
    id: nat,
    commit: Option<string>,
    repository: Option<string>,
    pullRequest: Option<int>)

  /** `InstanceCreate` (gestor/schemas/instances.py): all three fields required. */
  datatype InstanceCreate = InstanceCreate(commit: string, repository: string, pullRequest: int)

  /** Default `skip` and `limit` of `get_instances`. */
  const DefaultSkip: nat := 0
  const DefaultLimit: nat := 100

  function LegacyId(rec: LegacyRecord): nat { rec.id }

  /** The id the database gives the next row. */
  function NextId(rows: seq<LegacyRecord>): (id: nat)
    ensures id >= 1 && forall j :: 0 <= j < |rows| ==> rows[j].id != id
  {
    NextRowId(rows, LegacyId)
  }

  /** The condition of `get_instance`. */
  function HasId(id: int): LegacyRecord -> bool
  {
    (rec: LegacyRecord) => rec.id == id
  }

  /** The condition of `search_instance`; a NULL column equals nothing. */
  function IsFor(repository: string, pullRequest: int): LegacyRecord -> bool
  {
    (rec: LegacyRecord) => rec.repository == Some(repository) && rec.pullRequest == Some(pullRequest)
  }

  /** Ids are positive and unique among the rows. */
  ghost predicate IdsUnique(rows: seq<LegacyRecord>)
  {
    && (forall j :: 0 <= j < |rows| ==> rows[j].id >= 1)
    && (forall j, k :: 0 <= j < k < |rows| ==> rows[j].id != rows[k].id)
  }

  /** Under unique ids, the row with a given id is the only one `get_instance` can return. */
  lemma {:induction false} IdLookupUnique(rows: seq<LegacyRecord>, k: nat)
    requires IdsUnique(rows) && k < |rows|
    ensures Filter(rows, HasId(rows[k].id)) == [rows[k]]
  {
    var p := HasId(rows[k].id);
    assert rows == rows[..k] + [rows[k]] + rows[k + 1..];
    FilterAppend(rows[..k] + [rows[k]], rows[k + 1..], p);
    FilterAppend(rows[..k], [rows[k]], p);
    FilterNone(rows[..k], p);
    FilterNone(rows[k + 1..], p);
    assert [rows[k]][1..] == [];
  }

  /** A default page is the first 100 rows (all of them in a smaller table); paging visits every row once, in order. */
  lemma DefaultPaging<T>(rows: seq<T>)
    ensures |Window(rows, DefaultSkip, DefaultLimit)| == Min(100, |rows|)
    ensures Pages(rows, 0, DefaultLimit, |rows| / 100 + 1) == rows
  {
    PagesCoverTable(rows, DefaultLimit, |rows| / 100 + 1);
  }

  class InstanceTable {
    /** The table, in insertion order. */
    var rows: seq<LegacyRecord>

    ghost predicate Valid()
      reads this
    {
      IdsUnique(rows)
    }

    /** An empty table. */
    constructor ()
      ensures Valid() && rows == []
    {
      rows := [];
    }

    /**
     * `create_instance`: one row appended with the next id, the repository
     * and the pull request; the commit is not copied and stays NULL.
     */
    method CreateInstance(inst: InstanceCreate) returns (created: LegacyRecord)
      requires Valid()
      modifies this
      ensures Valid()
      ensures created == LegacyRecord(NextId(old(rows)), None, Some(inst.repository), Some(inst.pullRequest))
      ensures rows == old(rows) + [created]
    {
      created := LegacyRecord(NextId(rows), None, Some(inst.repository), Some(inst.pullRequest));
      rows := rows + [created];
    }

    /** `get_instances(skip, limit)`: the rows from position `skip`, at most `limit` of them. */
    method GetInstances(skip: nat, limit: nat) returns (page: seq<LegacyRecord>)
      ensures page == Window(rows, skip, limit)
      ensures |page| <= limit && (skip >= |rows| ==> page == [])
      ensures forall j :: 0 <= j < |page| ==> skip + j < |rows| && page[j] == rows[skip + j]
    {
      var n := |rows|;
      var start := if skip < n then skip else n;
      var stop := if skip + limit < n then skip + limit else n;
      page := rows[start..stop];
    }

    /** `get_instance(instance_id)`: the row with that id, or None. */
    method GetInstance(id: int) returns (found: Option<LegacyRecord>)
      ensures found.Some? ==> found.value in rows && found.value.id == id
      ensures found.None? <==> forall j :: 0 <= j < |rows| ==> rows[j].id != id
    {
      found := First(Filter(rows, HasId(id)));
      if found.Some? {
        assert found.value in Filter(rows, HasId(id));
      } else {
        FilterFirst(rows, HasId(id));
      }
    }

    /**
     * `search_instance`: the first row whose repository and pull request
     * equal the arguments, or None.
     */
    method SearchInstance(repository: string, pullRequest: int) returns (found: Option<LegacyRecord>)
      ensures found.Some? ==>
        exists k :: && 0 <= k < |rows| && rows[k] == found.value
                    && found.value.repository == Some(repository) && found.value.pullRequest == Some(pullRequest)
                    && forall j :: 0 <= j < k ==> !IsFor(repository, pullRequest)(rows[j])
      ensures found.None? <==> forall j :: 0 <= j < |rows| ==> !IsFor(repository, pullRequest)(rows[j])
    {
      found := First(Filter(rows, IsFor(repository, pullRequest)));
      FilterFirst(rows, IsFor(repository, pullRequest));
    }
  }
}
