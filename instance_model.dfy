/**
 * The instance registry `InstanceModel` (gestor/models/instance.py): a table
 * of instance rows, kept in insertion order, with insert-if-absent, delete by
 * name and filter queries. The database session is the `Registry` object;
 * each commit is the assignment of its `rows`.
 */
module InstanceModel {
  import opened Wrappers
  import opened GitSchema
  import opened InstanceRecord
  import opened InstanceSchema
  import opened Query

  /** The row `create_instance` builds: the instance's fields, git_info flattened into four columns. */
  function RecordOf(inst: Instance, id: nat): (rec: Record)
    ensures rec.id == id && rec.name == inst.name && rec.isReady == inst.isReady
    ensures rec.serverPort == inst.serverPort && rec.sshPort == inst.sshPort && rec.createdAt == inst.createdAt
    ensures rec.commit == inst.gitInfo.commit && rec.repository == inst.gitInfo.repository
    ensures rec.pullRequest == Some(inst.gitInfo.pullRequest) && rec.branch == Some(inst.gitInfo.branch)
  {
    Record(
      id, inst.name, inst.serverPort, inst.sshPort, inst.isReady, inst.createdAt,
      inst.gitInfo.commit, inst.gitInfo.repository,
      Some(inst.gitInfo.pullRequest), Some(inst.gitInfo.branch))
  }

  /** `from_orm` gives back the instance that was stored. */
  lemma FromOrmRoundTrip(inst: Instance, id: nat)
    ensures FromOrm(RecordOf(inst, id)) == Ok(inst)
  {
  }

  /** A row with non-null git columns is the row stored for its `from_orm` image. */
  lemma RecordOfFromOrm(rec: Record)
    requires rec.pullRequest.Some? && rec.branch.Some?
    ensures FromOrm(rec).Ok? && RecordOf(FromOrm(rec).value, rec.id) == rec
  {
  }

  function RecordId(rec: Record): nat { rec.id }

  /** The id the database gives the next row. */
  function NextId(rows: seq<Record>): (id: nat)
    ensures id >= 1 && forall j :: 0 <= j < |rows| ==> rows[j].id != id
  {
    NextRowId(rows, RecordId)
  }

  /** Python truthiness of an optional filter argument: None and "" impose nothing. */
  predicate Given(f: Option<string>) { f.Some? && f.value != "" }

  /** The conjunction of the filters that are given; a NULL branch never equals a given one. */
  predicate Matches(rec: Record, name: Option<string>, repository: Option<string>, branch: Option<string>)
  {
    && (Given(name) ==> rec.name == name.value)
    && (Given(repository) ==> rec.repository == repository.value)
    && (Given(branch) ==> rec.branch == Some(branch.value))
  }

  /** The three `filter` conditions of the queries, each true of every row when its argument is not given. */
  function ByName(name: Option<string>): Record -> bool
  {
    (rec: Record) => Given(name) ==> rec.name == name.value
  }

  function ByRepository(repository: Option<string>): Record -> bool
  {
    (rec: Record) => Given(repository) ==> rec.repository == repository.value
  }

  function ByBranch(branch: Option<string>): Record -> bool
  {
    (rec: Record) => Given(branch) ==> rec.branch == Some(branch.value)
  }

  /** The condition of `delete`: every row but the one with the given primary key. */
  function OtherThan(id: nat): Record -> bool
  {
    (rec: Record) => rec.id != id
  }

  /** The rows of the query with the given filters, in table order. */
  function Selected(rows: seq<Record>, name: Option<string>, repository: Option<string>, branch: Option<string>): seq<Record>
  {
    Filter(rows, rec => Matches(rec, name, repository, branch))
  }

  /** A row is selected exactly when it is in the table and meets every given filter. */
  lemma SelectedMembers(rows: seq<Record>, name: Option<string>, repository: Option<string>, branch: Option<string>, rec: Record)
    ensures rec in Selected(rows, name, repository, branch) <==> rec in rows && Matches(rec, name, repository, branch)
  {
  }

  /** Without any filter the query returns the whole table. */
  lemma NoFilterSelectsAll(rows: seq<Record>, name: Option<string>, repository: Option<string>, branch: Option<string>)
    requires !Given(name) && !Given(repository) && !Given(branch)
    ensures Selected(rows, name, repository, branch) == rows
  {
    FilterAll(rows, rec => Matches(rec, name, repository, branch));
  }

  /** Filtering by name, then repository, then branch selects what the conjunction selects. */
  lemma {:induction false} FilterInSteps(rows: seq<Record>, name: Option<string>, repository: Option<string>, branch: Option<string>)
    ensures Filter(Filter(Filter(rows, ByName(name)), ByRepository(repository)), ByBranch(branch))
            == Selected(rows, name, repository, branch)
  {
    FilterThree(rows, ByName(name), ByRepository(repository), ByBranch(branch),
      rec => Matches(rec, name, repository, branch));
  }

  /** Non-empty names are unique among the rows. */
  ghost predicate NamesUnique(rows: seq<Record>)
  {
    forall j, k :: 0 <= j < k < |rows| && rows[j].name != "" ==> rows[j].name != rows[k].name
  }

  /** Ids are positive and unique among the rows. */
  ghost predicate IdsUnique(rows: seq<Record>)
  {
    && (forall j :: 0 <= j < |rows| ==> rows[j].id >= 1)
    && (forall j, k :: 0 <= j < k < |rows| ==> rows[j].id != rows[k].id)
  }

  /**
   * Storing an instance under a fresh non-empty name and querying by that name
   * finds exactly the stored row, and `from_orm` of it is the instance again.
   */
  lemma {:induction false} StoredInstanceFound(rows: seq<Record>, inst: Instance)
    requires inst.name != "" && forall j :: 0 <= j < |rows| ==> rows[j].name != inst.name
    ensures var rec := RecordOf(inst, NextId(rows));
            && Selected(rows + [rec], Some(inst.name), None, None) == [rec]
            && FromOrm(rec) == Ok(inst)
  {
    var rec := RecordOf(inst, NextId(rows));
    var p := (r: Record) => Matches(r, Some(inst.name), None, None);
    FilterAppend(rows, [rec], p);
    FilterNone(rows, p);
    assert Filter([rec], p) == [rec] by {
      assert [rec][1..] == [];
    }
  }

  /** Deleting the row at k by its primary key removes that row alone and keeps both uniqueness invariants. */
  lemma DeleteRow(rows: seq<Record>, k: nat)
    requires IdsUnique(rows) && NamesUnique(rows) && k < |rows|
    ensures Filter(rows, OtherThan(rows[k].id)) == rows[..k] + rows[k + 1..]
    ensures IdsUnique(rows[..k] + rows[k + 1..]) && NamesUnique(rows[..k] + rows[k + 1..])
  {
    var p := OtherThan(rows[k].id);
    forall j | 0 <= j < |rows| && j != k ensures p(rows[j]) {
      if j < k {
        assert rows[j].id != rows[k].id;
      } else {
        assert rows[k].id != rows[j].id;
      }
    }
    FilterDropsOne(rows, p, k);
    RemoveKeepsUnique(rows, k);
  }

  /** Removing one row keeps ids and non-empty names unique. */
  lemma RemoveKeepsUnique(rows: seq<Record>, k: nat)
    requires IdsUnique(rows) && NamesUnique(rows) && k < |rows|
    ensures IdsUnique(rows[..k] + rows[k + 1..]) && NamesUnique(rows[..k] + rows[k + 1..])
  {
    var rest := rows[..k] + rows[k + 1..];
    assert forall j :: 0 <= j < |rest| ==> rest[j] == rows[if j < k then j else j + 1];
  }

  class Registry {
    /** The table, in insertion order. */
    var rows: seq<Record>

    ghost predicate Valid()
      reads this
    {
      IdsUnique(rows) && NamesUnique(rows)
    }

    /** An empty table. */
    constructor ()
      ensures Valid() && rows == []
    {
      rows := [];
    }

    /** `instance_query` refined by successive `filter` calls, one per given filter. */
    method Refine(name: Option<string>, repository: Option<string>, branch: Option<string>)
      returns (query: seq<Record>)
      ensures query == Selected(rows, name, repository, branch)
    {
      query := rows;
      if Given(name) {
        query := Filter(query, ByName(name));
      } else {
        FilterAll(query, ByName(name));
      }
      if Given(repository) {
        query := Filter(query, ByRepository(repository));
      } else {
        FilterAll(query, ByRepository(repository));
      }
      if Given(branch) {
        query := Filter(query, ByBranch(branch));
      } else {
        FilterAll(query, ByBranch(branch));
      }
      FilterInSteps(rows, name, repository, branch);
    }

    /** `get_instances`: every row meeting all given filters, in table order. */
    method GetInstances(name: Option<string>, repository: Option<string>, branch: Option<string>)
      returns (found: seq<Record>)
      ensures found == Selected(rows, name, repository, branch)
      ensures forall rec :: rec in found <==> rec in rows && Matches(rec, name, repository, branch)
    {
      found := Refine(name, repository, branch);
    }

    /**
     * `get_instance`: None when neither a name nor a branch is given, even with
     * a repository; otherwise the first row meeting all given filters, or None.
     */
    method GetInstance(name: Option<string>, repository: Option<string>, branch: Option<string>)
      returns (found: Option<Record>)
      ensures !Given(name) && !Given(branch) ==> found == None
      ensures found.Some? ==>
        exists k :: && 0 <= k < |rows| && rows[k] == found.value
                    && Matches(rows[k], name, repository, branch)
                    && forall j :: 0 <= j < k ==> !Matches(rows[j], name, repository, branch)
      ensures found.None? && (Given(name) || Given(branch)) ==>
        forall j :: 0 <= j < |rows| ==> !Matches(rows[j], name, repository, branch)
    {
      if !Given(name) && !Given(branch) {
        return None;
      }
      var query := Refine(name, repository, branch);
      found := First(query);
      FilterFirst(rows, rec => Matches(rec, name, repository, branch));
    }

    /**
     * `create_instance`: when a row already has the instance's (non-empty)
     * name, nothing is stored and None is returned; otherwise one row is
     * appended, with the next id, and returned.
     */
    method CreateInstance(inst: Instance) returns (created: Option<Record>)
      requires Valid()
      modifies this
      ensures Valid()
      ensures inst.name != "" && (exists j :: 0 <= j < |old(rows)| && old(rows)[j].name == inst.name) ==>
        created == None && rows == old(rows)
      ensures inst.name == "" || (forall j :: 0 <= j < |old(rows)| ==> old(rows)[j].name != inst.name) ==>
        created == Some(RecordOf(inst, NextId(old(rows)))) && rows == old(rows) + [created.value]
    {
      var existing := GetInstance(Some(inst.name), None, None);
      if existing.Some? {
        return None;
      }
      var rec := RecordOf(inst, NextId(rows));
      rows := rows + [rec];
      created := Some(rec);
    }

    /**
     * `delete_instance`: the row found by the instance's name, if any, is
     * deleted by its primary key; no other row changes.
     */
    method DeleteInstance(inst: Instance)
      requires Valid()
      modifies this
      ensures Valid()
      ensures inst.name == "" || (forall j :: 0 <= j < |old(rows)| ==> old(rows)[j].name != inst.name) ==>
        rows == old(rows)
      ensures inst.name != "" && (exists j :: 0 <= j < |old(rows)| && old(rows)[j].name == inst.name) ==>
        exists k :: 0 <= k < |old(rows)| && old(rows)[k].name == inst.name && rows == old(rows)[..k] + old(rows)[k + 1..]
    {
      var found := GetInstance(Some(inst.name), None, None);
      if found.Some? {
        ghost var k :| 0 <= k < |rows| && rows[k] == found.value;
        DeleteRow(rows, k);
        rows := Filter(rows, OtherThan(found.value.id));
      }
    }

    /** `get_ports`: the (server_port, ssh_port) pair of every row, in table order. */
    method GetPorts() returns (ports: seq<(int, int)>)
      ensures |ports| == |rows|
      ensures forall j :: 0 <= j < |rows| ==> ports[j] == (rows[j].serverPort, rows[j].sshPort)
    {
      var table := rows;
      ports := seq(|table|, j requires 0 <= j < |table| => (table[j].serverPort, table[j].sshPort));
    }
  }
}
