/**
 * The `Instance` schema (gestor/schemas/instance.py): name and port
 * generation, the defaults of a new instance, `from_orm` and the parameter
 * map that `deploy` hands to the deployment renderer.
 *
 * Randomness (`shortuuid.uuid`, `random.randint`) and the clock
 * (`datetime.now`) are parameters: the uuid text, a natural-number draw and
 * an opaque timestamp.
 */
module InstanceSchema {
  import opened Wrappers
  import opened GitSchema
  import opened InstanceRecord

  /** `random.randint(30000, 32767)` is the range of both generated ports. */
  const PortLow: int := 30000
  const PortHigh: int := 32767

  /** Number of uuid characters kept in a generated name. */
  const UuidChars: nat := 11

  predicate IsUpper(c: char) { 'A' <= c <= 'Z' }

  /** `str.lower()` on one character (ASCII letters only). */
  function LowerChar(c: char): char
  {
    if IsUpper(c) then (c as int - 'A' as int + 'a' as int) as char else c
  }

  function Lower(s: string): string
  {
    seq(|s|, i requires 0 <= i < |s| => LowerChar(s[i]))
  }

  /**
   * `instance_name`: "g" then the first 11 characters of the uuid (fewer if
   * the uuid is shorter, as Python slicing clamps), lower-cased.
   */
  function InstanceName(uuid: string): (r: string)
    ensures |r| == 1 + (if |uuid| < UuidChars then |uuid| else UuidChars)
    ensures |uuid| >= UuidChars ==> |r| == 12
    ensures r[0] == 'g'
    ensures forall i :: 0 < i < |r| ==> r[i] == LowerChar(uuid[i - 1])
    ensures forall i :: 0 <= i < |r| ==> !IsUpper(r[i])
  {
    "g" + Lower(uuid[..if |uuid| < UuidChars then |uuid| else UuidChars])
  }

  /** `random.randint(low, high)` driven by an arbitrary draw. */
  function RandInt(low: int, high: int, draw: nat): (r: int)
    requires low <= high
    ensures low <= r <= high
  {
    low + draw % (high - low + 1)
  }

  /** Every value of the range is produced by some draw. */
  lemma RandIntCovers(low: int, high: int, v: int)
    requires low <= v <= high
    ensures RandInt(low, high, v - low) == v
  {
    var n := high - low + 1;
    assert 0 <= v - low < n;
    assert (v - low) % n == v - low;
  }

  /** `server_port`. */
  function ServerPort(draw: nat): (p: int)
    ensures PortLow <= p <= PortHigh
  {
    RandInt(PortLow, PortHigh, draw)
  }

  /** `ssh_port`. */
  function SshPort(draw: nat): (p: int)
    ensures PortLow <= p <= PortHigh
  {
    RandInt(PortLow, PortHigh, draw)
  }

  /** The pydantic model `Instance`. */
  datatype Instance = Instance(
    name: string,
    gitInfo: GitInfo,
    serverPort: int,
    sshPort: int,
    isReady: bool,
    createdAt: int)

  /** `Instance(git_info=g)`: every other field from its default factory. */
  function NewInstance(gitInfo: GitInfo, uuid: string, serverDraw: nat, sshDraw: nat, now: int): (i: Instance)
    ensures i.gitInfo == gitInfo && i.createdAt == now
    ensures !i.isReady
    ensures |uuid| >= UuidChars ==> |i.name| == 12
    ensures i.name == InstanceName(uuid) && |i.name| >= 1 && i.name[0] == 'g'
    ensures PortLow <= i.serverPort <= PortHigh && PortLow <= i.sshPort <= PortHigh
  {
    Instance(InstanceName(uuid), gitInfo, ServerPort(serverDraw), SshPort(sshDraw), false, now)
  }

  /** Why `from_orm` fails: pydantic refuses None for a required field of GitInfo. */
  datatype ValidationError = NullPullRequest | NullBranch

  /**
   * `Instance.from_orm`: rebuilds an Instance from a registry row. The row's
   * id is dropped. A NULL `pull_request` or `branch` column fails GitInfo's
   * validation; when both are NULL the model names pull_request.
   */
  function FromOrm(rec: Record): (r: Result<Instance, ValidationError>)
    ensures r.Ok? <==> rec.pullRequest.Some? && rec.branch.Some?
    ensures rec.pullRequest.None? ==> r == Err(NullPullRequest)
    ensures r.Ok? ==> r.value.name == rec.name && r.value.isReady == rec.isReady
    ensures r.Ok? ==> r.value.gitInfo.commit == rec.commit && r.value.gitInfo.repository == rec.repository
  {
    match (rec.pullRequest, rec.branch)
    case (None, _) => Err(NullPullRequest)
    case (Some(_), None) => Err(NullBranch)
    case (Some(pr), Some(branch)) =>
      Ok(Instance(
        rec.name,
        GitInfo(rec.commit, rec.repository, pr, branch),
        rec.serverPort,
        rec.sshPort,
        rec.isReady,
        rec.createdAt))
  }

  /** A value of the maps built by `deploy` and `deployment_to_dict`. */
  datatype Value =
    | Text(s: string)
    | Int(n: int)
    | Flag(b: bool)
    | Time(t: int)
    | Null
    | Dict(d: map<string, Value>)

  /** Keys of the deploy parameter map that are always present. */
  const DeployKeys: set<string> :=
    {"name", "server_port", "ssh_port", "created_at", "domain", "labels",
     "commit", "repository", "pull_request", "branch"}

  /** Python truthiness of the optional `target_module` argument. */
  predicate Truthy(s: Option<string>) { s.Some? && s.value != "" }

  /**
   * The parameter map of `Instance.deploy`: the instance's fields, the
   * deploy domain, an empty label map and `git_info.dict()`; then
   * `target_module` when one is given and non-empty.
   */
  method DeployParameters(inst: Instance, domain: string, targetModule: Option<string>)
    returns (data: map<string, Value>)
    ensures data.Keys == DeployKeys + (if Truthy(targetModule) then {"target_module"} else {})
    ensures "target_module" in data <==> Truthy(targetModule)
    ensures Truthy(targetModule) ==> data["target_module"] == Text(targetModule.value)
    ensures data["name"] == Text(inst.name) && data["domain"] == Text(domain)
    ensures data["server_port"] == Int(inst.serverPort) && data["ssh_port"] == Int(inst.sshPort)
    ensures data["created_at"] == Time(inst.createdAt) && data["labels"] == Dict(map[])
    ensures data["commit"] == Text(inst.gitInfo.commit) && data["repository"] == Text(inst.gitInfo.repository)
    ensures data["pull_request"] == Int(inst.gitInfo.pullRequest) && data["branch"] == Text(inst.gitInfo.branch)
  {
    var git := map[
      "commit" := Text(inst.gitInfo.commit),
      "repository" := Text(inst.gitInfo.repository),
      "pull_request" := Int(inst.gitInfo.pullRequest),
      "branch" := Text(inst.gitInfo.branch)];
    data := map[
      "name" := Text(inst.name),
      "server_port" := Int(inst.serverPort),
      "ssh_port" := Int(inst.sshPort),
      "created_at" := Time(inst.createdAt),
      "domain" := Text(domain),
      "labels" := Dict(map[])] + git;
    if Truthy(targetModule) {
      data := data["target_module" := Text(targetModule.value)];
    }
  }
}
