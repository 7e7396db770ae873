/** One row of the `instances` table of the registry (gestor/models/instance.py). */
module InstanceRecord {
  import opened Wrappers

  /**
   * `InstanceModel`: an integer primary key, the instance's name, ports,
   * readiness and creation time, and its git coordinates flattened into four
   * columns. Only `pull_request` and `branch` are nullable. The creation time
   * is an opaque timestamp.
   */
  datatype Record = Record(
    id: nat,
    name: string,
    serverPort: int,
    sshPort: int,
    isReady: bool,
    createdAt: int,
    commit: string,
    repository: string,
    pullRequest: Option<int>,
    branch: Option<string>)
}
