# gestor instance manager — Dafny model

`gestor` deploys preview instances of a repository (one per pull request or
branch) to a Kubernetes cluster and keeps a local registry of them. The
lifecycle manager itself is a stub in this repository (`Manager.deploy` does
nothing), so this project models the parts that hold logic:

- **Instance schema** (`InstanceSchema`, `DeploymentDecode`): generated names
  (`"g"` + 11 lower-cased uuid characters), random ports in 30000..32767, the
  defaults of a new instance (`is_ready` false), `from_orm` back from a
  registry row, the parameter map `deploy` hands to the deployment renderer,
  and `deployment_to_dict`, which decodes a deployment's `gestor/`-prefixed
  labels and annotations, the `"None"` sentinel and the replica counts of its (possibly null) status.
- **Instance registry** (`InstanceModel`): the `instances` table as a
  `Registry` class holding its rows in insertion order; insert-if-absent by
  name, delete by name, the conjunctive optional filters of `get_instances`
  and `get_instance`, and the port listing.
- **Legacy CRUD** (`LegacyCrud`): the older table with insert, offset/limit
  pages, lookup by id and search by (repository, pull request).
- **Webhook signature** (`WebhookSignature`): GitHub's `X-Hub-Signature-256`
  check, `"sha256="` followed by the lower-case hex HMAC-SHA256 of the body.

`Query` models what the SQLAlchemy queries compute over a table (filter,
`first()`, `offset().limit()`) and SQLite's choice of a new row id.
`Wrappers` holds `Option` and `Result`; `GitSchema` and `InstanceRecord`
hold the shared record types.

Modelling choices:

- Randomness and the clock are parameters: `shortuuid.uuid()` is the uuid
  text, `random.randint(a, b)` is `RandInt(a, b, draw)` for an arbitrary
  natural `draw` (every value of the range is reachable), `datetime.now()` is
  an integer timestamp. HMAC-SHA256 is a function parameter of type
  `(key, message) -> 32 bytes`. Every modelled operation is a deterministic
  function of these inputs.
- The database is SQLite (gestor/utils/database.py:5). A table is the
  sequence of its rows in rowid order, which is the order SQLite returns
  them without `ORDER BY`. An `INTEGER PRIMARY KEY` gets one more than the
  largest id in use (`Query.NextRowId`): SQLAlchemy's `autoincrement=True`
  does not make SQLite use its `AUTOINCREMENT` counter. A deleted largest
  id can therefore be reused, but a new id never equals an id in use.
- `GitInfo` requires all four fields (gestor/schemas/git.py:4-8), while the
  registry's `pull_request` and `branch` columns are nullable. So `from_orm`
  of a row with a NULL in either column fails pydantic validation. The model
  returns an error there.
- Optional filter arguments are `Option<string>`. Python truthiness makes
  `None` and `""` impose no constraint. A SQL comparison with a NULL column
  never matches.
- Methods that change a table have `modifies` clauses and state the whole
  new table in terms of the old one. Their invariant (`Valid`) is that ids
  are unique and, in the registry, that non-empty names are unique.
  `create_instance` keeps the second only for non-empty names: with an empty
  name, `get_instance` returns None and the uniqueness check is skipped.

## Model

| member | source | states |
|---|---|---|
| `InstanceSchema.InstanceName` | gestor/schemas/instance.py:16-17 | the name is `g` then the first 11 uuid characters lower-cased; 12 characters for a uuid of at least 11; no upper-case letter |
| `InstanceSchema.RandInt` | gestor/schemas/instance.py:20-25 | `randint(low, high)` always lies in `low..high` |
| `InstanceSchema.RandIntCovers` | gestor/schemas/instance.py:20-25 | every value of the range is produced by some draw |
| `InstanceSchema.ServerPort` | gestor/schemas/instance.py:20-21 | the server port lies in 30000..32767 |
| `InstanceSchema.SshPort` | gestor/schemas/instance.py:24-25 | the ssh port lies in 30000..32767 |
| `InstanceSchema.NewInstance` | gestor/schemas/instance.py:28-34 | a new instance keeps its git info and timestamp, is not ready, has a generated `g…` name and both ports in range |
| `InstanceSchema.FromOrm` | gestor/schemas/instance.py:39-53 | succeeds exactly when the row's `pull_request` and `branch` are non-null, copying name, readiness, commit and repository |
| `InstanceSchema.DeployParameters` | gestor/schemas/instance.py:55-67 | the map holds exactly the ten fixed keys with the instance's values and an empty label map, plus `target_module` exactly when a non-empty one is passed |
| `DeploymentDecode.Unprefixed` | gestor/schemas/instance.py:89-96 | `key.replace("gestor/", "")`: occurrences are removed left to right and the text a removal joins is not rescanned; the result is never longer than the key |
| `DeploymentDecode.UnprefixedSkipsPlainPart` | gestor/schemas/instance.py:89-96 | text before the first occurrence is kept, the occurrence is dropped and scanning resumes after it: `a + "gestor/" + b` strips to `a` followed by the stripped `b` |
| `DeploymentDecode.UnprefixedDoesNotRescan` | gestor/schemas/instance.py:89-96 | `"gestgestor/or/"` strips to `"gestor/"`, not to the empty key |
| `DeploymentDecode.UnprefixedKeepsPlainKey` | gestor/schemas/instance.py:89-96 | stripping leaves a key without `gestor/` unchanged |
| `DeploymentDecode.PrefixedKeyDecodes` | gestor/schemas/instance.py:89-96 | `gestor/` followed by a plain key strips to that key |
| `DeploymentDecode.StripKeysDomain` | gestor/schemas/instance.py:89-96 | the stripped map has a key exactly for each item's stripped key |
| `DeploymentDecode.StripKeysLaterWins` | gestor/schemas/instance.py:89-96 | when two keys strip alike, the later item's value is kept, unchanged |
| `DeploymentDecode.StripKeys` | gestor/schemas/instance.py:89-96 | the dict comprehension, later items overwriting earlier ones; every value is an item's text, never null |
| `DeploymentDecode.StripItems` | gestor/schemas/instance.py:89-96 | the comprehension's loop, item by item, builds exactly `StripKeys(items)` |
| `DeploymentDecode.Readiness` | gestor/schemas/instance.py:97-100 | ready exactly when both replica counts are 1; absent counts give false |
| `DeploymentDecode.Desentinel` | gestor/schemas/instance.py:102-105 | the text `"None"` becomes null; any other value is kept |
| `DeploymentDecode.GitInfoMap` | gestor/schemas/instance.py:102-105 | only the `pull_request` and `branch` entries are de-sentinelled; the keys and every other entry are unchanged |
| `DeploymentDecode.Merged` | gestor/schemas/instance.py:106 | annotations override labels, both override `git_info` and `is_ready`; the keys are the union |
| `DeploymentDecode.Decoded` | gestor/schemas/instance.py:88-106 | a null status fails before any annotation is looked up; a success has the `git_info`, `is_ready`, `pull_request` and `branch` keys |
| `DeploymentDecode.DeploymentToDict` | gestor/schemas/instance.py:88-106 | the decoder's result is `Decoded(d)`, with the lemmas below stating what that is |
| `DeploymentDecode.DecodedFailsIff` | gestor/schemas/instance.py:97-105 | decoding fails exactly when the status is null, no annotation is `pull_request` or none is `branch`; the errors come in that order (AttributeError on the status, then the `pull_request` KeyError, then the `branch` one) |
| `DeploymentDecode.DecodedKeys` | gestor/schemas/instance.py:89-106 | the result's keys are `git_info`, `is_ready` and every stripped label and annotation key |
| `DeploymentDecode.DecodedAnnotationWins` | gestor/schemas/instance.py:89-106 | the last annotation with a stripped key gives that key's value, de-sentinelled for `pull_request` and `branch` |
| `DeploymentDecode.DecodedGitInfo` | gestor/schemas/instance.py:102-106 | without a colliding key, `git_info` holds the decoded annotation map |
| `DeploymentDecode.DecodedLabelWins` | gestor/schemas/instance.py:93-106 | a label's value is kept when no annotation has its stripped key |
| `DeploymentDecode.DecodedReadiness` | gestor/schemas/instance.py:97-106 | without a colliding key, `is_ready` is true iff both of the status's replica counts are 1 |
| `DeploymentDecode.DecodedSentinel` | gestor/schemas/instance.py:102-106 | `pull_request` and `branch` are null exactly when their annotation is `"None"`, unchanged otherwise |
| `InstanceModel.RecordOf` | gestor/models/instance.py:31-41 | the stored row copies name, ports, readiness and timestamp and flattens git info into four columns |
| `InstanceModel.FromOrmRoundTrip` | gestor/schemas/instance.py:40-53 | `from_orm` of the row stored for an instance gives back that instance |
| `InstanceModel.RecordOfFromOrm` | gestor/models/instance.py:31-41 | a row with non-null git columns is the row stored for its `from_orm` image |
| `InstanceModel.NextId` | gestor/models/instance.py:13-15 | the new id is positive and differs from every id in the table |
| `InstanceModel.SelectedMembers` | gestor/models/instance.py:57-69 | a row is returned exactly when it is in the table and meets every given filter |
| `InstanceModel.NoFilterSelectsAll` | gestor/models/instance.py:57-69 | with no filter given, the query returns the whole table |
| `InstanceModel.FilterInSteps` | gestor/models/instance.py:60-69 | filtering by name, then repository, then branch equals filtering by their conjunction |
| `InstanceModel.StoredInstanceFound` | tests/test_manager.py:86-88 | after storing an instance under a fresh name, the query by name finds just its row, and `from_orm` gives the instance |
| `InstanceModel.DeleteRow` | gestor/models/instance.py:50-54 | deleting by primary key removes that one row and keeps ids and names unique |
| `InstanceModel.Registry.Refine` | gestor/models/instance.py:60-69 | the successively refined query holds exactly the rows meeting all given filters, in table order |
| `InstanceModel.Registry.GetInstances` | gestor/models/instance.py:57-69 | returns exactly the rows meeting every given filter, in table order; the table is unchanged |
| `InstanceModel.Registry.GetInstance` | gestor/models/instance.py:72-87 | None when neither name nor branch is given; otherwise the first row meeting all given filters, or None when no row does |
| `InstanceModel.Registry.CreateInstance` | gestor/models/instance.py:28-47 | a taken non-empty name stores nothing and returns None; otherwise exactly one row, the instance's with a fresh id, is appended; uniqueness is kept |
| `InstanceModel.Registry.DeleteInstance` | gestor/models/instance.py:50-54 | removes the row with the instance's name if there is one, else changes nothing; no other row changes |
| `InstanceModel.Registry.GetPorts` | gestor/models/instance.py:90-91 | one (server port, ssh port) pair per row, in table order |
| `Query.NextRowId` | gestor/models/instances.py:8 | the new id is above every id in use, and one more than the largest |
| `Query.Filter` | gestor/models/instance.py:60-67 | `query.filter(p)`: a row is kept exactly when it is in the table and satisfies p; never more rows than the table |
| `Query.First` | gestor/models/instance.py:87 | `.first()`: None exactly on an empty result, otherwise its first row |
| `Query.FilterFirst` | gestor/models/instance.py:87 | `filter(p).first()` is the first row satisfying p, or None |
| `Query.Window` | gestor/crud/instances.py:18-19 | `min(limit, rows - skip)` rows, none when `skip` is past the end; row j is table row `skip + j` |
| `Query.WindowConcat` | gestor/crud/instances.py:18-19 | two consecutive pages make up the page that spans both |
| `Query.PagesCoverTable` | gestor/crud/instances.py:18-19 | paging from 0 visits every row once, in order |
| `LegacyCrud.NextId` | gestor/models/instances.py:8 | the new id is positive and unused |
| `LegacyCrud.IdLookupUnique` | gestor/crud/instances.py:22-23 | with unique ids, the query by a row's id returns that row alone |
| `LegacyCrud.DefaultPaging` | gestor/crud/instances.py:18-19 | the default page is the first 100 rows (the whole table when smaller), and paging with that size covers the table |
| `LegacyCrud.InstanceTable.CreateInstance` | gestor/crud/instances.py:7-15 | appends exactly one row with a fresh id, the repository and the pull request, and a NULL commit |
| `LegacyCrud.InstanceTable.GetInstances` | gestor/crud/instances.py:18-19 | returns the window of `limit` rows from `skip`; the table is unchanged |
| `LegacyCrud.InstanceTable.GetInstance` | gestor/crud/instances.py:22-23 | returns a row with that id, and None exactly when no row has it |
| `LegacyCrud.InstanceTable.SearchInstance` | gestor/crud/instances.py:26-34 | the first row whose repository and pull request equal the arguments, None exactly when there is none |
| `WebhookSignature.Hex` | gestor/routers/webhooks.py:18-21 | two lower-case hex digits per byte |
| `WebhookSignature.UnhexHex` | gestor/routers/webhooks.py:18-21 | reading the hex back gives the bytes |
| `WebhookSignature.HexRoundTrip` | gestor/routers/webhooks.py:18-21 | text that reads as hex is the hex of the bytes read |
| `WebhookSignature.HexInjective` | gestor/routers/webhooks.py:18-21 | different digests have different hex texts |
| `WebhookSignature.ExpectedSignature` | gestor/routers/webhooks.py:21 | the expected header is 71 characters, starts with `sha256=` and is hex after it |
| `WebhookSignature.VerifySignature` | gestor/routers/webhooks.py:14-25 | true exactly when a header is given and equals the expected signature |
| `WebhookSignature.EmptyHeaderRejected` | gestor/routers/webhooks.py:15-17 | an absent or empty header is rejected |
| `WebhookSignature.MalformedHeaderRejected` | gestor/routers/webhooks.py:21-24 | a header without the prefix or not 71 characters long is rejected |
| `WebhookSignature.VerifyIffDigestMatches` | gestor/routers/webhooks.py:18-25 | a header is accepted exactly when the digest it carries is HMAC-SHA256 of the body under the secret |

## Left out

- The lifecycle manager (gestor/manager.py) is a stub whose `deploy` does nothing. The allow-list, `LIMIT_INSTANCES`, single-instance enforcement, the event processor, status notifications and startup reconciliation are not in the code, so they are not modelled.
- gestor/utils/kubernetes.py (kubectl calls, file copying, template rendering, the event watch loop), gestor/utils/github.py (HTTP client), the FastAPI routers and application, gestor/utils/decorators.py and the settings modules are I/O, concurrency or configuration. gestor/models/git.py is a single insert whose relationship names an attribute that does not exist. None of these is part of this model.
- `Instance.deploy` calls `kubernetes.start_deployment` and logs its exceptions, and `undeploy` and `logs` only call the cluster. Only the parameter map of `deploy` is modelled.
- Database sessions, transactions, `commit`/`refresh` and concurrent access are not modelled: each method is one atomic update of the table.
- Both gestor/models/instance.py and gestor/models/instances.py declare a table named `instances` on the same metadata. They are modelled as two separate tables.
- `InstanceSchema.InstanceName`: lower-casing is modelled for ASCII letters only. shortuuid's alphabet is ASCII, so generated names are unaffected.
- `InstanceSchema.FromOrm`: when both git columns are NULL, pydantic reports two errors; the model reports only the `pull_request` one.
- `DeploymentDecode.DeploymentToDict`: label and annotation values are strings, as Kubernetes stores them. A `metadata.labels` or `metadata.annotations` of None (an AttributeError in the source, raised before the status is read) is not modelled: the model's deployment always carries both item lists. A null `status` is modelled.
- `LegacyCrud.InstanceTable.GetInstances`: `skip` and `limit` are naturals; negative values are not modelled.
- `WebhookSignature.VerifySignature`: `compare_digest` is plain equality. The TypeError it raises for a non-ASCII header is not modelled, and neither is the UTF-8 encoding of the secret (the secret is given as bytes). Logging is not modelled.
- Pydantic's type coercion (for example of string annotation values into `GitInfo` fields) is not modelled; no shown code builds an `Instance` from the decoded map.
