/**
 * `Instance.deployment_to_dict` (gestor/schemas/instance.py): turns a
 * Kubernetes deployment's labels, annotations and replica counts into the
 * field map of an instance.
 *
 * A deployment is reduced to what the decoder reads: its annotations and
 * labels as ordered (key, value) items (Python dicts keep insertion order),
 * and its status, which Kubernetes leaves null until the controller first
 * reports on the deployment, as are the replica counts inside it.
 */
module DeploymentDecode {
  import opened Wrappers
  import opened InstanceSchema

  /** The prefix the deployment templates put on every label and annotation key. */
  const Prefix: string := "gestor/"

  /** How the templates render Python's None into an annotation. */
  const NoneSentinel: string := "None"

  /** `deployment.status`: the desired and the ready replica counts. */
  datatype Status = Status(replicas: Option<int>, readyReplicas: Option<int>)

  datatype Deployment = Deployment(
    annotations: seq<(string, string)>,
    labels: seq<(string, string)>,
    status: Option<Status>)

  /**
   * How the decoder fails: the AttributeError raised by reading the replica
   * counts of a null status, or the KeyError raised when a required
   * annotation is missing.
   */
  datatype DecodeError = MissingStatus | MissingAnnotation(key: string)

  predicate HasPrefixAt(s: string, i: nat)
  {
    i + |Prefix| <= |s| && s[i..i + |Prefix|] == Prefix
  }

  /** No occurrence of the prefix starts anywhere in s. */
  predicate PrefixFree(s: string)
  {
    forall i :: 0 <= i < |s| ==> !HasPrefixAt(s, i)
  }

  /**
   * `key.replace("gestor/", "")`: every occurrence, scanning left to right,
   * is removed; text formed by a removal is not scanned again.
   */
  function Unprefixed(key: string): (r: string)
    ensures |r| <= |key|
    decreases |key|
  {
    if HasPrefixAt(key, 0) then Unprefixed(key[|Prefix|..])
    else if key == [] then []
    else [key[0]] + Unprefixed(key[1..])
  }

  /** A key without any occurrence of the prefix is left as it is. */
  lemma {:induction false} UnprefixedKeepsPlainKey(key: string)
    requires PrefixFree(key)
    ensures Unprefixed(key) == key
    decreases |key|
  {
    if key != [] {
      assert !HasPrefixAt(key, 0);
      forall i | 0 <= i < |key| - 1 ensures !HasPrefixAt(key[1..], i) {
        assert !HasPrefixAt(key, i + 1);
        if i + |Prefix| <= |key| - 1 {
          assert key[1..][i..i + |Prefix|] == key[i + 1..i + 1 + |Prefix|];
        }
      }
      UnprefixedKeepsPlainKey(key[1..]);
    }
  }

  /** "gestor/" followed by a plain key decodes to that key. */
  lemma PrefixedKeyDecodes(key: string)
    requires PrefixFree(key)
    ensures Unprefixed(Prefix + key) == key
  {
    assert HasPrefixAt(Prefix + key, 0);
    assert (Prefix + key)[|Prefix|..] == key;
    UnprefixedKeepsPlainKey(key);
  }

  /** Where no occurrence starts, Unprefixed keeps the first character and moves on. */
  lemma UnprefixedKeepsFirst(s: string)
    requires s != [] && !HasPrefixAt(s, 0)
    ensures Unprefixed(s) == [s[0]] + Unprefixed(s[1..])
  {
  }

  /** A prefix-free text stays prefix-free without its first character. */
  lemma PlainTail(a: string)
    requires a != [] && PrefixFree(a)
    ensures PrefixFree(a[1..])
  {
    forall i | 0 <= i < |a| - 1 ensures !HasPrefixAt(a[1..], i) {
      assert !HasPrefixAt(a, i + 1);
      if i + |Prefix| <= |a| - 1 {
        assert a[1..][i..i + |Prefix|] == a[i + 1..i + 1 + |Prefix|];
      }
    }
  }

  /**
   * No occurrence of the prefix starts in a prefix-free text and runs into a
   * following occurrence: no proper suffix of "gestor/" is also a prefix of it.
   */
  lemma NoStraddle(a: string, rest: string, i: nat)
    requires i < |a| && !HasPrefixAt(a, i)
    requires HasPrefixAt(rest, 0)
    ensures !HasPrefixAt(a + rest, i)
  {
    var s := a + rest;
    var n := |Prefix|;
    assert s[..|a|] == a;
    if i + n <= |a| {
      assert s[i..i + n] == s[..|a|][i..i + n];
    } else {
      var t := |a| - i;
      assert s[|a|] == rest[..n][0] == 'g';
      assert Prefix[t] != 'g';
      if i + n <= |s| {
        assert s[i..i + n][t] == 'g';
      }
    }
  }

  /** Unprefixed skips a prefix-free text that runs up to an occurrence of the prefix. */
  lemma {:induction false} UnprefixedSkipsPlainText(a: string, rest: string)
    requires PrefixFree(a)
    requires HasPrefixAt(rest, 0)
    ensures Unprefixed(a + rest) == a + Unprefixed(rest)
    decreases |a|
  {
    var s := a + rest;
    if a == [] {
      assert s == rest;
    } else {
      calc {
        Unprefixed(s);
      == { NoStraddle(a, rest, 0); UnprefixedKeepsFirst(s); }
        [a[0]] + Unprefixed(s[1..]);
      == { assert s[1..] == a[1..] + rest; }
        [a[0]] + Unprefixed(a[1..] + rest);
      == { PlainTail(a); UnprefixedSkipsPlainText(a[1..], rest); }
        [a[0]] + (a[1..] + Unprefixed(rest));
      == { assert [a[0]] + a[1..] == a; }
        a + Unprefixed(rest);
      }
    }
  }

  /**
   * One step of `replace`: text before the first occurrence is kept, that
   * occurrence is dropped, and scanning resumes right after it.
   */
  lemma UnprefixedSkipsPlainPart(a: string, b: string)
    requires PrefixFree(a)
    ensures Unprefixed(a + Prefix + b) == a + Unprefixed(b)
  {
    var rest := Prefix + b;
    assert rest[..|Prefix|] == Prefix && rest[|Prefix|..] == b;
    UnprefixedSkipsPlainText(a, rest);
    assert a + Prefix + b == a + rest;
  }

  /** Text that a removal brings together is not scanned again. */
  lemma UnprefixedDoesNotRescan()
    ensures Unprefixed("gestgestor/or/") == Prefix
  {
    assert PrefixFree("gest");
    UnprefixedSkipsPlainPart("gest", "or/");
    assert PrefixFree("or/");
    UnprefixedKeepsPlainKey("or/");
    assert "gest" + Prefix + "or/" == "gestgestor/or/";
    assert "gest" + "or/" == Prefix;
  }

  /**
   * The dict comprehension `{key.replace(...): value for key, value in items}`:
   * items are inserted in order, so a later item overwrites an earlier one
   * whose key strips to the same text.
   */
  function StripKeys(items: seq<(string, string)>): (m: map<string, Value>)
    ensures forall k :: k in m ==> m[k].Text?
  {
    if items == [] then map[]
    else
      var last := items[|items| - 1];
      StripKeys(items[..|items| - 1])[Unprefixed(last.0) := Text(last.1)]
  }

  /** Some item's key strips to k. */
  predicate StripsTo(items: seq<(string, string)>, k: string)
  {
    exists i :: 0 <= i < |items| && Unprefixed(items[i].0) == k
  }

  /** The stripped map has an entry for every item's stripped key and no other. */
  lemma {:induction false} StripKeysDomain(items: seq<(string, string)>, k: string)
    ensures k in StripKeys(items) <==> StripsTo(items, k)
  {
    if items != [] {
      var init := items[..|items| - 1];
      StripKeysDomain(init, k);
      if StripsTo(init, k) {
        var i :| 0 <= i < |init| && Unprefixed(init[i].0) == k;
        assert items[i] == init[i];
      }
      if StripsTo(items, k) && Unprefixed(items[|items| - 1].0) != k {
        var i :| 0 <= i < |items| && Unprefixed(items[i].0) == k;
        assert init[i] == items[i];
      }
    }
  }

  /** The value kept for a stripped key is that of the LAST item with that key. */
  lemma {:induction false} StripKeysLaterWins(items: seq<(string, string)>, j: nat)
    requires j < |items|
    requires forall i :: j < i < |items| ==> Unprefixed(items[i].0) != Unprefixed(items[j].0)
    ensures Unprefixed(items[j].0) in StripKeys(items)
    ensures StripKeys(items)[Unprefixed(items[j].0)] == Text(items[j].1)
  {
    if j < |items| - 1 {
      var init := items[..|items| - 1];
      assert init[j] == items[j];
      forall i | j < i < |init| ensures Unprefixed(init[i].0) != Unprefixed(init[j].0) {
        assert init[i] == items[i];
      }
      StripKeysLaterWins(init, j);
    }
  }

  /** `replicas == ready_replicas and ready_replicas == 1`; Python's None == None is true. */
  function Readiness(replicas: Option<int>, readyReplicas: Option<int>): (ready: bool)
    ensures ready <==> replicas == Some(1) && readyReplicas == Some(1)
  {
    replicas == readyReplicas && readyReplicas == Some(1)
  }

  /** The `"None"` sentinel becomes null; any other value is kept. */
  function Desentinel(v: Value): (r: Value)
    ensures r == Null <==> v == Text(NoneSentinel) || v == Null
    ensures v != Text(NoneSentinel) ==> r == v
  {
    if v == Text(NoneSentinel) then Null else v
  }

  /** The annotation map with the sentinel replaced under `pull_request` and `branch`. */
  function GitInfoMap(ann: map<string, Value>): (git: map<string, Value>)
    requires "pull_request" in ann && "branch" in ann
    ensures git.Keys == ann.Keys
    ensures git["pull_request"] == Desentinel(ann["pull_request"]) && git["branch"] == Desentinel(ann["branch"])
    ensures forall k :: k in ann && k != "pull_request" && k != "branch" ==> git[k] == ann[k]
  {
    ann["pull_request" := Desentinel(ann["pull_request"])]["branch" := Desentinel(ann["branch"])]
  }

  /** `{"git_info": git, "is_ready": ready, **labels, **git}`. */
  function Merged(git: map<string, Value>, ready: bool, labels: map<string, Value>): (r: map<string, Value>)
    ensures r.Keys == {"git_info", "is_ready"} + labels.Keys + git.Keys
    ensures forall k :: k in git ==> r[k] == git[k]
    ensures forall k :: k in labels && k !in git ==> r[k] == labels[k]
    ensures "git_info" !in labels && "git_info" !in git ==> r["git_info"] == Dict(git)
    ensures "is_ready" !in labels && "is_ready" !in git ==> r["is_ready"] == Flag(ready)
  {
    map["git_info" := Dict(git), "is_ready" := Flag(ready)] + labels + git
  }

  /**
   * The result of `deployment_to_dict`, or the error it raises: the status is
   * read before either annotation is looked up.
   */
  function Decoded(d: Deployment): (r: Result<map<string, Value>, DecodeError>)
    ensures d.status.None? ==> r == Err(MissingStatus)
    ensures r.Ok? ==> d.status.Some? && {"git_info", "is_ready", "pull_request", "branch"} <= r.value.Keys
  {
    var ann := StripKeys(d.annotations);
    if d.status.None? then Err(MissingStatus)
    else if "pull_request" !in ann then Err(MissingAnnotation("pull_request"))
    else if "branch" !in ann then Err(MissingAnnotation("branch"))
    else Ok(Merged(GitInfoMap(ann), Readiness(d.status.value.replicas, d.status.value.readyReplicas), StripKeys(d.labels)))
  }

  /** The stripping comprehension, item by item. */
  method StripItems(items: seq<(string, string)>) returns (m: map<string, Value>)
    ensures m == StripKeys(items)
  {
    m := map[];
    for i := 0 to |items|
      invariant m == StripKeys(items[..i])
    {
      assert items[..i + 1][..i] == items[..i];
      m := m[Unprefixed(items[i].0) := Text(items[i].1)];
    }
    assert items[..|items|] == items;
  }

  /**
   * `deployment_to_dict`: build both stripped maps, compute readiness, replace
   * the sentinel in the `pull_request` and `branch` annotations in place, and
   * merge `git_info`, `is_ready`, the labels and the annotations, later
   * entries overriding earlier ones.
   */
  method DeploymentToDict(d: Deployment) returns (r: Result<map<string, Value>, DecodeError>)
    ensures r == Decoded(d)
  {
    var annotations := StripItems(d.annotations);
    var labels := StripItems(d.labels);
    if d.status.None? {
      return Err(MissingStatus);
    }
    var status := d.status.value;
    var isReady := status.replicas == status.readyReplicas && status.readyReplicas == Some(1);
    ghost var stripped := annotations;

    if "pull_request" !in annotations {
      return Err(MissingAnnotation("pull_request"));
    }
    if annotations["pull_request"] == Text(NoneSentinel) {
      annotations := annotations["pull_request" := Null];
    }
    if "branch" !in annotations {
      return Err(MissingAnnotation("branch"));
    }
    if annotations["branch"] == Text(NoneSentinel) {
      annotations := annotations["branch" := Null];
    }
    assert annotations == GitInfoMap(stripped);
    r := Ok(map["git_info" := Dict(annotations), "is_ready" := Flag(isReady)] + labels + annotations);
  }

  /**
   * The decoder fails exactly when the status is null, no annotation key
   * strips to `pull_request`, or none strips to `branch`; the errors are
   * raised in that order.
   */
  lemma DecodedFailsIff(d: Deployment)
    ensures Decoded(d).Err? <==>
      d.status.None? || !StripsTo(d.annotations, "pull_request") || !StripsTo(d.annotations, "branch")
    ensures d.status.Some? && !StripsTo(d.annotations, "pull_request") ==>
      Decoded(d) == Err(MissingAnnotation("pull_request"))
    ensures d.status.Some? && StripsTo(d.annotations, "pull_request") && !StripsTo(d.annotations, "branch") ==>
      Decoded(d) == Err(MissingAnnotation("branch"))
  {
    StripKeysDomain(d.annotations, "pull_request");
    StripKeysDomain(d.annotations, "branch");
  }

  /** The keys of the result: the two computed ones plus every stripped label and annotation key. */
  lemma DecodedKeys(d: Deployment, k: string)
    requires Decoded(d).Ok?
    ensures k in Decoded(d).value <==>
      k == "git_info" || k == "is_ready" || StripsTo(d.labels, k) || StripsTo(d.annotations, k)
  {
    StripKeysDomain(d.annotations, k);
    StripKeysDomain(d.labels, k);
  }

  /**
   * An annotation overrides a label and the computed entries: the last
   * annotation whose key strips to k gives r[k], with the sentinel replaced
   * when k is `pull_request` or `branch`.
   */
  lemma {:induction false} DecodedAnnotationWins(d: Deployment, j: nat)
    requires Decoded(d).Ok? && j < |d.annotations|
    requires forall i :: j < i < |d.annotations| ==> Unprefixed(d.annotations[i].0) != Unprefixed(d.annotations[j].0)
    ensures var k := Unprefixed(d.annotations[j].0);
            var v := Text(d.annotations[j].1);
            k in Decoded(d).value &&
            Decoded(d).value[k] == if k == "pull_request" || k == "branch" then Desentinel(v) else v
  {
    StripKeysLaterWins(d.annotations, j);
  }

  /** With no label or annotation named `git_info`, that entry holds the decoded annotation map. */
  lemma DecodedGitInfo(d: Deployment)
    requires Decoded(d).Ok?
    requires !StripsTo(d.labels, "git_info") && !StripsTo(d.annotations, "git_info")
    ensures Decoded(d).value["git_info"] == Dict(GitInfoMap(StripKeys(d.annotations)))
  {
    StripKeysDomain(d.annotations, "git_info");
    StripKeysDomain(d.labels, "git_info");
  }

  /** A label whose stripped key no annotation has gives r[k], its value untouched. */
  lemma {:induction false} DecodedLabelWins(d: Deployment, j: nat)
    requires Decoded(d).Ok? && j < |d.labels|
    requires forall i :: j < i < |d.labels| ==> Unprefixed(d.labels[i].0) != Unprefixed(d.labels[j].0)
    requires !StripsTo(d.annotations, Unprefixed(d.labels[j].0))
    ensures Unprefixed(d.labels[j].0) in Decoded(d).value
    ensures Decoded(d).value[Unprefixed(d.labels[j].0)] == Text(d.labels[j].1)
  {
    StripKeysLaterWins(d.labels, j);
    StripKeysDomain(d.annotations, Unprefixed(d.labels[j].0));
  }

  /** Without a colliding label or annotation key, `is_ready` is true iff both replica counts are 1. */
  lemma DecodedReadiness(d: Deployment)
    requires Decoded(d).Ok?
    requires !StripsTo(d.labels, "is_ready") && !StripsTo(d.annotations, "is_ready")
    ensures Decoded(d).value["is_ready"] == Flag(d.status.value.replicas == Some(1) && d.status.value.readyReplicas == Some(1))
  {
    StripKeysDomain(d.annotations, "is_ready");
    StripKeysDomain(d.labels, "is_ready");
  }

  /** The `pull_request` and `branch` entries are null exactly when their annotation is the sentinel. */
  lemma DecodedSentinel(d: Deployment)
    requires Decoded(d).Ok?
    ensures var ann := StripKeys(d.annotations);
            && (Decoded(d).value["pull_request"] == Null <==> ann["pull_request"] == Text(NoneSentinel))
            && (Decoded(d).value["branch"] == Null <==> ann["branch"] == Text(NoneSentinel))
            && (ann["pull_request"] != Text(NoneSentinel) ==> Decoded(d).value["pull_request"] == ann["pull_request"])
            && (ann["branch"] != Text(NoneSentinel) ==> Decoded(d).value["branch"] == ann["branch"])
  {
  }
}
