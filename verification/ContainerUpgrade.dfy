/**
 * Upgrading and recreating a node's container against a Docker daemon whose calls may fail at any
 * point (internal/agent/docker_ops.go).
 */
module ContainerUpgrade {
  import opened Prelude
  import opened NodeContainer

  type Containers = map<string, ContainerJSON>

  /** Only `name` may differ. */
  ghost predicate OnlyChanges(before: Containers, after: Containers, name: string) {
    after - {name} == before - {name}
  }

  ghost predicate SameButRunning(a: ContainerJSON, b: ContainerJSON) {
    a.(running := b.running) == b
  }

  /** A call to the daemon and its answer. */
  datatype Call =
    | Looked(running: Option<bool>)
    | Pulled(image: string, ok: bool)
    | Stopped
    | Removed(ok: bool)
    | Created(ok: bool)
    | Started(ok: bool)

  /** From call `n` on, a container was started and later seen running. */
  ghost predicate SeenRunning(calls: seq<Call>, n: nat) {
    exists i, j :: n <= i < j < |calls| && calls[i] == Started(true) && calls[j] == Looked(Some(true))
  }

  /** A call that fails; what a look at a container answers does not matter here. */
  predicate Fails(c: Call) {
    !c.Looked? && !c.Stopped? && !c.ok
  }

  class Daemon {
    var containers: Containers
    ghost var calls: seq<Call>

    /** Containers are known by their own names. */
    ghost predicate Valid()
      reads this
    {
      forall n :: n in containers ==> containers[n].name == "/" + n
    }

    constructor ()
      ensures Valid() && containers == map[] && calls == []
    {
      containers, calls := map[], [];
    }

    method Inspect(name: string) returns (r: Option<ContainerJSON>)
      modifies this`calls
      ensures calls == old(calls) + [Looked(match r case None => None case Some(c) => Some(c.running))]
      ensures r.Some? ==> name in containers && r.value == containers[name]
    {
      var answered: bool := *;
      r := if answered && name in containers then Some(containers[name]) else None;
      calls := calls + [Looked(match r case None => None case Some(c) => Some(c.running))];
    }

    method Pull(image: string) returns (ok: bool)
      modifies this`calls
      ensures calls == old(calls) + [Pulled(image, ok)]
    {
      ok := *;
      calls := calls + [Pulled(image, ok)];
    }

    /** Whether the container stops is not looked at by any caller. */
    method Stop(name: string)
      requires Valid()
      modifies this
      ensures Valid() && OnlyChanges(old(containers), containers, name) && calls == old(calls) + [Stopped]
      ensures containers.Keys == old(containers).Keys
      ensures name in containers ==> SameButRunning(old(containers)[name], containers[name])
    {
      SetRunning(name);
      calls := calls + [Stopped];
    }

    /** A container's process may end, or be restarted, at any time. */
    method SetRunning(name: string)
      requires Valid()
      modifies this`containers
      ensures Valid() && OnlyChanges(old(containers), containers, name)
      ensures containers.Keys == old(containers).Keys
      ensures name in containers ==> SameButRunning(old(containers)[name], containers[name])
    {
      var running: bool := *;
      if name in containers {
        containers := containers[name := containers[name].(running := running)];
      }
    }

    /** An answer that gets lost looks like a failure although the container is gone. */
    method Delete(name: string) returns (ok: bool)
      requires Valid()
      modifies this
      ensures Valid() && OnlyChanges(old(containers), containers, name)
      ensures calls == old(calls) + [Removed(ok)] && (ok ==> name !in containers)
      ensures name in containers ==> name in old(containers) && containers[name] == old(containers)[name]
    {
      var done: bool := *;
      if done || name !in containers {
        containers := containers - {name};
        ok := *;
      } else {
        ok := false;
      }
      calls := calls + [Removed(ok)];
    }

    /** Names are unique; as with `Delete`, the container may exist although no answer arrives. */
    method Create(cfg: ContainerConfig) returns (ok: bool)
      requires Valid()
      modifies this
      ensures Valid() && OnlyChanges(old(containers), containers, cfg.name)
      ensures calls == old(calls) + [Created(ok)]
      ensures ok ==> cfg.name !in old(containers) && cfg.name in containers && CreatedFrom(containers[cfg.name], cfg)
      ensures cfg.name in old(containers) ==> containers == old(containers)
    {
      var done: bool := *;
      if !done || cfg.name in containers || ':' in cfg.dataDir {
        calls := calls + [Created(false)];
        return false;
      }
      var args := BuildArguments(cfg);
      var listed: bool := *;
      var c := ContainerJSON("/" + cfg.name, false, KLEVER_IMAGE + ":" + cfg.imageTag, args, Binds(cfg.dataDir), []);
      if listed {
        var mounts :| multiset(mounts) == multiset(BindMounts(cfg.dataDir));
        c := c.(mounts := mounts);
      }
      containers := containers[cfg.name := c];
      ok := *;
      calls := calls + [Created(ok)];
    }

    method Start(name: string) returns (ok: bool)
      requires Valid()
      modifies this
      ensures Valid() && OnlyChanges(old(containers), containers, name)
      ensures containers.Keys == old(containers).Keys
      ensures name in containers ==> SameButRunning(old(containers)[name], containers[name])
      ensures calls == old(calls) + [Started(ok)] && (ok ==> name in containers && containers[name].running)
    {
      var done: bool := *;
      if !done || name !in containers {
        calls := calls + [Started(false)];
        return false;
      }
      containers := containers[name := containers[name].(running := true)];
      ok := *;
      calls := calls + [Started(ok)];
    }
  }

  // ---------------------------------------------------------------- what is to be kept

  /**
   * The node as before, at image tag `tag`. A negative redundancy level is not passed on, and the
   * configuration directory is the one below the data directory, wherever it was before.
   */
  ghost predicate KeptAt(now: DiscoveredNode, was: DiscoveredNode, tag: string) {
    && now.containerName == was.containerName && now.dockerImageTag == tag
    && now.dataDirectory == was.dataDirectory && now.restAPIPort == was.restAPIPort
    && now.displayName == was.displayName && now.configDirectory == was.dataDirectory + "/config"
    && now.redundancyLevel == if was.redundancyLevel > 0 then was.redundancyLevel else 0
  }

  /**
   * `now` stands in for `was`: it is read back as before, has the start-in-epoch flag exactly if
   * asked for, and if `was` was created from some configuration, `now` is created from that one.
   */
  ghost predicate StandsFor(now: ContainerJSON, was: ContainerJSON, tag: string, startInEpoch: bool) {
    && KeptAt(NodeOf(now), NodeOf(was), tag)
    && (EPOCH in now.cmd <==> startInEpoch)
    && forall cfg :: ValidConfig(cfg) && CreatedFrom(was, cfg) ==>
         CreatedFrom(now, cfg.(imageTag := tag, startInEpoch := startInEpoch))
  }

  lemma CreatedKeeps(c: ContainerJSON, cfg: ContainerConfig, was: DiscoveredNode)
    requires ValidConfig(cfg) && CreatedFrom(c, cfg)
    requires cfg == ConfigOf(was, cfg.startInEpoch).(imageTag := cfg.imageTag)
    ensures KeptAt(NodeOf(c), was, cfg.imageTag)
  {
    RoundTripIff(c, cfg, cfg.startInEpoch);
    hide NodeOf;
  }

  /** Starting and stopping does not change what is read back, except the status. */
  lemma RunningIsStatus(a: ContainerJSON, b: ContainerJSON, was: ContainerJSON, tag: string, startInEpoch: bool)
    requires SameButRunning(a, b)
    ensures NodeOf(b) == NodeOf(a).(running := b.running)
    ensures StandsFor(a, was, tag, startInEpoch) <==> StandsFor(b, was, tag, startInEpoch)
  {
    assert DirsOf(a) == DirsOf(b);
    hide DirsOf, TagOf, ParseIntArg, ParseStringArg, ValidConfig, Arguments, Binds, BindMounts;
    forall cfg
      ensures CreatedFrom(a, cfg) <==> CreatedFrom(b, cfg)
    {
    }
    hide CreatedFrom;
  }

  lemma EpochFlag(cfg: ContainerConfig)
    ensures EPOCH in Arguments(cfg) <==> cfg.startInEpoch
  {
    assert EPOCH[2] == 's' && EPOCH != "--log-save" && EPOCH != "--use-log-view";
    assert forall flag, value :: flag in {REST, DISPLAY, REDUNDANCY} ==> Flagged(flag, value)[2] == flag[2] != 's';
    assert cfg.startInEpoch ==> Arguments(cfg)[3] == EPOCH;
  }

  /** A redundancy level that is not positive is left out of the arguments, like 0. */
  lemma LevelLeftOut(c: ContainerJSON, cfg: ContainerConfig)
    ensures CreatedFrom(c, cfg.(redundancyLevel := if cfg.redundancyLevel > 0 then cfg.redundancyLevel else 0))
            <==> CreatedFrom(c, cfg)
  {
    if cfg.redundancyLevel <= 0 {
      assert Arguments(cfg.(redundancyLevel := 0)) == Arguments(cfg);
    }
    hide Arguments, Binds, BindMounts;
  }

  /** What is created from a configuration that was read back stands for the container it was read from. */
  lemma RebuiltStands(now: ContainerJSON, was: ContainerJSON, tag: string, startInEpoch: bool)
    requires var cfg := ConfigOf(NodeOf(was), startInEpoch).(imageTag := tag);
             ValidConfig(cfg) && CreatedFrom(now, cfg)
    ensures StandsFor(now, was, tag, startInEpoch)
  {
    var rebuilt := ConfigOf(NodeOf(was), startInEpoch).(imageTag := tag);
    CreatedKeeps(now, rebuilt, NodeOf(was));
    EpochFlag(rebuilt);
    hide NodeOf, ValidConfig, Arguments, Binds, BindMounts;
    assert now.cmd == Arguments(rebuilt);
    hide CreatedFrom;
    forall cfg | ValidConfig(cfg) && CreatedFrom(was, cfg)
      ensures CreatedFrom(now, cfg.(imageTag := tag, startInEpoch := startInEpoch))
    {
      RoundTripIff(was, cfg, startInEpoch);
      LevelLeftOut(now, cfg.(imageTag := tag, startInEpoch := startInEpoch));
    }
  }

  /**
   * The configuration an upgrade or rollback rebuilds is the old one at the new tag exactly if the
   * redundancy level is not negative and the container had no start-in-epoch flag.
   */
  lemma UpgradeRebuildsIff(c: ContainerJSON, cfg: ContainerConfig, tag: string)
    requires ValidConfig(cfg) && CreatedFrom(c, cfg)
    ensures ConfigOf(NodeOf(c), false).(imageTag := tag) == cfg.(imageTag := tag)
            <==> cfg.redundancyLevel >= 0 && !cfg.startInEpoch
  {
    RoundTripIff(c, cfg, false);
    hide NodeOf, ValidConfig, CreatedFrom;
  }

  datatype Outcome =
    | Upgraded
    | SnapshotFailed
    | PullFailed
    | RolledBack(tag: string)
    | RollbackFailed
    | FailedWithoutTag

  /** The last call added started a container. */
  ghost predicate EndsStarted(before: seq<Call>, after: seq<Call>) {
    |before| < |after| && after[|after| - 1] == Started(true)
  }

  /** The calls added do not look at the container. */
  ghost predicate NoLooks(before: seq<Call>, after: seq<Call>) {
    before <= after && forall i :: |before| <= i < |after| ==> !after[i].Looked?
  }

  /** The calls added are looks, `polls` + 1 of them unless the last one sees the container running. */
  ghost predicate Looks(before: seq<Call>, after: seq<Call>, polls: nat, healthy: bool) {
    && before <= after && |before| < |after| <= |before| + polls + 1
    && (forall i :: |before| <= i < |after| ==> after[i].Looked?)
    && (forall i :: |before| <= i < |after| - 1 ==> after[i] != Looked(Some(true)))
    && (healthy <==> after[|after| - 1] == Looked(Some(true)))
    && (!healthy ==> |after| == |before| + polls + 1)
  }

  /** Of the calls added at most one creates a container, behind a removal if there has to be one. */
  ghost predicate CreatesOnce(before: seq<Call>, after: seq<Call>, remove: bool) {
    forall i :: |before| <= i < |after| && after[i].Created? ==>
      && (forall j :: |before| <= j < |after| && after[j].Created? ==> j == i)
      && (remove ==> |before| + 1 < i && after[|before| + 1].Removed?)
  }

  /** From call `n` on, no container is created behind one that was, but for a removal in between. */
  ghost predicate RemovesBetween(calls: seq<Call>, n: nat) {
    forall i, j :: n <= i < j < |calls| && calls[i] == Created(true) && calls[j].Created? ==>
      exists k :: i < k < j && calls[k].Removed?
  }

  /** From call `n` on, `polls` + 1 looks in a row did not see the container running. */
  ghost predicate GaveUpWaiting(calls: seq<Call>, n: nat, polls: nat) {
    n + polls < |calls| && forall i :: n <= i <= n + polls ==> calls[i].Looked? && calls[i] != Looked(Some(true))
  }

  lemma NothingSeen(before: seq<Call>, after: seq<Call>, n: nat)
    requires NoLooks(before, after) && forall j :: n <= j < |before| ==> before[j] != Looked(Some(true))
    ensures !SeenRunning(after, n)
  {
  }

  lemma NothingSeenEarlier(before: seq<Call>, after: seq<Call>, n: nat)
    requires before <= after && n <= |before| && forall i :: n <= i < |before| ==> !before[i].Started?
    ensures SeenRunning(after, n) <==> SeenRunning(after, |before|)
  {
  }

  lemma RemovedInBetween(before: seq<Call>, after: seq<Call>, n: nat, created: bool)
    requires before <= after && n <= |before| && CreatesOnce(before, after, created)
    requires forall i :: n <= i < |before| && before[i].Created? ==> before[i] == Created(created)
    requires forall i, j :: n <= i < j < |before| && before[i].Created? ==> !before[j].Created?
    ensures RemovesBetween(after, n)
  {
    if created && |before| + 1 < |after| {
      forall i, j | n <= i < j < |after| && after[i] == Created(true) && after[j].Created?
        ensures exists k :: i < k < j && after[k].Removed?
      {
        assert i < |before| < |before| + 1 < j;
      }
    }
  }

  lemma FewCalls(calls: seq<Call>, n: nat)
    requires |calls| <= n + 2 && forall i :: n <= i < |calls| ==> calls[i].Looked? || calls[i].Pulled?
    ensures !SeenRunning(calls, n) && RemovesBetween(calls, n)
  {
  }

  /** A look before the first start is none at the started container. */
  lemma NothingSeenBefore(calls: seq<Call>, n: nat)
    requires n + 3 <= |calls| && forall i :: n <= i < n + 3 ==> !calls[i].Started? && !calls[i].Created?
    ensures SeenRunning(calls, n) <==> SeenRunning(calls, n + 3)
    ensures RemovesBetween(calls, n) <==> RemovesBetween(calls, n + 3)
  {
  }

  class DockerClient {
    const daemon: Daemon

    constructor (daemon: Daemon)
      ensures this.daemon == daemon
    {
      this.daemon := daemon;
    }

    method Snapshot(name: string) returns (r: Option<DiscoveredNode>)
      requires daemon.Valid()
      modifies daemon`calls
      ensures |daemon.calls| == |old(daemon.calls)| + 1 && old(daemon.calls) <= daemon.calls
      ensures daemon.calls[|old(daemon.calls)|].Looked?
      ensures r.Some? ==>
                && name in daemon.containers
                && r.value == NodeOf(daemon.containers[name]) && r.value.containerName == name
    {
      var cj := daemon.Inspect(name);
      if cj.None? {
        return None;
      }
      var node := ParseContainerToNode(cj.value);
      assert ("/" + name)[1..] == name;
      r := Some(node);
    }

    method CreateContainer(cfg: ContainerConfig) returns (ok: bool)
      requires daemon.Valid()
      modifies daemon
      ensures daemon.Valid() && OnlyChanges(old(daemon.containers), daemon.containers, cfg.name)
      ensures daemon.calls == old(daemon.calls) + if ValidConfig(cfg) then [Created(ok)] else []
      ensures ok ==> ValidConfig(cfg) && cfg.name in daemon.containers && CreatedFrom(daemon.containers[cfg.name], cfg)
    {
      if !ValidConfig(cfg) {
        return false;
      }
      ok := daemon.Create(cfg);
    }

    method RemoveContainer(name: string) returns (ok: bool)
      requires daemon.Valid()
      modifies daemon
      ensures daemon.Valid() && OnlyChanges(old(daemon.containers), daemon.containers, name)
      ensures daemon.calls == old(daemon.calls) + [Stopped, Removed(ok)] && (ok ==> name !in daemon.containers)
    {
      daemon.Stop(name);
      ok := daemon.Delete(name);
    }

    /** Creates the container from what was read of `was`, at the given tag, and starts it. */
    method CreateAndStart(name: string, tag: string, snapshot: DiscoveredNode, startInEpoch: bool,
                          ghost was: ContainerJSON)
      returns (created: bool, started: bool)
      requires daemon.Valid() && snapshot == NodeOf(was) && snapshot.containerName == name
      modifies daemon
      ensures daemon.Valid() && OnlyChanges(old(daemon.containers), daemon.containers, name)
      ensures daemon.calls == old(daemon.calls) +
                if created then [Created(true), Started(started)]
                else if ValidConfig(ConfigOf(snapshot, startInEpoch).(imageTag := tag)) then [Created(false)] else []
      ensures started ==>
                && created && name in daemon.containers && daemon.containers[name].running
                && StandsFor(daemon.containers[name], was, tag, startInEpoch)
    {
      hide NodeOf, Arguments, ValidConfig, CreatedFrom, StandsFor;
      var cfg := ConfigOf(snapshot, startInEpoch).(imageTag := tag);
      created := CreateContainer(cfg);
      if !created {
        return false, false;
      }
      ghost var c := daemon.containers[name];
      RebuiltStands(c, was, tag, startInEpoch);
      started := daemon.Start(name);
      RunningIsStatus(c, daemon.containers[name], was, tag, startInEpoch);
    }

    method Rollback(name: string, oldTag: string, snapshot: DiscoveredNode, ghost was: ContainerJSON) returns (ok: bool)
      requires daemon.Valid() && snapshot == NodeOf(was) && snapshot.containerName == name
      modifies daemon
      ensures daemon.Valid() && OnlyChanges(old(daemon.containers), daemon.containers, name)
      ensures NoLooks(old(daemon.calls), daemon.calls) && (ok <==> EndsStarted(old(daemon.calls), daemon.calls))
      ensures forall i :: |old(daemon.calls)| < i < |daemon.calls| ==> !daemon.calls[i].Created?
      ensures ok ==>
                && name in daemon.containers && daemon.containers[name].running
                && StandsFor(daemon.containers[name], was, oldTag, false)
    {
      var _, started := CreateAndStart(name, oldTag, snapshot, false, was);
      ok := started;
    }

    /** What an upgrade step that failed after the pull does. */
    method GiveUp(name: string, snapshot: DiscoveredNode, remove: bool, ghost was: ContainerJSON)
      returns (outcome: Outcome)
      requires daemon.Valid() && snapshot == NodeOf(was) && snapshot.containerName == name
      modifies daemon
      ensures daemon.Valid() && OnlyChanges(old(daemon.containers), daemon.containers, name)
      ensures NoLooks(old(daemon.calls), daemon.calls)
      ensures CreatesOnce(old(daemon.calls), daemon.calls, remove)
      ensures outcome == RolledBack(snapshot.dockerImageTag) || outcome == RollbackFailed || outcome == FailedWithoutTag
      ensures outcome == FailedWithoutTag <==> snapshot.dockerImageTag == ""
      ensures outcome == RollbackFailed ==> !EndsStarted(old(daemon.calls), daemon.calls)
      ensures outcome.RolledBack? ==>
                && name in daemon.containers && daemon.containers[name].running
                && StandsFor(daemon.containers[name], was, snapshot.dockerImageTag, false)
    {
      hide NodeOf, StandsFor;
      if snapshot.dockerImageTag == "" {
        return FailedWithoutTag;
      }
      if remove {
        var _ := RemoveContainer(name);
      }
      var ok := Rollback(name, snapshot.dockerImageTag, snapshot, was);
      return if ok then RolledBack(snapshot.dockerImageTag) else RollbackFailed;
    }

    /** Polls until the container is seen running or the deadline is reached after `polls` more looks. */
    method AwaitRunning(name: string, polls: nat) returns (healthy: bool)
      requires daemon.Valid() && name in daemon.containers
      modifies daemon
      ensures daemon.Valid() && OnlyChanges(old(daemon.containers), daemon.containers, name)
      ensures name in daemon.containers && SameButRunning(old(daemon.containers)[name], daemon.containers[name])
      ensures Looks(old(daemon.calls), daemon.calls, polls, healthy)
      ensures healthy ==> daemon.containers[name].running
    {
      var left := polls;
      while true
        invariant 0 <= left <= polls && |daemon.calls| == |old(daemon.calls)| + polls - left
        invariant old(daemon.calls) <= daemon.calls
        invariant forall i :: |old(daemon.calls)| <= i < |daemon.calls| ==>
                    daemon.calls[i].Looked? && daemon.calls[i] != Looked(Some(true))
        invariant daemon.Valid() && OnlyChanges(old(daemon.containers), daemon.containers, name)
        invariant name in daemon.containers && SameButRunning(old(daemon.containers)[name], daemon.containers[name])
        decreases left
      {
        daemon.SetRunning(name);
        var status := daemon.Inspect(name);
        if status.Some? && status.value.running {
          return true;
        }
        if left == 0 {
          return false;
        }
        left := left - 1;
      }
    }

    /**
     * Success means a running container that stands for the old one at the new tag; a failure after
     * the pull that reports no rollback failure (old tag known) means one that stands for it at the
     * old tag. Both are without the start-in-epoch flag. No other container is touched.
     */
    method UpgradeContainerWithRollback(name: string, newTag: string, polls: nat) returns (outcome: Outcome)
      requires daemon.Valid()
      modifies daemon
      ensures daemon.Valid() && OnlyChanges(old(daemon.containers), daemon.containers, name)
      ensures old(daemon.calls) <= daemon.calls
      ensures outcome == Upgraded <==> SeenRunning(daemon.calls, |old(daemon.calls)|)
      ensures RemovesBetween(daemon.calls, |old(daemon.calls)|)
      ensures outcome != SnapshotFailed && outcome != PullFailed ==>
                && name in old(daemon.containers)
                && var first := |old(daemon.calls)|;
                && |daemon.calls| > first + 1 && daemon.calls[first + 1] == Pulled(KLEVER_IMAGE + ":" + newTag, true)
                && (outcome != Upgraded
                    && ValidConfig(ConfigOf(NodeOf(old(daemon.containers)[name]), false).(imageTag := newTag))
                    && (forall i :: first <= i < |daemon.calls| ==> !Fails(daemon.calls[i])) ==>
                      GaveUpWaiting(daemon.calls, first + 7, polls))
      ensures outcome == SnapshotFailed || outcome == PullFailed ==> daemon.containers == old(daemon.containers)
      ensures outcome != SnapshotFailed ==> name in old(daemon.containers)
      ensures outcome == Upgraded ==>
                && name in daemon.containers && daemon.containers[name].running
                && StandsFor(daemon.containers[name], old(daemon.containers)[name], newTag, false)
      ensures outcome.RolledBack? ==>
                && name in daemon.containers && daemon.containers[name].running
                && outcome.tag == NodeOf(old(daemon.containers)[name]).dockerImageTag
                && StandsFor(daemon.containers[name], old(daemon.containers)[name], outcome.tag, false)
      ensures outcome == FailedWithoutTag ==> NodeOf(old(daemon.containers)[name]).dockerImageTag == ""
      ensures outcome == RollbackFailed ==> !EndsStarted(old(daemon.calls), daemon.calls)
    {
      hide NodeOf, StandsFor, SeenRunning, RemovesBetween, ConfigOf, ValidConfig;
      var found := Snapshot(name);
      if found.None? {
        FewCalls(daemon.calls, |old(daemon.calls)|);
        return SnapshotFailed;
      }
      var snapshot := found.value;
      ghost var was := daemon.containers[name];
      var pulled := daemon.Pull(KLEVER_IMAGE + ":" + newTag);
      if !pulled {
        FewCalls(daemon.calls, |old(daemon.calls)|);
        return PullFailed;
      }
      daemon.Stop(name);
      outcome := Exchange(name, newTag, polls, snapshot, was);
      NothingSeenBefore(daemon.calls, |old(daemon.calls)|);
    }

    /** Removes the container and creates and awaits the new one, or gives up. */
    method Exchange(name: string, newTag: string, polls: nat, snapshot: DiscoveredNode, ghost was: ContainerJSON)
      returns (outcome: Outcome)
      requires daemon.Valid() && snapshot == NodeOf(was) && snapshot.containerName == name
      modifies daemon
      ensures daemon.Valid() && OnlyChanges(old(daemon.containers), daemon.containers, name)
      ensures old(daemon.calls) <= daemon.calls && outcome != SnapshotFailed && outcome != PullFailed
      ensures outcome == Upgraded <==> SeenRunning(daemon.calls, |old(daemon.calls)|)
      ensures RemovesBetween(daemon.calls, |old(daemon.calls)|)
      ensures outcome != Upgraded && ValidConfig(ConfigOf(snapshot, false).(imageTag := newTag))
              && (forall i :: |old(daemon.calls)| <= i < |daemon.calls| ==> !Fails(daemon.calls[i])) ==>
                GaveUpWaiting(daemon.calls, |old(daemon.calls)| + 4, polls)
      ensures outcome == Upgraded ==>
                && name in daemon.containers && daemon.containers[name].running
                && StandsFor(daemon.containers[name], was, newTag, false)
      ensures outcome.RolledBack? ==>
                && name in daemon.containers && daemon.containers[name].running
                && outcome.tag == snapshot.dockerImageTag
                && StandsFor(daemon.containers[name], was, outcome.tag, false)
      ensures outcome == FailedWithoutTag ==> snapshot.dockerImageTag == ""
      ensures outcome == RollbackFailed ==> !EndsStarted(old(daemon.calls), daemon.calls)
    {
      hide NodeOf, StandsFor, ConfigOf, ValidConfig, SeenRunning;
      ghost var n := |daemon.calls|;
      var removed := RemoveContainer(name);
      if !removed {
        assert Fails(daemon.calls[n + 1]);
        ghost var before := daemon.calls;
        outcome := GiveUp(name, snapshot, false, was);
        NothingSeen(before, daemon.calls, n);
        return;
      }
      ghost var removedAt := daemon.calls;
      var created, healthy := StartNew(name, newTag, polls, snapshot, was);
      NothingSeenEarlier(removedAt, daemon.calls, n);
      assert forall i :: n <= i < |daemon.calls| && daemon.calls[i].Created? ==> daemon.calls[i] == Created(created);
      if healthy {
        return Upgraded;
      }
      ghost var before := daemon.calls;
      outcome := GiveUp(name, snapshot, created, was);
      NothingSeen(before, daemon.calls, n);
      RemovedInBetween(before, daemon.calls, n, created);
    }

    /** Creates and starts the new container and waits for it to be seen running. */
    method StartNew(name: string, newTag: string, polls: nat, snapshot: DiscoveredNode, ghost was: ContainerJSON)
      returns (created: bool, healthy: bool)
      requires daemon.Valid() && snapshot == NodeOf(was) && snapshot.containerName == name
      modifies daemon
      ensures daemon.Valid() && OnlyChanges(old(daemon.containers), daemon.containers, name)
      ensures old(daemon.calls) <= daemon.calls
      ensures healthy ==>
                && name in daemon.containers && daemon.containers[name].running
                && StandsFor(daemon.containers[name], was, newTag, false)
      ensures healthy <==> SeenRunning(daemon.calls, |old(daemon.calls)|)
      ensures forall i :: |old(daemon.calls)| <= i < |daemon.calls| && daemon.calls[i].Created? ==>
                i == |old(daemon.calls)| && daemon.calls[i] == Created(created)
      ensures !healthy ==>
                && !EndsStarted(old(daemon.calls), daemon.calls)
                && forall i :: |old(daemon.calls)| <= i < |daemon.calls| ==> daemon.calls[i] != Looked(Some(true))
      ensures !healthy && ValidConfig(ConfigOf(snapshot, false).(imageTag := newTag))
              && (forall i :: |old(daemon.calls)| <= i < |daemon.calls| ==> !Fails(daemon.calls[i])) ==>
                GaveUpWaiting(daemon.calls, |old(daemon.calls)| + 2, polls)
    {
      hide NodeOf, StandsFor, ConfigOf, ValidConfig;
      ghost var n := |daemon.calls|;
      var started;
      created, started := CreateAndStart(name, newTag, snapshot, false, was);
      if !started {
        assert ValidConfig(ConfigOf(snapshot, false).(imageTag := newTag)) ==> Fails(daemon.calls[|daemon.calls| - 1]);
        return created, false;
      }
      assert daemon.calls[n + 1] == Started(true);
      ghost var upgraded := daemon.containers[name];
      healthy := AwaitRunning(name, polls);
      RunningIsStatus(upgraded, daemon.containers[name], was, newTag, false);
    }

    /**
     * RecreateWithStartInEpoch and RecreateWithoutStartInEpoch: on success the same node runs with
     * the flag present exactly if asked for. There is no rollback.
     */
    method Recreate(name: string, startInEpoch: bool) returns (ok: bool)
      requires daemon.Valid()
      modifies daemon
      ensures daemon.Valid() && OnlyChanges(old(daemon.containers), daemon.containers, name)
      ensures old(daemon.calls) <= daemon.calls && (ok <==> EndsStarted(old(daemon.calls), daemon.calls))
      ensures ok ==>
                && name in old(daemon.containers) && name in daemon.containers && daemon.containers[name].running
                && var tag := NodeOf(old(daemon.containers)[name]).dockerImageTag;
                   StandsFor(daemon.containers[name], old(daemon.containers)[name],
                             if tag == "" then "latest" else tag, startInEpoch)
    {
      hide NodeOf, StandsFor;
      var found := Snapshot(name);
      if found.None? {
        return false;
      }
      var node := found.value;
      ghost var was := daemon.containers[name];
      var tag := node.dockerImageTag;
      if tag == "" {
        tag := "latest";
      }
      var removed := RemoveContainer(name);
      if !removed {
        return false;
      }
      var _, started := CreateAndStart(name, tag, node, startInEpoch, was);
      ok := started;
    }
  }
}
