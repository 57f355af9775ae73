/** Agents, their versions and which version is deployed. */
module AgentLifecycle {
  import opened Collections

  datatype Status = DRAFT | ACTIVE | PAUSED | ARCHIVED

  /** The fields that a version snapshot holds. */
  datatype Field =
    | Name | Description | Role | Objective | SystemInstructions | Personality | Tone | Language
    | ModelProvider | ModelName | Temperature | MaxTokens | Guardrails | MaxToolCalls | TimeoutSeconds

  /** The values of the fields that are not null. */
  type Config = map<Field, string>

  datatype Agent = Agent(org: string, config: Config, status: Status, deployed: Option<string>, deleted: bool)

  datatype Version = Version(id: string, number: nat, config: Config)

  /** The versions of each agent in the order of their creation. */
  datatype Store = Store(agents: map<string, Agent>, versions: map<string, seq<Version>>)

  /** Requests with the ids that are generated for new rows. A change maps a field to its new value or to null. */
  datatype Op =
    | Create(id: string, org: string, config: Config, versionId: string)
    | Update(id: string, org: string, changes: map<Field, Option<string>>, commit: Option<string>)
    | CreateVersion(id: string, org: string, versionId: string)
    | Deploy(id: string, org: string, versionId: string)
    | Undeploy(id: string, org: string)
    | Rollback(id: string, org: string, versionId: string, newId: string)
    | Pause(id: string, org: string)
    | Resume(id: string, org: string)
    | Archive(id: string, org: string)
    | Restore(id: string, org: string)

  datatype Answer = Done | AgentNotFound | VersionNotFound | NoInstructions | NothingDeployed

  const DEFAULT_INSTRUCTIONS := "You are a helpful AI assistant."

  predicate Owned(s: Store, org: string, id: string)
  {
    id in s.agents && s.agents[id].org == org && !s.agents[id].deleted
  }

  function FindVersion(versions: seq<Version>, id: string): Option<Version>
  {
    if versions == [] then None
    else if versions[0].id == id then Some(versions[0])
    else FindVersion(versions[1..], id)
  }

  /** The highest version number; 0 when there is no version. */
  function LastNumber(versions: seq<Version>): nat
  {
    if versions == [] then 0
    else
      var rest := LastNumber(versions[1..]);
      if versions[0].number < rest then rest else versions[0].number
  }

  lemma {:induction false} LastIsHighest(versions: seq<Version>)
    ensures forall v :: v in versions ==> v.number <= LastNumber(versions)
  {
    if versions != [] {
      LastIsHighest(versions[1..]);
    }
  }

  function Instructed(c: Config): bool
  {
    SystemInstructions in c && c[SystemInstructions] != ""
  }

  function Changed(c: Config, changes: map<Field, Option<string>>): Config
  {
    map f | f in c.Keys + changes.Keys && (if f in changes then changes[f].Some? else true)
      :: if f in changes then changes[f].value else c[f]
  }

  function Defaulted(c: Config): Config
  {
    if Instructed(c) then c else c[SystemInstructions := DEFAULT_INSTRUCTIONS]
  }

  function VersionsOf(s: Store, id: string): seq<Version>
  {
    if id in s.versions then s.versions[id] else []
  }

  function WithAgent(s: Store, id: string, a: Agent): Store
  {
    s.(agents := s.agents[id := a])
  }

  /** Adds a version with the next number. */
  function WithVersion(s: Store, id: string, versionId: string, config: Config): Store
  {
    var before := VersionsOf(s, id);
    s.(versions := s.versions[id := before + [Version(versionId, LastNumber(before) + 1, config)]])
  }

  function Deployed(s: Store, org: string, id: string, versionId: string): (Store, Answer)
  {
    if !Owned(s, org, id) then (s, AgentNotFound)
    else
      var v := FindVersion(VersionsOf(s, id), versionId);
      if v.None? then (s, VersionNotFound)
      else if !Instructed(v.value.config) then (s, NoInstructions)
      else
        var a := s.agents[id];
        (WithAgent(s, id, a.(status := ACTIVE, deployed := Some(v.value.id), config := a.config + v.value.config)),
         Done)
  }

  function Handle(s: Store, op: Op): (Store, Answer)
  {
    match op
    case Create(id, org, config, versionId) =>
      var a := Agent(org, Defaulted(config), DRAFT, None, false);
      (WithVersion(WithAgent(s, id, a), id, versionId, a.config), Done)
    case Update(id, org, changes, commit) =>
      if !Owned(s, org, id) then (s, AgentNotFound)
      else
        var a := s.agents[id].(config := Changed(s.agents[id].config, changes));
        (if commit.Some? then WithVersion(WithAgent(s, id, a), id, commit.value, a.config)
         else WithAgent(s, id, a), Done)
    case CreateVersion(id, org, versionId) =>
      if !Owned(s, org, id) then (s, AgentNotFound)
      else (WithVersion(s, id, versionId, s.agents[id].config), Done)
    case Deploy(id, org, versionId) => Deployed(s, org, id, versionId)
    case Undeploy(id, org) =>
      if !Owned(s, org, id) then (s, AgentNotFound)
      else (WithAgent(s, id, s.agents[id].(status := DRAFT, deployed := None)), Done)
    case Rollback(id, org, versionId, newId) =>
      if !Owned(s, org, id) then (s, AgentNotFound)
      else
        var target := FindVersion(VersionsOf(s, id), versionId);
        if target.None? then (s, VersionNotFound)
        else Deployed(WithVersion(s, id, newId, target.value.config), org, id, newId)
    case Pause(id, org) =>
      if !Owned(s, org, id) then (s, AgentNotFound)
      else (WithAgent(s, id, s.agents[id].(status := PAUSED)), Done)
    case Resume(id, org) =>
      if !Owned(s, org, id) then (s, AgentNotFound)
      else if s.agents[id].deployed.None? then (s, NothingDeployed)
      else (WithAgent(s, id, s.agents[id].(status := ACTIVE)), Done)
    case Archive(id, org) =>
      if !Owned(s, org, id) then (s, AgentNotFound)
      else if s.agents[id].status == ARCHIVED then (s, Done)
      else (WithAgent(s, id, s.agents[id].(status := ARCHIVED, deleted := true, deployed := None)), Done)
    case Restore(id, org) =>
      if id !in s.agents || s.agents[id].org != org then (s, AgentNotFound)
      else (WithAgent(s, id, s.agents[id].(status := DRAFT, deleted := false)), Done)
  }

  // ---------- the service ----------

  class AgentsService {
    var agents: map<string, Agent>
    var versions: map<string, seq<Version>>

    constructor ()
      ensures agents == map[] && versions == map[]
    {
      agents, versions := map[], map[];
    }

    function Tables(): Store
      reads this
    {
      Store(agents, versions)
    }

    /** `findOwnedAgent` */
    method FindOwned(org: string, id: string) returns (a: Option<Agent>)
      ensures a.Some? <==> Owned(Tables(), org, id)
      ensures a.Some? <==> id in agents && agents[id].org == org && !agents[id].deleted
      ensures a.Some? ==> a.value == agents[id]
    {
      if id in agents && agents[id].org == org && !agents[id].deleted {
        return Some(agents[id]);
      }
      return None;
    }

    /** `createVersionInternal`: a snapshot of the agent as it is now, with the next number. */
    method CreateVersionInternal(id: string, versionId: string)
      requires id in agents
      modifies this`versions
      ensures Tables() == WithVersion(old(Tables()), id, versionId, agents[id].config)
      ensures var before := if id in old(versions) then old(versions)[id] else [];
              && versions == old(versions)[id := versions[id]] && |versions[id]| == |before| + 1
              && versions[id][..|before|] == before
              && versions[id][|before|].id == versionId && versions[id][|before|].config == agents[id].config
              && forall v :: v in before ==> v.number < versions[id][|before|].number
    {
      var existing := if id in versions then versions[id] else [];
      var last := LastNumber(existing);
      LastIsHighest(existing);
      versions := versions[id := existing + [Version(versionId, last + 1, agents[id].config)]];
    }

    method Create(id: string, org: string, config: Config, versionId: string)
      modifies this
      ensures (Tables(), Done) == Handle(old(Tables()), Op.Create(id, org, config, versionId))
      ensures agents == old(agents)[id := Agent(org, agents[id].config, DRAFT, None, false)]
      ensures forall f :: f != SystemInstructions ==>
                (f in agents[id].config <==> f in config) && (f in config ==> agents[id].config[f] == config[f])
      ensures SystemInstructions in agents[id].config
      ensures agents[id].config[SystemInstructions] ==
              if SystemInstructions in config && config[SystemInstructions] != "" then config[SystemInstructions]
              else "You are a helpful AI assistant."
      ensures id !in old(versions) ==> versions == old(versions)[id := [Version(versionId, 1, agents[id].config)]]
    {
      agents := agents[id := Agent(org, Defaulted(config), DRAFT, None, false)];
      CreateVersionInternal(id, versionId);
      assert [] + [Version(versionId, 1, agents[id].config)] == [Version(versionId, 1, agents[id].config)];
    }

    method Update(id: string, org: string, changes: map<Field, Option<string>>, commit: Option<string>)
      returns (answer: Answer)
      modifies this
      ensures (Tables(), answer) == Handle(old(Tables()), Op.Update(id, org, changes, commit))
      ensures answer == if Owned(old(Tables()), org, id) then Done else AgentNotFound
      ensures answer != Done ==> agents == old(agents) && versions == old(versions)
      ensures answer == Done ==>
                && agents == old(agents)[id := old(agents)[id].(config := agents[id].config)]
                && (forall f :: f in changes ==>
                      if changes[f].None? then f !in agents[id].config
                      else f in agents[id].config && agents[id].config[f] == changes[f].value)
                && (forall f :: f !in changes ==>
                      && (f in agents[id].config <==> f in old(agents)[id].config)
                      && (f in agents[id].config ==> agents[id].config[f] == old(agents)[id].config[f]))
                && (commit.None? ==> versions == old(versions))
    {
      var a := FindOwned(org, id);
      if a.None? {
        return AgentNotFound;
      }
      agents := agents[id := a.value.(config := Changed(a.value.config, changes))];
      if commit.Some? {
        CreateVersionInternal(id, commit.value);
      }
      return Done;
    }

    method CreateVersion(id: string, org: string, versionId: string) returns (answer: Answer)
      modifies this
      ensures (Tables(), answer) == Handle(old(Tables()), Op.CreateVersion(id, org, versionId))
      ensures answer == if Owned(old(Tables()), org, id) then Done else AgentNotFound
      ensures agents == old(agents) && (answer != Done ==> versions == old(versions))
    {
      var a := FindOwned(org, id);
      if a.None? {
        return AgentNotFound;
      }
      CreateVersionInternal(id, versionId);
      return Done;
    }

    method DeployVersion(id: string, org: string, versionId: string) returns (answer: Answer)
      modifies this
      ensures (Tables(), answer) == Deployed(old(Tables()), org, id, versionId)
      ensures answer == AgentNotFound <==> !Owned(old(Tables()), org, id)
      ensures answer == VersionNotFound <==>
                answer != AgentNotFound && FindVersion(VersionsOf(old(Tables()), id), versionId).None?
      ensures versions == old(versions) && (answer != Done ==> agents == old(agents))
      ensures answer == Done ==>
                var c := FindVersion(VersionsOf(old(Tables()), id), versionId).value.config;
                && SystemInstructions in c && c[SystemInstructions] != ""
                && agents == old(agents)[id := old(agents)[id].(status := ACTIVE, deployed := agents[id].deployed,
                                                                config := agents[id].config)]
                && agents[id].deployed == Some(FindVersion(VersionsOf(old(Tables()), id), versionId).value.id)
    {
      var a := FindOwned(org, id);
      if a.None? {
        return AgentNotFound;
      }
      var v := FindVersion(VersionsOf(Tables(), id), versionId);
      if v.None? {
        return VersionNotFound;
      }
      if !Instructed(v.value.config) {
        return NoInstructions;
      }
      agents := agents[id := a.value.(status := ACTIVE, deployed := Some(v.value.id),
                                      config := a.value.config + v.value.config)];
      return Done;
    }

    /** Snapshots the agent as a new version, overwrites the snapshot with the target's configuration, and deploys
        it. */
    method Rollback(id: string, org: string, versionId: string, newId: string) returns (answer: Answer)
      modifies this
      ensures (Tables(), answer) == Handle(old(Tables()), Op.Rollback(id, org, versionId, newId))
    {
      var a := FindOwned(org, id);
      if a.None? {
        return AgentNotFound;
      }
      var before := VersionsOf(Tables(), id);
      var target := FindVersion(before, versionId);
      if target.None? {
        return VersionNotFound;
      }
      CreateVersionInternal(id, newId);
      var created := versions[id][|before|];
      versions := versions[id := versions[id][|before| := created.(config := target.value.config)]];
      assert versions[id] == before + [Version(newId, created.number, target.value.config)];
      assert versions == old(versions)[id := versions[id]];
      assert Tables() == WithVersion(old(Tables()), id, newId, target.value.config);
      answer := DeployVersion(id, org, newId);
    }

    method Undeploy(id: string, org: string) returns (answer: Answer)
      modifies this
      ensures (Tables(), answer) == Handle(old(Tables()), Op.Undeploy(id, org))
      ensures answer == if !Owned(old(Tables()), org, id) then AgentNotFound else Done
      ensures versions == old(versions) && (answer != Done ==> agents == old(agents))
      ensures answer == Done ==> agents == old(agents)[id := old(agents)[id].(status := DRAFT, deployed := None)]
    {
      var a := FindOwned(org, id);
      if a.None? {
        return AgentNotFound;
      }
      agents := agents[id := a.value.(status := DRAFT, deployed := None)];
      return Done;
    }

    method Pause(id: string, org: string) returns (answer: Answer)
      modifies this
      ensures (Tables(), answer) == Handle(old(Tables()), Op.Pause(id, org))
      ensures answer == if !Owned(old(Tables()), org, id) then AgentNotFound else Done
      ensures versions == old(versions) && (answer != Done ==> agents == old(agents))
      ensures answer == Done ==> agents == old(agents)[id := old(agents)[id].(status := PAUSED)]
    {
      var a := FindOwned(org, id);
      if a.None? {
        return AgentNotFound;
      }
      agents := agents[id := a.value.(status := PAUSED)];
      return Done;
    }

    method Resume(id: string, org: string) returns (answer: Answer)
      modifies this
      ensures (Tables(), answer) == Handle(old(Tables()), Op.Resume(id, org))
      ensures answer == if !Owned(old(Tables()), org, id) then AgentNotFound
                        else if old(agents)[id].deployed.None? then NothingDeployed else Done
      ensures versions == old(versions) && (answer != Done ==> agents == old(agents))
      ensures answer == Done ==> agents == old(agents)[id := old(agents)[id].(status := ACTIVE)]
    {
      var a := FindOwned(org, id);
      if a.None? {
        return AgentNotFound;
      }
      if a.value.deployed.None? {
        return NothingDeployed;
      }
      agents := agents[id := a.value.(status := ACTIVE)];
      return Done;
    }

    method Archive(id: string, org: string) returns (answer: Answer)
      modifies this
      ensures (Tables(), answer) == Handle(old(Tables()), Op.Archive(id, org))
      ensures answer == if Owned(old(Tables()), org, id) then Done else AgentNotFound
      ensures versions == old(versions) && (answer != Done ==> agents == old(agents))
      ensures answer == Done ==>
                agents == if old(agents)[id].status == ARCHIVED then old(agents)
                          else old(agents)[id := old(agents)[id].(status := ARCHIVED, deleted := true,
                                                                  deployed := None)]
    {
      var a := FindOwned(org, id);
      if a.None? {
        return AgentNotFound;
      }
      if a.value.status == ARCHIVED {
        return Done;
      }
      agents := agents[id := a.value.(status := ARCHIVED, deleted := true, deployed := None)];
      return Done;
    }

    method Restore(id: string, org: string) returns (answer: Answer)
      modifies this
      ensures (Tables(), answer) == Handle(old(Tables()), Op.Restore(id, org))
      ensures answer == if id in old(agents) && old(agents)[id].org == org then Done else AgentNotFound
      ensures versions == old(versions) && (answer != Done ==> agents == old(agents))
      ensures answer == Done ==> agents == old(agents)[id := old(agents)[id].(status := DRAFT, deleted := false)]
    {
      if id !in agents || agents[id].org != org {
        return AgentNotFound;
      }
      agents := agents[id := agents[id].(status := DRAFT, deleted := false)];
      return Done;
    }
  }

  // ---------- what every operation keeps ----------

  ghost predicate HasVersion(versions: seq<Version>, id: string)
  {
    exists i :: 0 <= i < |versions| && versions[i].id == id
  }

  /** Numbers are exactly 1..n, in order. */
  ghost predicate Numbered(versions: seq<Version>)
  {
    forall i :: 0 <= i < |versions| ==> versions[i].number == i + 1
  }

  ghost predicate HealthyAgent(a: Agent, versions: seq<Version>)
  {
    && versions != [] && Numbered(versions)
    && (a.deployed.Some? ==> HasVersion(versions, a.deployed.value))
    && (a.status == ACTIVE ==> a.deployed.Some?)
    && (a.deleted <==> a.status == ARCHIVED)
    && (a.status == ARCHIVED ==> a.deployed.None?)
  }

  ghost predicate Healthy(s: Store)
  {
    && (forall id :: id in s.agents <==> id in s.versions)
    && (forall id :: id in s.agents ==> HealthyAgent(s.agents[id], s.versions[id]))
  }

  /** Ids of new agents and versions are fresh. */
  ghost predicate Fresh(s: Store, op: Op)
  {
    && (op.Create? ==> op.id !in s.agents)
    && (op.Rollback? ==> !HasVersion(VersionsOf(s, op.id), op.newId))
  }

  lemma {:induction false} FindIsMember(versions: seq<Version>, id: string)
    ensures FindVersion(versions, id).Some? <==> HasVersion(versions, id)
    ensures FindVersion(versions, id).Some? ==>
            FindVersion(versions, id).value in versions && FindVersion(versions, id).value.id == id
  {
    if versions != [] {
      FindIsMember(versions[1..], id);
      if HasVersion(versions, id) && versions[0].id != id {
        var i :| 0 <= i < |versions| && versions[i].id == id;
        assert versions[1..][i - 1].id == id;
      }
      if HasVersion(versions[1..], id) {
        var i :| 0 <= i < |versions[1..]| && versions[1..][i].id == id;
        assert versions[i + 1].id == id;
      }
    }
  }

  lemma {:induction false} LastNumberCounts(versions: seq<Version>, base: nat)
    requires forall i :: 0 <= i < |versions| ==> versions[i].number == base + i + 1
    ensures LastNumber(versions) == if versions == [] then 0 else base + |versions|
  {
    if versions != [] {
      LastNumberCounts(versions[1..], base + 1);
    }
  }

  lemma AddVersion(a: Agent, versions: seq<Version>, v: Version)
    requires HealthyAgent(a, versions) && v.number == LastNumber(versions) + 1
    ensures HealthyAgent(a, versions + [v]) && v.number == |versions| + 1
  {
    LastNumberCounts(versions, 0);
    var all := versions + [v];
    if a.deployed.Some? {
      var i :| 0 <= i < |versions| && versions[i].id == a.deployed.value;
      assert all[i].id == a.deployed.value;
    }
  }

  lemma SameVersions(s: Store, id: string, a: Agent)
    requires Healthy(s) && id in s.agents && HealthyAgent(a, s.versions[id])
    ensures Healthy(WithAgent(s, id, a))
  {
    assert s.versions[id := s.versions[id]] == s.versions;
  }

  lemma NewVersion(s: Store, id: string, versionId: string, config: Config)
    requires Healthy(s) && id in s.agents
    ensures Healthy(WithVersion(s, id, versionId, config))
    ensures VersionsOf(WithVersion(s, id, versionId, config), id)
            == VersionsOf(s, id) + [Version(versionId, |VersionsOf(s, id)| + 1, config)]
  {
    hide HealthyAgent;
    var v := Version(versionId, LastNumber(s.versions[id]) + 1, config);
    AddVersion(s.agents[id], s.versions[id], v);
    assert s.agents[id := s.agents[id]] == s.agents;
  }

  lemma DeployKeepsHealthy(s: Store, org: string, id: string, versionId: string)
    requires Healthy(s)
    ensures Healthy(Deployed(s, org, id, versionId).0)
  {
    hide Healthy;
    if Deployed(s, org, id, versionId).1 == Done {
      assert HealthyAgent(s.agents[id], s.versions[id]) by { HealthyOf(s, id); }
      FindIsMember(s.versions[id], versionId);
      SameVersions(s, id, Deployed(s, org, id, versionId).0.agents[id]);
    }
  }

  lemma HealthyOf(s: Store, id: string)
    requires Healthy(s) && id in s.agents
    ensures id in s.versions && HealthyAgent(s.agents[id], s.versions[id])
  {
  }

  lemma FirstVersion(s: Store, op: Op)
    requires Healthy(s) && op.Create? && Fresh(s, op)
    ensures Healthy(Handle(s, op).0)
  {
    var a := Agent(op.org, Defaulted(op.config), DRAFT, None, false);
    var v := Version(op.versionId, 1, a.config);
    assert VersionsOf(WithAgent(s, op.id, a), op.id) == [];
    assert [] + [v] == [v];
  }

  lemma OpKeepsHealthy(s: Store, op: Op)
    requires Healthy(s) && Fresh(s, op)
    ensures Healthy(Handle(s, op).0)
  {
    hide Healthy, Changed, Instructed, FindVersion;
    if op.Create? {
      FirstVersion(s, op);
    } else if op.id in s.agents {
      HealthyOf(s, op.id);
      if Owned(s, op.org, op.id) {
        match op
        case Update(id, _, changes, commit) =>
          var a := s.agents[id].(config := Changed(s.agents[id].config, changes));
          SameVersions(s, id, a);
          if commit.Some? {
            NewVersion(WithAgent(s, id, a), id, commit.value, a.config);
          }
        case CreateVersion(id, _, versionId) => NewVersion(s, id, versionId, s.agents[id].config);
        case Deploy(id, org, versionId) => DeployKeepsHealthy(s, org, id, versionId);
        case Rollback(id, org, versionId, newId) =>
          var target := FindVersion(VersionsOf(s, id), versionId);
          if target.Some? {
            NewVersion(s, id, newId, target.value.config);
            DeployKeepsHealthy(WithVersion(s, id, newId, target.value.config), org, id, newId);
          }
        case Undeploy(id, _) => SameVersions(s, id, Handle(s, op).0.agents[id]);
        case Pause(id, _) => SameVersions(s, id, Handle(s, op).0.agents[id]);
        case Resume(id, _) => SameVersions(s, id, Handle(s, op).0.agents[id]);
        case Archive(id, _) => SameVersions(s, id, Handle(s, op).0.agents[id]);
        case Restore(id, _) => SameVersions(s, id, Handle(s, op).0.agents[id]);
      } else if op.Restore? {
        SameVersions(s, op.id, Handle(s, op).0.agents[op.id]);
      }
    }
  }

  function HandleAll(s: Store, ops: seq<Op>): Store
    decreases |ops|
  {
    if ops == [] then s else HandleAll(Handle(s, ops[0]).0, ops[1..])
  }

  ghost predicate AllFresh(s: Store, ops: seq<Op>)
    decreases |ops|
  {
    ops == [] || (Fresh(s, ops[0]) && AllFresh(Handle(s, ops[0]).0, ops[1..]))
  }

  lemma {:induction false} HistoryKeepsHealthy(s: Store, ops: seq<Op>)
    requires Healthy(s) && AllFresh(s, ops)
    ensures Healthy(HandleAll(s, ops))
    decreases |ops|
  {
    hide Healthy, Handle, Fresh;
    if ops != [] {
      OpKeepsHealthy(s, ops[0]);
      HistoryKeepsHealthy(Handle(s, ops[0]).0, ops[1..]);
    }
  }

  /** In every history: version numbers are 1..n, ACTIVE means a deployed version of the agent's own, `deletedAt`
      is set exactly for ARCHIVED agents, and those have nothing deployed. */
  lemma EveryStoreIsHealthy(ops: seq<Op>)
    requires AllFresh(Store(map[], map[]), ops)
    ensures Healthy(HandleAll(Store(map[], map[]), ops))
  {
    HistoryKeepsHealthy(Store(map[], map[]), ops);
  }

  // ---------- versions are never rewritten ----------

  ghost predicate Extends(before: seq<Version>, after: seq<Version>)
  {
    |before| <= |after| && after[..|before|] == before
  }

  lemma OpExtendsVersions(s: Store, op: Op, id: string)
    requires Healthy(s) && Fresh(s, op)
    ensures Extends(VersionsOf(s, id), VersionsOf(Handle(s, op).0, id))
  {
    hide HealthyAgent, Changed, Instructed, FindVersion, LastNumber;
  }

  /** No operation ever changes or removes a version once it exists. */
  lemma {:induction false} VersionsAreImmutable(s: Store, ops: seq<Op>, id: string)
    requires Healthy(s) && AllFresh(s, ops)
    ensures Extends(VersionsOf(s, id), VersionsOf(HandleAll(s, ops), id))
    decreases |ops|
  {
    hide Healthy, Handle, Fresh, VersionsOf;
    if ops != [] {
      OpKeepsHealthy(s, ops[0]);
      OpExtendsVersions(s, ops[0], id);
      VersionsAreImmutable(Handle(s, ops[0]).0, ops[1..], id);
    }
  }

  // ---------- rollback ----------

  /** A rollback to one of the agent's versions adds version n+1 with the target's configuration and touches no
      other version. It then deploys it, taking each field from the target or else leaving it, exactly when
      the target has system instructions; otherwise it fails after the version was added. */
  lemma RollbackCopiesTarget(s: Store, org: string, id: string, versionId: string, newId: string)
    requires Healthy(s) && Owned(s, org, id) && !HasVersion(s.versions[id], newId)
    requires FindVersion(s.versions[id], versionId).Some?
    ensures var target := FindVersion(s.versions[id], versionId).value;
            var (t, answer) := Handle(s, Rollback(id, org, versionId, newId));
            && (answer == Done <==> Instructed(target.config)) && (answer != Done ==> answer == NoInstructions)
            && t.versions == s.versions[id := s.versions[id] + [Version(newId, |s.versions[id]| + 1, target.config)]]
            && (answer != Done ==> t.agents == s.agents)
            && (answer == Done ==>
                  && t.agents[id].status == ACTIVE && t.agents[id].deployed == Some(newId)
                  && (forall f :: f in t.agents[id].config <==> f in target.config || f in s.agents[id].config)
                  && (forall f :: f in t.agents[id].config ==>
                        t.agents[id].config[f] ==
                        if f in target.config then target.config[f] else s.agents[id].config[f]))
  {
    hide Healthy;
    HealthyOf(s, id);
    var target := FindVersion(s.versions[id], versionId).value;
    NewVersion(s, id, newId, target.config);
    FindAdded(s.versions[id], Version(newId, |s.versions[id]| + 1, target.config));
  }

  lemma {:induction false} FindAdded(versions: seq<Version>, v: Version)
    requires !HasVersion(versions, v.id)
    ensures FindVersion(versions + [v], v.id) == Some(v)
  {
    if versions == [] {
      assert versions + [v] == [v];
    } else {
      assert versions[0].id != v.id;
      assert (versions + [v])[1..] == versions[1..] + [v];
      forall i | 0 <= i < |versions[1..]| ensures versions[1..][i].id != v.id {
        assert versions[1..][i] == versions[i + 1];
      }
      FindAdded(versions[1..], v);
    }
  }

  // ---------- undeploying ----------

  /** The request deploys no version of the agent. */
  predicate DeploysNothing(op: Op, id: string)
  {
    (op.Deploy? || op.Rollback? || op.Create?) ==> op.id != id
  }

  lemma NothingDeployedStays(s: Store, op: Op, id: string)
    requires id in s.agents && s.agents[id].deployed.None? && s.agents[id].status != ACTIVE && DeploysNothing(op, id)
    ensures id in Handle(s, op).0.agents
    ensures var a := Handle(s, op).0.agents[id]; a.deployed.None? && a.status != ACTIVE
  {
    hide FindVersion, LastNumber, Changed;
  }

  /** After an undeployment nothing is pinned: through any requests that deploy nothing, the agent is never ACTIVE, and
      resuming it is refused. */
  lemma {:induction false} UndeployedStaysOff(s: Store, ops: seq<Op>, id: string)
    requires id in s.agents && s.agents[id].deployed.None? && s.agents[id].status != ACTIVE
    requires forall op :: op in ops ==> DeploysNothing(op, id)
    ensures var t := HandleAll(s, ops);
            && id in t.agents && t.agents[id].deployed.None? && t.agents[id].status != ACTIVE
            && forall org :: Handle(t, Resume(id, org)).1 in {NothingDeployed, AgentNotFound}
    decreases |ops|
  {
    hide Handle, DeploysNothing;
    if ops == [] {
      ResumeRefused(s, id);
    } else {
      assert DeploysNothing(ops[0], id);
      NothingDeployedStays(s, ops[0], id);
      UndeployedStaysOff(Handle(s, ops[0]).0, ops[1..], id);
    }
  }

  lemma ResumeRefused(s: Store, id: string)
    requires id in s.agents && s.agents[id].deployed.None?
    ensures forall org :: Handle(s, Resume(id, org)).1 in {NothingDeployed, AgentNotFound}
  {
  }

  lemma UndeployClearsPin(s: Store, org: string, id: string, ops: seq<Op>)
    requires Handle(s, Undeploy(id, org)).1 == Done && forall op :: op in ops ==> DeploysNothing(op, id)
    ensures var t := HandleAll(Handle(s, Undeploy(id, org)).0, ops);
            && id in t.agents && t.agents[id].deployed.None? && t.agents[id].status != ACTIVE
            && forall user :: Handle(t, Resume(id, user)).1 in {NothingDeployed, AgentNotFound}
  {
    UndeployedStaysOff(Handle(s, Undeploy(id, org)).0, ops, id);
  }

  // ---------- the pinned configuration ----------

  /** The agent's own fields, which are what a run uses, agree with a configuration. */
  ghost predicate Agrees(a: Agent, c: Config)
  {
    forall f :: f in c ==> f in a.config && a.config[f] == c[f]
  }

  /** Deploying is described as leaving the main fields alone. A deployment that succeeds does so if and only if they
      agree with the version already; afterwards they do agree. */
  lemma DeployLeavesFieldsIffTheyAgree(s: Store, org: string, id: string, versionId: string)
    requires Deployed(s, org, id, versionId).1 == Done
    ensures var a, b := s.agents[id], Deployed(s, org, id, versionId).0.agents[id];
            var c := FindVersion(VersionsOf(s, id), versionId).value.config;
            (b.config == a.config <==> Agrees(a, c)) && Agrees(b, c)
  {
    hide FindVersion;
    var a := s.agents[id];
    var c := FindVersion(VersionsOf(s, id), versionId).value.config;
    if a.config + c == a.config {
      forall f | f in c ensures f in a.config && a.config[f] == c[f] {
        assert f in a.config + c && (a.config + c)[f] == c[f];
      }
    }
  }

  /** The changes set every changed field that the configuration has to the configuration's value. */
  ghost predicate Respects(changes: map<Field, Option<string>>, c: Config)
  {
    forall f :: f in changes && f in c ==> changes[f] == Some(c[f])
  }

  /** The pinned configuration is described as immutable; but an update of a deployed agent goes straight to its
      fields: afterwards they agree with the pinned version if and only if the changes respect it. */
  lemma UpdateKeepsPinIffSameValues(s: Store, org: string, id: string, changes: map<Field, Option<string>>, c: Config)
    requires Owned(s, org, id) && Agrees(s.agents[id], c)
    ensures var a := Handle(s, Update(id, org, changes, None)).0.agents[id];
            && a.deployed == s.agents[id].deployed && a.status == s.agents[id].status
            && (Agrees(a, c) <==> Respects(changes, c))
  {
    var a := Handle(s, Update(id, org, changes, None)).0.agents[id];
    if Agrees(a, c) {
      forall f | f in changes && f in c
        ensures changes[f] == Some(c[f])
      {
        assert f in a.config;
      }
    }
  }

  /** The request leaves the agreement of the agent with its pinned configuration alone. */
  ghost predicate Harmless(op: Op, id: string, c: Config)
  {
    && (op.Update? && op.id == id ==> Respects(op.changes, c))
    && ((op.Deploy? || op.Rollback?) ==> op.id != id)
  }

  ghost predicate AllHarmless(ops: seq<Op>, id: string, c: Config)
  {
    forall op :: op in ops ==> Harmless(op, id, c)
  }

  lemma {:induction false} AgreementStays(s: Store, ops: seq<Op>, id: string, c: Config)
    requires id in s.agents && Agrees(s.agents[id], c) && AllFresh(s, ops) && AllHarmless(ops, id, c)
    ensures id in HandleAll(s, ops).agents && Agrees(HandleAll(s, ops).agents[id], c)
    decreases |ops|
  {
    hide Handle, Fresh, Agrees, Harmless;
    if ops != [] {
      assert Harmless(ops[0], id, c);
      OneHarmless(s, ops[0], id, c);
      AgreementStays(Handle(s, ops[0]).0, ops[1..], id, c);
    }
  }

  lemma OneHarmless(s: Store, op: Op, id: string, c: Config)
    requires id in s.agents && Agrees(s.agents[id], c) && Fresh(s, op) && Harmless(op, id, c)
    ensures id in Handle(s, op).0.agents && Agrees(Handle(s, op).0.agents[id], c)
  {
    hide FindVersion, LastNumber;
  }

  /** From a deployment on, through any requests that deploy nothing else and change no pinned field to another value,
      the fields that a run uses are those of the deployed version. */
  lemma RunsUseDeployedVersion(s: Store, org: string, id: string, versionId: string, ops: seq<Op>)
    requires Deployed(s, org, id, versionId).1 == Done
    requires var c := FindVersion(VersionsOf(s, id), versionId).value.config;
             AllFresh(Deployed(s, org, id, versionId).0, ops) && AllHarmless(ops, id, c)
    ensures var t := HandleAll(Deployed(s, org, id, versionId).0, ops);
            id in t.agents && Agrees(t.agents[id], FindVersion(VersionsOf(s, id), versionId).value.config)
  {
    hide FindVersion, AllFresh, AllHarmless, HandleAll;
    DeployLeavesFieldsIffTheyAgree(s, org, id, versionId);
    AgreementStays(Deployed(s, org, id, versionId).0, ops, id, FindVersion(VersionsOf(s, id), versionId).value.config);
  }
}
