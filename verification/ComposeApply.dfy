/** The Dokploy server as the wizard sees it, the stored checkpoint, and the apply helpers with the
    no-op guard (`dokploy/compose_noop.py`). Every client call may fail, before or after it takes
    effect; where a run is cut, the server keeps what the calls so far have done. */
module ComposeApply {
  import opened Text
  import opened EnvFormat
  import opened EnvMerge
  import V = ComposeValidation

  datatype Environment = Environment(id: string, isDefault: bool)

  datatype Project = Project(id: string, name: string, environments: seq<Environment>)

  /** A compose app, kept with the environment it belongs to. */
  datatype Compose = Compose(id: string, environmentId: string, name: string, file: string, env: string)

  /** A deploy that succeeded: what the compose held at that moment. */
  datatype Deploy = Deploy(id: string, file: string, env: string)

  datatype State = State(projects: seq<Project>, composes: seq<Compose>, deploys: seq<Deploy>)

  datatype Failure = ApiError | DeployRejected | NoCheckpoint | InvalidCompose(error: V.Error) | PersistFailed
    | UnknownName | InputsChanged

  datatype Locator = Locator(projectId: string, environmentId: string, composeId: string)

  const EMPTY_COMPOSE := "services: {}\n"

  function SetFile(cs: seq<Compose>, id: string, file: string): seq<Compose> {
    seq(|cs|, i requires 0 <= i < |cs| => if cs[i].id == id then cs[i].(file := file) else cs[i])
  }

  function SetEnv(cs: seq<Compose>, id: string, env: string): seq<Compose> {
    seq(|cs|, i requires 0 <= i < |cs| => if cs[i].id == id then cs[i].(env := env) else cs[i])
  }

  predicate HasId(cs: seq<Compose>, id: string) { exists c <- cs :: c.id == id }

  /** An identifier no longer listed one is equal to. */
  function NewId(ids: seq<string>): (id: string)
    ensures forall i <- ids :: |i| < |id|
  {
    if ids == [] then "x"
    else
      var rest := NewId(ids[1..]);
      assert ids == [ids[0]] + ids[1..];
      if |rest| > |ids[0]| then rest else ids[0] + "x"
  }

  function ComposeIds(cs: seq<Compose>): seq<string> { seq(|cs|, i requires 0 <= i < |cs| => cs[i].id) }

  /** `_pick_environment`: the first default environment, else the first one. */
  function PickEnvironment(es: seq<Environment>): (e: Option<Environment>)
    ensures e.None? <==> es == []
    ensures e.Some? ==> e.value in es
  {
    if es == [] then None
    else
      match FirstDefault(es)
      case Some(e) => Some(e)
      case None => Some(es[0])
  }

  function FirstDefault(es: seq<Environment>): (e: Option<Environment>)
    ensures e.Some? ==> e.value in es && e.value.isDefault
    ensures e.None? ==> forall x <- es :: !x.isDefault
  {
    if es == [] then None else if es[0].isDefault then Some(es[0]) else FirstDefault(es[1..])
  }

  function EnvironmentIds(cs: seq<Compose>): seq<string> {
    seq(|cs|, i requires 0 <= i < |cs| => cs[i].environmentId)
  }

  lemma NewEnvironmentIsNew(cs: seq<Compose>)
    ensures forall c <- cs :: c.environmentId != NewId(EnvironmentIds(cs))
  {
    forall c | c in cs ensures c.environmentId != NewId(EnvironmentIds(cs)) {
      var i :| 0 <= i < |cs| && cs[i] == c;
      assert EnvironmentIds(cs)[i] in EnvironmentIds(cs);
    }
  }

  predicate IsNew(s: State, p: Project, name: string) {
    && p.name == name && |p.environments| == 1
    && forall c <- s.composes :: c.environmentId != p.environments[0].id
  }

  function WithProject(s: State, p: Project): State { s.(projects := s.projects + [p]) }

  function WithCompose(s: State, c: Compose): State { s.(composes := s.composes + [c]) }

  // ---- The server ----

  class Server {
    var s: State
    /** Mutating calls received. */
    ghost var mutations: nat
    /** Deploys answered with success. */
    ghost var deploysOk: nat
    /** Calls that ask for a new project, and for a new app. */
    ghost var projectsAsked: nat
    ghost var composesAsked: nat
    /** Calls answered with an error, or with a deploy that did not succeed. */
    ghost var failed: nat
    /** Listings asked for. */
    ghost var listed: nat

    constructor (s: State)
      ensures this.s == s && mutations == 0 && deploysOk == 0 && projectsAsked == 0 && composesAsked == 0
    {
      this.s, mutations, deploysOk, projectsAsked, composesAsked := s, 0, 0, 0, 0;
      failed, listed := 0, 0;
    }

    method ListProjects() returns (r: Result<State, Failure>)
      modifies this`failed, this`listed
      ensures listed == old(listed) + 1
      ensures failed == old(failed) + (if r.Err? then 1 else 0)
      ensures r.Ok? ==> r.value == s
      ensures r.Err? ==> r.error == ApiError
    {
      listed := listed + 1;
      if * {
        failed := failed + 1;
        return Err(ApiError);
      }
      return Ok(s);
    }

    /** The new project comes with one environment of its own. */
    method CreateProject(name: string) returns (r: Result<Project, Failure>)
      modifies this`s, this`mutations, this`projectsAsked, this`failed
      ensures mutations == old(mutations) + 1
      ensures failed == old(failed) + (if r.Err? then 1 else 0)
      ensures projectsAsked == old(projectsAsked) + 1
      ensures r.Err? ==> r.error == ApiError
      ensures s == old(s) || exists p: Project :: IsNew(old(s), p, name) && s == WithProject(old(s), p)
      ensures r.Ok? ==> IsNew(old(s), r.value, name) && s == WithProject(old(s), r.value)
    {
      mutations, projectsAsked := mutations + 1, projectsAsked + 1;
      if * {
        failed := failed + 1;
        return Err(ApiError);
      }
      var id := NewId(EnvironmentIds(s.composes));
      NewEnvironmentIsNew(s.composes);
      var p := Project(id, name, [Environment(id, true)]);
      assert IsNew(s, p, name);
      s := WithProject(s, p);
      if * {
        failed := failed + 1;
        return Err(ApiError);
      }
      return Ok(p);
    }

    /** Creation and the upload of the first file are two requests. */
    method CreateCompose(name: string, environmentId: string, file: string) returns (r: Result<string, Failure>)
      modifies this`s, this`mutations, this`composesAsked, this`failed
      ensures mutations == old(mutations) + 1
      ensures failed == old(failed) + (if r.Err? then 1 else 0)
      ensures composesAsked == old(composesAsked) + 1
      ensures r.Err? ==> r.error == ApiError
      ensures s == old(s) || exists id, f ::
                !HasId(old(s).composes, id)
                && s == WithCompose(old(s), Compose(id, environmentId, name, f, ""))
      ensures r.Ok? ==>
                && !HasId(old(s).composes, r.value)
                && s == WithCompose(old(s), Compose(r.value, environmentId, name, file, ""))
    {
      mutations, composesAsked := mutations + 1, composesAsked + 1;
      if * {
        failed := failed + 1;
        return Err(ApiError);
      }
      var id := NewId(ComposeIds(s.composes));
      assert !HasId(s.composes, id) by { NewIdIsNew(s.composes); }
      var others := s.composes;
      s := s.(composes := others + [Compose(id, environmentId, name, "", "")]);
      if * {
        failed := failed + 1;
        return Err(ApiError);
      }
      s := s.(composes := others + [Compose(id, environmentId, name, file, "")]);
      if * {
        failed := failed + 1;
        return Err(ApiError);
      }
      return Ok(id);
    }

    method UpdateFile(id: string, file: string) returns (r: Result<string, Failure>)
      modifies this`s, this`mutations, this`failed
      ensures mutations == old(mutations) + 1
      ensures failed == old(failed) + (if r.Err? then 1 else 0)
      ensures r.Err? ==> r.error == ApiError
      ensures s == old(s) || s == old(s).(composes := SetFile(old(s).composes, id, file))
      ensures r.Ok? ==>
                && r.value == id && HasId(s.composes, id)
                && s == old(s).(composes := SetFile(old(s).composes, id, file))
    {
      mutations := mutations + 1;
      if * {
        failed := failed + 1;
        return Err(ApiError);
      }
      if !HasId(s.composes, id) {
        failed := failed + 1;
        return Err(ApiError);
      }
      SettersKeepIds(s.composes, id, file);
      s := s.(composes := SetFile(s.composes, id, file));
      if * {
        failed := failed + 1;
        return Err(ApiError);
      }
      return Ok(id);
    }

    method UpdateEnv(id: string, env: string) returns (r: Result<string, Failure>)
      modifies this`s, this`mutations, this`failed
      ensures mutations == old(mutations) + 1
      ensures failed == old(failed) + (if r.Err? then 1 else 0)
      ensures r.Err? ==> r.error == ApiError
      ensures s == old(s) || s == old(s).(composes := SetEnv(old(s).composes, id, env))
      ensures r.Ok? ==>
                && r.value == id && HasId(s.composes, id)
                && s == old(s).(composes := SetEnv(old(s).composes, id, env))
    {
      mutations := mutations + 1;
      if * {
        failed := failed + 1;
        return Err(ApiError);
      }
      if !HasId(s.composes, id) {
        failed := failed + 1;
        return Err(ApiError);
      }
      SettersKeepIds(s.composes, id, env);
      s := s.(composes := SetEnv(s.composes, id, env));
      if * {
        failed := failed + 1;
        return Err(ApiError);
      }
      return Ok(id);
    }

    /** The answer says whether the deploy succeeded; a lost answer may hide a success. */
    method DeployCompose(id: string) returns (r: Result<bool, Failure>)
      modifies this`s, this`mutations, this`deploysOk, this`failed
      ensures mutations == old(mutations) + 1
      ensures failed == old(failed) + (if r == Ok(true) then 0 else 1)
      ensures r.Err? ==> r.error == ApiError
      ensures deploysOk == old(deploysOk) + (if r == Ok(true) then 1 else 0)
      ensures s == old(s) || exists c <- old(s).composes ::
                c.id == id && s == old(s).(deploys := old(s).deploys + [Deploy(id, c.file, c.env)])
      ensures r == Ok(true) ==> exists c <- old(s).composes ::
                c.id == id && s == old(s).(deploys := old(s).deploys + [Deploy(id, c.file, c.env)])
    {
      mutations := mutations + 1;
      if * {
        failed := failed + 1;
        return Err(ApiError);
      }
      if !HasId(s.composes, id) {
        failed := failed + 1;
        return Err(ApiError);
      }
      if * {
        failed := failed + 1;
        return Ok(false);
      }
      var i := 0;
      while s.composes[i].id != id
        invariant 0 <= i < |s.composes| && forall j :: 0 <= j < i ==> s.composes[j].id != id
        invariant s == old(s)
        decreases |s.composes| - i
      {
        i := i + 1;
        assert exists c <- s.composes :: c.id == id;
      }
      var c := s.composes[i];
      assert c in old(s).composes;
      s := s.(deploys := s.deploys + [Deploy(id, c.file, c.env)]);
      if * {
        failed := failed + 1;
        return Err(ApiError);
      }
      deploysOk := deploysOk + 1;
      return Ok(true);
    }
  }

  lemma NewIdIsNew(cs: seq<Compose>)
    ensures !HasId(cs, NewId(ComposeIds(cs)))
  {
    forall c | c in cs ensures c.id != NewId(ComposeIds(cs)) {
      var i :| 0 <= i < |cs| && cs[i] == c;
      assert ComposeIds(cs)[i] == c.id;
      assert ComposeIds(cs)[i] in ComposeIds(cs);
    }
  }

  lemma SettersKeepIds(cs: seq<Compose>, id: string, v: string)
    requires HasId(cs, id)
    ensures HasId(SetFile(cs, id, v), id) && HasId(SetEnv(cs, id, v), id)
  {
    var i :| 0 <= i < |cs| && cs[i].id == id;
    assert SetFile(cs, id, v)[i].id == id && SetEnv(cs, id, v)[i].id == id;
    assert SetFile(cs, id, v)[i] in SetFile(cs, id, v) && SetEnv(cs, id, v)[i] in SetEnv(cs, id, v);
  }

  // ---- The checkpoint ----

  datatype Applied = Applied(
    formatVersion: int, fingerprint: string, steps: seq<string>,
    hashes: map<string, string>, contractVersion: int)

  class Checkpoint {
    var applied: Option<Applied>
    /** Writes that failed. */
    ghost var failed: nat

    constructor (applied: Option<Applied>)
      ensures this.applied == applied
    {
      this.applied, failed := applied, 0;
    }

    function Stored(key: string): Option<string>
      reads this
    {
      StoredIn(applied, key)
    }

    /** Only this service's hash changes; a write that fails may or may not have reached the disk. */
    method PersistHash(key: string, hash: string) returns (r: Result<string, Failure>)
      modifies this
      ensures applied == old(applied)
             || (old(applied).Some? && applied == Some(WithHash(old(applied).value, key, hash)))
      ensures r.Ok? ==>
               r.value == hash && old(applied).Some? && applied == Some(WithHash(old(applied).value, key, hash))
      ensures r.Err? ==> r.error == PersistFailed || r.error == NoCheckpoint
      ensures old(applied).None? <==> r == Err(NoCheckpoint)
      ensures failed == old(failed) + (if r == Err(PersistFailed) then 1 else 0)
    {
      if applied.None? { return Err(NoCheckpoint); }
      if * {
        failed := failed + 1;
        return Err(PersistFailed);
      }
      var a := applied.value;
      var hashes := a.hashes;
      hashes := hashes[key := hash];
      applied := Some(Applied(a.formatVersion, a.fingerprint, a.steps, hashes, a.contractVersion));
      if * {
        failed := failed + 1;
        return Err(PersistFailed);
      }
      return Ok(hash);
    }
  }

  function WithHash(a: Applied, key: string, hash: string): Applied { a.(hashes := a.hashes[key := hash]) }

  function StoredIn(applied: Option<Applied>, key: string): Option<string> {
    if applied.Some? && key in applied.value.hashes then Some(applied.value.hashes[key]) else None
  }

  // ---- What is live ----

  predicate DistinctIds(cs: seq<Compose>) {
    forall a, b :: 0 <= a < |cs| && 0 <= b < |cs| && cs[a].id == cs[b].id ==> a == b
  }

  function Payload(r: V.Rendered): string { RenderBlock(r.specs) }

  /** The compose holds the file and, when there is one, the env payload of the render. */
  predicate Carries(c: Compose, r: V.Rendered) {
    c.file == r.file && (Payload(r) == "" || c.env == Payload(r))
  }

  predicate Written(s: State, id: string, r: V.Rendered) {
    forall c <- s.composes :: c.id == id ==> Carries(c, r)
  }

  /** The compose carries the render, and a deploy of just that succeeded. */
  predicate Live(s: State, id: string, r: V.Rendered) {
    && HasId(s.composes, id) && Written(s, id, r)
    && forall c <- s.composes :: c.id == id ==> Deploy(id, c.file, c.env) in s.deploys
  }

  /** Same composes up to file and env. */
  predicate SameShape(a: seq<Compose>, b: seq<Compose>) {
    && |a| == |b|
    && forall i :: 0 <= i < |a| ==>
         a[i].id == b[i].id && a[i].environmentId == b[i].environmentId && a[i].name == b[i].name
  }

  /** What writing and deploying a render does, however far it gets: nothing moves or appears, and
      what was live stays live. */
  predicate Progress(s: State, s': State, id: string, r: V.Rendered) {
    && s'.projects == s.projects && SameShape(s.composes, s'.composes)
    && (Live(s, id, r) ==> Live(s', id, r))
  }

  lemma ProgressTrans(a: State, b: State, c: State, id: string, r: V.Rendered)
    requires Progress(a, b, id, r) && Progress(b, c, id, r)
    ensures Progress(a, c, id, r)
  {
    hide Live;
  }

  lemma FileProgress(s: State, id: string, r: V.Rendered)
    ensures Progress(s, s.(composes := SetFile(s.composes, id, r.file)), id, r)
    ensures EnvWritten(s, id, r) ==> Written(s.(composes := SetFile(s.composes, id, r.file)), id, r)
  {
    hide Payload;
    var s' := s.(composes := SetFile(s.composes, id, r.file));
    if Live(s, id, r) {
      forall i | 0 <= i < |s.composes| ensures s'.composes[i] == s.composes[i] {
        assert s.composes[i] in s.composes;
      }
      assert s' == s;
    }
  }

  predicate EnvWritten(s: State, id: string, r: V.Rendered) {
    Payload(r) == "" || forall c <- s.composes :: c.id == id ==> c.env == Payload(r)
  }

  lemma EnvProgress(s: State, id: string, r: V.Rendered)
    requires Payload(r) != ""
    ensures Progress(s, s.(composes := SetEnv(s.composes, id, Payload(r))), id, r)
    ensures EnvWritten(s.(composes := SetEnv(s.composes, id, Payload(r))), id, r)
  {
    hide Payload;
    var s' := s.(composes := SetEnv(s.composes, id, Payload(r)));
    if Live(s, id, r) {
      forall i | 0 <= i < |s.composes| ensures s'.composes[i] == s.composes[i] {
        assert s.composes[i] in s.composes;
      }
      assert s' == s;
    }
  }

  lemma DeployProgress(s: State, id: string, r: V.Rendered, c: Compose)
    requires c in s.composes && c.id == id && DistinctIds(s.composes)
    ensures var s' := s.(deploys := s.deploys + [Deploy(id, c.file, c.env)]);
            Progress(s, s', id, r) && (Written(s, id, r) ==> Live(s', id, r))
  {
    hide Payload;
    var s' := s.(deploys := s.deploys + [Deploy(id, c.file, c.env)]);
    forall d | d in s.composes && d.id == id ensures d == c {
    }
    assert Deploy(id, c.file, c.env) in s'.deploys;
  }

  /** The server once the env payload, if there is one, is written. */
  function EnvStage(s: State, id: string, r: V.Rendered): State {
    if Payload(r) == "" then s else s.(composes := SetEnv(s.composes, id, Payload(r)))
  }

  function FileStage(s: State, id: string, r: V.Rendered): State { s.(composes := SetFile(s.composes, id, r.file)) }

  /** Env first when there is one, then the file: no new file is ever seen without its env. */
  method ApplyRenderedToExisting(server: Server, id: string, r: V.Rendered) returns (res: Result<string, Failure>)
    modifies server`s, server`mutations, server`failed
    ensures server.failed == old(server.failed) + (if res == Err(ApiError) then 1 else 0)
    ensures Progress(old(server.s), server.s, id, r)
    ensures res.Ok? ==> res.value == id && HasId(server.s.composes, id) && Written(server.s, id, r)
    ensures res.Err? ==> res.error.ApiError? || res.error.InvalidCompose?
    ensures var s := old(server.s);
            && (server.s == s || server.s == EnvStage(s, id, r) || server.s == FileStage(EnvStage(s, id, r), id, r))
            && (res.Ok? ==> server.s == FileStage(EnvStage(s, id, r), id, r))
    ensures res.Err? && res.error.InvalidCompose? <==> !V.Accepted(r)
    ensures !V.Accepted(r) ==> server.s == old(server.s) && server.mutations == old(server.mutations)
  {
    hide Progress, Written, EnvWritten, SetFile, SetEnv;
    assert Progress(server.s, server.s, id, r) by { NoProgress(server.s, id, r); }
    var payload := V.BuildEnvPayload(r, None);
    if payload.Err? { return Err(InvalidCompose(payload.error)); }
    EmptyTextKeepsNothing(r.specs);
    if payload.value != "" {
      EnvProgress(server.s, id, r);
      var updated := server.UpdateEnv(id, payload.value);
      if updated.Err? { return Err(updated.error); }
    } else {
      assert EnvWritten(server.s, id, r) by { NoPayload(server.s, id, r); }
    }
    FileProgress(server.s, id, r);
    ProgressTrans(old(server.s), server.s, server.s.(composes := SetFile(server.s.composes, id, r.file)), id, r);
    res := server.UpdateFile(id, r.file);
  }

  lemma NoProgress(s: State, id: string, r: V.Rendered)
    ensures Progress(s, s, id, r)
  {}

  lemma NoPayload(s: State, id: string, r: V.Rendered)
    requires Payload(r) == ""
    ensures EnvWritten(s, id, r)
  {}

  /** A successful deploy of what the app holds. */
  ghost predicate Deployed(s: State, s': State, id: string) {
    exists c <- s.composes :: c.id == id && s' == s.(deploys := s.deploys + [Deploy(id, c.file, c.env)])
  }

  /** Where applying and deploying a render may be cut: a render that is not accepted changes nothing. */
  ghost predicate Stop(s: State, s': State, id: string, r: V.Rendered) {
    || s' == s
    || (V.Accepted(r)
        && (s' == EnvStage(s, id, r) || s' == FileStage(EnvStage(s, id, r), id, r)
            || Deployed(FileStage(EnvStage(s, id, r), id, r), s', id)))
  }

  /** Apply, then deploy; a deploy that does not report success is an error. */
  method ApplyAndDeploy(server: Server, id: string, r: V.Rendered) returns (res: Result<string, Failure>)
    requires DistinctIds(server.s.composes)
    modifies server`s, server`mutations, server`deploysOk, server`failed
    ensures server.failed
            == old(server.failed) + (if res == Err(ApiError) || res == Err(DeployRejected) then 1 else 0)
    ensures res.Err? && res.error.InvalidCompose? <==> !V.Accepted(r)
    ensures Progress(old(server.s), server.s, id, r)
    ensures res.Ok? ==> res.value == id && Live(server.s, id, r)
    ensures res.Err? ==> res.error.ApiError? || res.error.InvalidCompose? || res.error.DeployRejected?
    ensures server.deploysOk == old(server.deploysOk) + (if res.Ok? then 1 else 0)
    ensures Stop(old(server.s), server.s, id, r)
  {
    hide Progress, Written, Live, EnvStage, FileStage;
    res := ApplyRenderedToExisting(server, id, r);
    if res.Err? { return; }
    ghost var before := server.s;
    SameShapeDistinct(old(server.s), before, id, r);
    forall c | c in before.composes && c.id == id
      ensures Progress(old(server.s), before.(deploys := before.deploys + [Deploy(id, c.file, c.env)]), id, r)
      ensures Live(before.(deploys := before.deploys + [Deploy(id, c.file, c.env)]), id, r)
    {
      DeployProgress(before, id, r, c);
      ProgressTrans(old(server.s), before, before.(deploys := before.deploys + [Deploy(id, c.file, c.env)]), id, r);
    }
    var deployed := server.DeployCompose(res.value);
    if deployed.Err? { return Err(deployed.error); }
    if !deployed.value { return Err(DeployRejected); }
  }

  lemma SameShapeDistinct(s: State, s': State, id: string, r: V.Rendered)
    requires Progress(s, s', id, r) && DistinctIds(s.composes)
    ensures DistinctIds(s'.composes)
  {
    hide Live;
  }

  // ---- The no-op guard ----

  /** A stored hash of the render means the render is live. */
  predicate Honest(s: State, applied: Option<Applied>, key: string, hash: string, id: string, r: V.Rendered) {
    StoredIn(applied, key) == Some(hash) ==> Live(s, id, r)
  }

  /** Two checkpoints that differ at most in one service's hash. */
  predicate SameBut(a: Option<Applied>, b: Option<Applied>, key: string) {
    a == b
    || (a.Some? && b.Some? && b.value == a.value.(hashes := b.value.hashes)
        && b.value.hashes - {key} == a.value.hashes - {key})
  }

  datatype Status = AlreadyPresent | AppliedNow

  datatype ApplyResult = ApplyResult(locator: Locator, status: Status)

  /** Skips exactly when the stored hash is the render's and verification passes, and then touches
      nothing; otherwise writes, deploys and stores the hash last. Wherever it stops, a stored hash of
      the render still means that the render is live. */
  method ApplyNoopGuard(server: Server, checkpoint: Checkpoint, key: string, hash: string, r: V.Rendered,
                        locator: Locator, verified: bool) returns (res: Result<ApplyResult, Failure>)
    requires DistinctIds(server.s.composes)
    requires Honest(server.s, checkpoint.applied, key, hash, locator.composeId, r)
    modifies server`s, server`mutations, server`deploysOk, server`failed, checkpoint
    ensures server.failed
            == old(server.failed) + (if res == Err(ApiError) || res == Err(DeployRejected) then 1 else 0)
    ensures checkpoint.failed == old(checkpoint.failed) + (if res == Err(PersistFailed) then 1 else 0)
    ensures res.Err? && res.error.InvalidCompose? <==>
              !V.Accepted(r) && !(old(checkpoint.Stored(key)) == Some(hash) && verified)
    ensures Progress(old(server.s), server.s, locator.composeId, r)
    ensures Honest(server.s, checkpoint.applied, key, hash, locator.composeId, r)
    ensures SameBut(old(checkpoint.applied), checkpoint.applied, key)
    ensures Stop(old(server.s), server.s, locator.composeId, r)
    ensures checkpoint.applied == old(checkpoint.applied) || checkpoint.Stored(key) == Some(hash)
    ensures res == Ok(ApplyResult(locator, AlreadyPresent)) <==> old(checkpoint.Stored(key)) == Some(hash) && verified
    ensures old(checkpoint.Stored(key)) == Some(hash) && verified ==>
              server.s == old(server.s) && server.mutations == old(server.mutations)
              && checkpoint.applied == old(checkpoint.applied)
    ensures old(checkpoint.applied).Some? ==> res != Err(NoCheckpoint)
    ensures res.Err? ==> !res.error.UnknownName? && !res.error.InputsChanged?
    ensures res.Ok? ==>
              && res.value.locator == locator && Live(server.s, locator.composeId, r)
              && checkpoint.Stored(key) == Some(hash)
              && server.deploysOk == old(server.deploysOk) + (if res.value.status == AppliedNow then 1 else 0)
    ensures res.Err? && res.error != PersistFailed && old(checkpoint.applied).Some? ==>
              server.deploysOk == old(server.deploysOk)
    ensures res == Err(PersistFailed) ==> server.deploysOk == old(server.deploysOk) + 1
    ensures old(server.deploysOk) <= server.deploysOk <= old(server.deploysOk) + 1
  {
    hide Progress, Live;
    assert Stop(server.s, server.s, locator.composeId, r);
    hide Stop;
    assert Progress(server.s, server.s, locator.composeId, r) by { NoProgress(server.s, locator.composeId, r); }
    var stored := checkpoint.Stored(key);
    if stored == Some(hash) && verified {
      return Ok(ApplyResult(locator, AlreadyPresent));
    }
    var applied := ApplyAndDeploy(server, locator.composeId, r);
    assert Live(old(server.s), locator.composeId, r) ==> Live(server.s, locator.composeId, r) by {
      ProgressKeepsLive(old(server.s), server.s, locator.composeId, r);
    }
    if applied.Err? { return Err(applied.error); }
    var persisted := checkpoint.PersistHash(key, hash);
    if persisted.Err? { return Err(persisted.error); }
    return Ok(ApplyResult(locator.(composeId := applied.value), AppliedNow));
  }

  lemma ProgressKeepsLive(s: State, s': State, id: string, r: V.Rendered)
    requires Progress(s, s', id, r)
    ensures Live(s, id, r) ==> Live(s', id, r)
  {}

  // ---- A run for another render ----

  /** The env the app holds once the payload of `q`, if there is one, is written. */
  function EnvAfter(c: Compose, q: V.Rendered): string { if Payload(q) == "" then c.env else Payload(q) }

  /** The payload of `q` is no other than what `r` asks for, if both ask. */
  predicate EnvAgrees(q: V.Rendered, r: V.Rendered) {
    Payload(q) == "" || Payload(r) == "" || Payload(q) == Payload(r)
  }

  /** Writing `q` over the app `c` leaves a live `r` live: same file, an env `r` allows, and one that was
      deployed with that file before. */
  predicate Harmless(s: State, c: Compose, q: V.Rendered, r: V.Rendered) {
    q.file == r.file && EnvAgrees(q, r) && Deploy(c.id, r.file, EnvAfter(c, q)) in s.deploys
  }

  /** The one app of an id, on a server that differs at most in what that app holds. */
  predicate Holds(s: State, id: string, file: string, env: string) {
    HasId(s.composes, id) && forall d <- s.composes :: d.id == id ==> d.file == file && d.env == env
  }

  lemma HeldLives(s: State, id: string, file: string, env: string, r: V.Rendered)
    requires Holds(s, id, file, env)
    ensures Live(s, id, r) <==>
            file == r.file && (Payload(r) == "" || env == Payload(r)) && Deploy(id, file, env) in s.deploys
  {
    hide Payload;
    var i :| 0 <= i < |s.composes| && s.composes[i].id == id;
    assert s.composes[i] in s.composes;
  }

  lemma StagesHold(s: State, c: Compose, q: V.Rendered)
    requires DistinctIds(s.composes) && c in s.composes
    ensures Holds(s, c.id, c.file, c.env)
    ensures Holds(EnvStage(s, c.id, q), c.id, c.file, EnvAfter(c, q))
    ensures Holds(FileStage(EnvStage(s, c.id, q), c.id, q), c.id, q.file, EnvAfter(c, q))
  {
    hide Payload;
    var i :| 0 <= i < |s.composes| && s.composes[i] == c;
    var e := EnvStage(s, c.id, q);
    var f := FileStage(e, c.id, q);
    assert e.composes[i].id == c.id && e.composes[i] in e.composes;
    assert f.composes[i].id == c.id && f.composes[i] in f.composes;
    assert forall j :: 0 <= j < |s.composes| && s.composes[j].id == c.id ==> j == i;
  }

  /** Where a run for another render leaves the first one live, stage by stage. */
  lemma OtherRenderEndsLiveness(s: State, c: Compose, r: V.Rendered, q: V.Rendered)
    requires DistinctIds(s.composes) && c in s.composes && Live(s, c.id, r)
    ensures Live(EnvStage(s, c.id, q), c.id, r) <==>
            EnvAgrees(q, r) && Deploy(c.id, r.file, EnvAfter(c, q)) in s.deploys
    ensures Live(FileStage(EnvStage(s, c.id, q), c.id, q), c.id, r) <==> Harmless(s, c, q, r)
    ensures forall s' :: Deployed(FileStage(EnvStage(s, c.id, q), c.id, q), s', c.id) ==>
              (Live(s', c.id, r) <==> q.file == r.file && EnvAgrees(q, r))
  {
    var e := EnvStage(s, c.id, q);
    var f := FileStage(e, c.id, q);
    StagesHold(s, c, q);
    HeldLives(s, c.id, c.file, c.env, r);
    HeldLives(e, c.id, c.file, EnvAfter(c, q), r);
    HeldLives(f, c.id, q.file, EnvAfter(c, q), r);
    assert e.deploys == s.deploys && f.deploys == s.deploys;
    hide Payload, Live, EnvStage, FileStage;
    forall s' | Deployed(f, s', c.id) ensures Live(s', c.id, r) <==> q.file == r.file && EnvAgrees(q, r) {
      DeployedHolds(f, s', c.id, q.file, EnvAfter(c, q));
      HeldLives(s', c.id, q.file, EnvAfter(c, q), r);
    }
  }

  lemma DeployedHolds(s: State, s': State, id: string, file: string, env: string)
    requires Holds(s, id, file, env) && Deployed(s, s', id)
    ensures Holds(s', id, file, env) && Deploy(id, file, env) in s'.deploys
  {
    var c :| c in s.composes && c.id == id && s' == s.(deploys := s.deploys + [Deploy(id, c.file, c.env)]);
    assert Deploy(id, c.file, c.env) in s'.deploys;
  }

  /** The render has to stay the same: a stored hash of `r` survives a run for `q`, cut anywhere before
      that run stores its own, exactly when it is not stored, `q` is refused, or `q` is harmless. */
  lemma OtherRenderHonestExactly(s: State, c: Compose, r: V.Rendered, q: V.Rendered, applied: Option<Applied>,
                                 key: string, hash: string)
    requires DistinctIds(s.composes) && c in s.composes && Honest(s, applied, key, hash, c.id, r)
    ensures (forall s' :: Stop(s, s', c.id, q) ==> Honest(s', applied, key, hash, c.id, r))
            <==> StoredIn(applied, key) != Some(hash) || !V.Accepted(q) || Harmless(s, c, q, r)
  {
    hide Live, Payload, Deployed, Harmless, EnvStage, FileStage, V.Accepted;
    if StoredIn(applied, key) == Some(hash) {
      OtherRenderEndsLiveness(s, c, r, q);
      HarmlessMeans(s, c, q, r);
      if V.Accepted(q) { assert Stop(s, FileStage(EnvStage(s, c.id, q), c.id, q), c.id, q); }
    }
  }

  lemma HarmlessMeans(s: State, c: Compose, q: V.Rendered, r: V.Rendered)
    ensures Harmless(s, c, q, r) <==>
            q.file == r.file && EnvAgrees(q, r) && Deploy(c.id, r.file, EnvAfter(c, q)) in s.deploys
  {}

  /** So it is for the guard run with `q`: what its contract says of where it may leave server and
      checkpoint keeps a harmless run honest towards `r`, also after its own hash is stored. */
  lemma GuardStaysHonest(s: State, s': State, c: Compose, r: V.Rendered, q: V.Rendered, applied: Option<Applied>,
                         applied': Option<Applied>, key: string, hash: string, other: string)
    requires DistinctIds(s.composes) && c in s.composes && Honest(s, applied, key, hash, c.id, r)
    requires Stop(s, s', c.id, q) && (applied' == applied || StoredIn(applied', key) == Some(other)) && other != hash
    requires StoredIn(applied, key) != Some(hash) || !V.Accepted(q) || Harmless(s, c, q, r)
    ensures Honest(s', applied', key, hash, c.id, r)
  {
    hide Live, Stop, Harmless, V.Accepted;
    OtherRenderHonestExactly(s, c, r, q, applied, key, hash);
  }

  /** A guard run for `q` beside a render `r` applied earlier under another hash: wherever it stops, both
      hashes mean what they say, provided that `r` is not the one stored, or `q` is refused or harmless. */
  method ApplyNoopGuardBeside(server: Server, checkpoint: Checkpoint, key: string, hash: string, q: V.Rendered,
                              locator: Locator, verified: bool, ghost c: Compose, ghost r: V.Rendered,
                              ghost earlier: string) returns (res: Result<ApplyResult, Failure>)
    requires DistinctIds(server.s.composes) && c in server.s.composes && c.id == locator.composeId
    requires Honest(server.s, checkpoint.applied, key, hash, c.id, q)
    requires Honest(server.s, checkpoint.applied, key, earlier, c.id, r) && earlier != hash
    requires checkpoint.Stored(key) != Some(earlier) || !V.Accepted(q) || Harmless(server.s, c, q, r)
    modifies server`s, server`mutations, server`deploysOk, server`failed, checkpoint
    ensures res.Ok? || server.failed + checkpoint.failed > old(server.failed + checkpoint.failed)
            || !V.Accepted(q) || old(checkpoint.applied).None?
    ensures Honest(server.s, checkpoint.applied, key, hash, c.id, q)
    ensures Honest(server.s, checkpoint.applied, key, earlier, c.id, r)
    ensures res.Ok? ==> Live(server.s, c.id, q) && checkpoint.Stored(key) == Some(hash)
    ensures !V.Accepted(q) ==> server.s == old(server.s)
  {
    hide Live, Harmless, Stop, Honest, V.Accepted;
    ghost var s, applied := server.s, checkpoint.applied;
    res := ApplyNoopGuard(server, checkpoint, key, hash, q, locator, verified);
    GuardStaysHonest(s, server.s, c, r, q, applied, checkpoint.applied, key, earlier, hash);
    RefusedChangesNothing(s, server.s, c.id, q);
  }

  lemma RefusedChangesNothing(s: State, s': State, id: string, q: V.Rendered)
    requires Stop(s, s', id, q)
    ensures !V.Accepted(q) ==> s' == s
  {}
}
