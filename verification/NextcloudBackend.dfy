/** The Nextcloud compose backend (`DokployNextcloudBackend` in `dokploy/nextcloud.py`): a cached
    locator and a "created in process" flag over a server that outlives the process. */
module NextcloudBackend {
  import opened Text
  import opened ComposeApply
  import V = ComposeValidation

  // ---- Names and resource ids ----

  datatype Kind = Nextcloud | OnlyOffice

  datatype Role = Service | Volume

  function KindName(k: Kind): string { match k case Nextcloud => "nextcloud" case OnlyOffice => "onlyoffice" }

  function RoleSuffix(r: Role): string { match r case Service => "-service" case Volume => "-volume" }

  function ResourceName(stack: string, k: Kind, r: Role): string {
    stack + "-" + KindName(k) + match r case Service => "" case Volume => "-data"
  }

  function KindFromName(stack: string, name: string, r: Role): Option<Kind> {
    if name == ResourceName(stack, Nextcloud, r) then Some(Nextcloud)
    else if name == ResourceName(stack, OnlyOffice, r) then Some(OnlyOffice)
    else None
  }

  /** The four names of a stack, and nothing else, tell what is asked for. */
  lemma KindFromNameExactly(stack: string, name: string)
    ensures KindFromName(stack, name, Service) == Some(Nextcloud) <==> name == stack + "-nextcloud"
    ensures KindFromName(stack, name, Service) == Some(OnlyOffice) <==> name == stack + "-onlyoffice"
    ensures KindFromName(stack, name, Volume) == Some(Nextcloud) <==> name == stack + "-nextcloud-data"
    ensures KindFromName(stack, name, Volume) == Some(OnlyOffice) <==> name == stack + "-onlyoffice-data"
  {
    NamesOf(stack);
    var n := |stack| + 1;
    assert (stack + "-nextcloud")[n] == 'n' && (stack + "-onlyoffice")[n] == 'o';
    assert (stack + "-nextcloud-data")[n] == 'n' && (stack + "-onlyoffice-data")[n] == 'o';
    hide ResourceName;
  }

  lemma NamesOf(stack: string)
    ensures ResourceName(stack, Nextcloud, Service) == stack + "-nextcloud"
    ensures ResourceName(stack, OnlyOffice, Service) == stack + "-onlyoffice"
    ensures ResourceName(stack, Nextcloud, Volume) == stack + "-nextcloud-data"
    ensures ResourceName(stack, OnlyOffice, Volume) == stack + "-onlyoffice-data"
  {
    Joined(stack, "-", "nextcloud", "-nextcloud");
    Joined(stack, "-", "onlyoffice", "-onlyoffice");
    Joined(stack, "-nextcloud", "-data", "-nextcloud-data");
    Joined(stack, "-onlyoffice", "-data", "-onlyoffice-data");
    assert stack + "-nextcloud" + "" == stack + "-nextcloud" && stack + "-onlyoffice" + "" == stack + "-onlyoffice";
  }

  lemma Joined(a: string, b: string, c: string, bc: string)
    requires |bc| == |b| + |c| && bc[..|b|] == b && bc[|b|..] == c
    ensures a + b + c == a + bc
  {
    assert bc == b + c;
  }

  const ID_PREFIX := "dokploy-compose:"

  function Tail(k: Kind, r: Role): string { KindName(k) + RoleSuffix(r) }

  function ResourceId(composeId: string, k: Kind, r: Role): string { ID_PREFIX + (composeId + ":" + Tail(k, r)) }

  /** An id spells out the app, the kind and the role. */
  lemma ResourceIdIs(id: string)
    ensures ResourceId(id, Nextcloud, Service) == "dokploy-compose:" + id + ":nextcloud-service"
    ensures ResourceId(id, OnlyOffice, Service) == "dokploy-compose:" + id + ":onlyoffice-service"
    ensures ResourceId(id, Nextcloud, Volume) == "dokploy-compose:" + id + ":nextcloud-volume"
    ensures ResourceId(id, OnlyOffice, Volume) == "dokploy-compose:" + id + ":onlyoffice-volume"
  {
    Spelled(id, "nextcloud", "-service", ":nextcloud-service");
    Spelled(id, "onlyoffice", "-service", ":onlyoffice-service");
    Spelled(id, "nextcloud", "-volume", ":nextcloud-volume");
    Spelled(id, "onlyoffice", "-volume", ":onlyoffice-volume");
  }

  lemma Spelled(id: string, kind: string, role: string, tail: string)
    requires |tail| == 1 + |kind| + |role| && tail[0] == ':'
    requires tail[1..1 + |kind|] == kind && tail[1 + |kind|..] == role
    ensures ID_PREFIX + (id + ":" + (kind + role)) == ID_PREFIX + id + tail
  {
    assert tail == ":" + (kind + role);
  }

  function ParseResourceId(id: string, r: Role): Option<(string, Kind)> {
    if ID_PREFIX <= id then ParseRest(id[|ID_PREFIX|..], r) else None
  }

  function ParseRest(rest: string, r: Role): Option<(string, Kind)> {
    var i := IndexOf(rest, ':');
    if i == |rest| then None
    else if rest[i + 1..] == Tail(Nextcloud, r) then Some((rest[..i], Nextcloud))
    else if rest[i + 1..] == Tail(OnlyOffice, r) then Some((rest[..i], OnlyOffice))
    else None
  }

  lemma TailsAreDistinct(k: Kind, r: Role, k': Kind, r': Role)
    ensures Tail(k, r) == Tail(k', r') <==> k == k' && r == r'
    ensures !Contains(Tail(k, r), ':')
  {
    assert Tail(k, r)[0] == (if k == Nextcloud then 'n' else 'o');
    assert Tail(k', r')[0] == (if k' == Nextcloud then 'n' else 'o');
    assert |Tail(k, r)| == |KindName(k)| + |RoleSuffix(r)|;
  }

  lemma SplitAtColon(c: string, t: string)
    requires !Contains(t, ':')
    ensures var rest := c + ":" + t;
            var i := IndexOf(rest, ':');
            && i < |rest|
            && (if Contains(c, ':') then Contains(rest[i + 1..], ':') else rest[..i] == c && rest[i + 1..] == t)
  {
    var rest, n := c + ":" + t, |c|;
    var i := IndexOf(rest, ':');
    assert rest[n] == ':' && i <= n && forall j :: 0 <= j < n ==> rest[j] == c[j];
    if i < n {
      assert rest[i + 1..][n - i - 1] == rest[n];
    } else {
      assert rest[..n] == c && rest[n + 1..] == t;
    }
  }

  lemma ParseRestOf(composeId: string, k: Kind, r: Role, asked: Role)
    ensures ParseRest(composeId + ":" + Tail(k, r), asked)
            == if Contains(composeId, ':') || asked != r then None else Some((composeId, k))
  {
    TailsAreDistinct(k, r, Nextcloud, asked);
    TailsAreDistinct(k, r, OnlyOffice, asked);
    TailsAreDistinct(Nextcloud, asked, OnlyOffice, asked);
    TailsAreDistinct(OnlyOffice, asked, Nextcloud, asked);
    SplitAtColon(composeId, Tail(k, r));
    hide Tail, Contains, IndexOf;
  }

  /** An id reads back as what it was made of exactly when the compose id holds no colon, and never as
      a resource of the other role. */
  lemma ResourceIdRoundTrip(composeId: string, k: Kind, r: Role, asked: Role)
    ensures ParseResourceId(ResourceId(composeId, k, r), asked)
            == if Contains(composeId, ':') || asked != r then None else Some((composeId, k))
  {
    hide Tail, Contains, ParseRest;
    ParseRestOf(composeId, k, r, asked);
    AfterPrefix(composeId + ":" + Tail(k, r));
  }

  lemma AfterPrefix(x: string)
    ensures ID_PREFIX <= ID_PREFIX + x && (ID_PREFIX + x)[|ID_PREFIX|..] == x
  {}

  // ---- The compose app of a stack ----

  function EnvironmentOf(p: Project): Option<Environment> { PickEnvironment(p.environments) }

  /** The compose found first for a project's picked environment. */
  function FirstCompose(cs: seq<Compose>, environmentId: string, name: string): Option<Compose> {
    if cs == [] then None
    else if cs[0].environmentId == environmentId && cs[0].name == name then Some(cs[0])
    else FirstCompose(cs[1..], environmentId, name)
  }

  /** A fresh lookup: the first project of the stack's name whose picked environment has the app. */
  function LookupIn(ps: seq<Project>, cs: seq<Compose>, stack: string, name: string): Option<Locator> {
    if ps == [] then None
    else if ps[0].name == stack && EnvironmentOf(ps[0]).Some?
            && FirstCompose(cs, EnvironmentOf(ps[0]).value.id, name).Some? then
      var e := EnvironmentOf(ps[0]).value;
      Some(Locator(ps[0].id, e.id, FirstCompose(cs, e.id, name).value.id))
    else LookupIn(ps[1..], cs, stack, name)
  }

  function Lookup(s: State, stack: string, name: string): Option<Locator> {
    LookupIn(s.projects, s.composes, stack, name)
  }

  /** At most one project of the stack's name, which has an environment, and in the one picked at most
      one compose app of the service's name; compose ids are distinct. */
  ghost predicate AtMostOne(s: State, stack: string, name: string) {
    && DistinctIds(s.composes)
    && (forall i, j | 0 <= i < |s.projects| && 0 <= j < |s.projects| ::
         s.projects[i].name == s.projects[j].name == stack ==> i == j)
    && (forall p <- s.projects :: p.name == stack ==> p.environments != [])
    && (forall p <- s.projects | p.name == stack :: Unique(s.composes, p, name))
  }

  /** At most one compose of that name in the project's picked environment. */
  predicate Unique(cs: seq<Compose>, p: Project, name: string) {
    forall a, b | 0 <= a < |cs| && 0 <= b < |cs| :: Is(cs[a], p, name) && Is(cs[b], p, name) ==> a == b
  }

  predicate Is(c: Compose, p: Project, name: string) {
    EnvironmentOf(p).Some? && c.environmentId == EnvironmentOf(p).value.id && c.name == name
  }

  lemma {:induction false} FirstComposeIs(cs: seq<Compose>, p: Project, name: string)
    requires EnvironmentOf(p).Some?
    ensures var f := FirstCompose(cs, EnvironmentOf(p).value.id, name);
            match f
            case Some(c) => c in cs && Is(c, p, name)
            case None => forall c <- cs :: !Is(c, p, name)
  {
    hide EnvironmentOf;
    if cs != [] {
      FirstComposeIs(cs[1..], p, name);
      assert cs == [cs[0]] + cs[1..];
    }
  }

  /** With at most one project of that name, the lookup is about that project. */
  lemma {:induction false} LookupAt(ps: seq<Project>, cs: seq<Compose>, stack: string, name: string, i: nat)
    requires i < |ps| && ps[i].name == stack && EnvironmentOf(ps[i]).Some?
    requires forall j :: 0 <= j < |ps| && ps[j].name == stack ==> j == i
    ensures var e := EnvironmentOf(ps[i]).value;
            LookupIn(ps, cs, stack, name) ==
            match FirstCompose(cs, e.id, name)
            case Some(c) => Some(Locator(ps[i].id, e.id, c.id))
            case None => None
  {
    hide EnvironmentOf, FirstCompose;
    if i > 0 {
      assert ps[0].name != stack;
      LookupAt(ps[1..], cs, stack, name, i - 1);
    } else {
      NoProjectNoLookup(ps[1..], cs, stack, name);
    }
  }

  lemma {:induction false} NoProjectNoLookup(ps: seq<Project>, cs: seq<Compose>, stack: string, name: string)
    requires forall p <- ps :: p.name != stack
    ensures LookupIn(ps, cs, stack, name) == None
  {
    if ps != [] {
      assert ps[0] in ps;
      NoProjectNoLookup(ps[1..], cs, stack, name);
    }
  }

  lemma {:induction false} SameShapeFirst(a: seq<Compose>, b: seq<Compose>, environmentId: string, name: string)
    requires SameShape(a, b)
    ensures match FirstCompose(a, environmentId, name)
            case Some(c) =>
              var again := FirstCompose(b, environmentId, name);
              again.Some? && again.value.id == c.id
            case None => FirstCompose(b, environmentId, name) == None
  {
    if a != [] {
      SameShapeFirst(a[1..], b[1..], environmentId, name);
    }
  }

  lemma {:induction false} SameShapeLookup(ps: seq<Project>, a: seq<Compose>, b: seq<Compose>, stack: string,
                                           name: string)
    requires SameShape(a, b)
    ensures LookupIn(ps, a, stack, name) == LookupIn(ps, b, stack, name)
  {
    hide EnvironmentOf, SameShape, FirstCompose;
    if ps != [] {
      SameShapeLookup(ps[1..], a, b, stack, name);
      if EnvironmentOf(ps[0]).Some? { SameShapeFirst(a, b, EnvironmentOf(ps[0]).value.id, name); }
    }
  }

  /** Writing and deploying moves nothing. */
  lemma ProgressKeepsPlace(s: State, s': State, id: string, r: V.Rendered, stack: string, name: string)
    requires Progress(s, s', id, r)
    ensures AtMostOne(s, stack, name) ==> AtMostOne(s', stack, name)
    ensures Lookup(s, stack, name) == Lookup(s', stack, name)
  {
    SameShapeLookup(s.projects, s.composes, s'.composes, stack, name);
    forall p: Project ensures Unique(s.composes, p, name) ==> Unique(s'.composes, p, name) {
      UniqueKept(s.composes, s'.composes, p, name);
    }
    hide Live, EnvironmentOf, LookupIn, Unique;
  }

  lemma UniqueKept(a: seq<Compose>, b: seq<Compose>, p: Project, name: string)
    requires SameShape(a, b)
    ensures Unique(a, p, name) ==> Unique(b, p, name)
  {
    hide EnvironmentOf;
  }

  // ---- Growing the server ----

  lemma NewProjectKeeps(s: State, p: Project, stack: string, name: string)
    requires AtMostOne(s, stack, name) && IsNew(s, p, stack) && forall q <- s.projects :: q.name != stack
    ensures AtMostOne(WithProject(s, p), stack, name) && Lookup(WithProject(s, p), stack, name) == None
  {
    var s' := WithProject(s, p);
    assert EnvironmentOf(p) == Some(p.environments[0]);
    assert forall c <- s.composes :: !Is(c, p, name);
    FirstComposeIs(s.composes, p, name);
    LookupAt(s'.projects, s.composes, stack, name, |s.projects|);
    hide LookupIn, EnvironmentOf, FirstCompose;
  }

  lemma {:induction false} FirstOfAppended(cs: seq<Compose>, c: Compose, environmentId: string, name: string)
    requires FirstCompose(cs, environmentId, name) == None && c.environmentId == environmentId && c.name == name
    ensures FirstCompose(cs + [c], environmentId, name) == Some(c)
  {
    if cs == [] {
      assert cs + [c] == [c];
    } else {
      FirstOfAppended(cs[1..], c, environmentId, name);
      assert (cs + [c])[1..] == cs[1..] + [c];
    }
  }

  lemma NewComposeKeeps(s: State, i: nat, c: Compose, stack: string, name: string)
    requires AtMostOne(s, stack, name) && Lookup(s, stack, name) == None && !HasId(s.composes, c.id)
    requires i < |s.projects| && s.projects[i].name == stack && Is(c, s.projects[i], name)
    ensures AtMostOne(WithCompose(s, c), stack, name)
    ensures Lookup(WithCompose(s, c), stack, name)
            == Some(Locator(s.projects[i].id, EnvironmentOf(s.projects[i]).value.id, c.id))
  {
    var p := s.projects[i];
    var e := EnvironmentOf(p).value;
    LookupAt(s.projects, s.composes, stack, name, i);
    FirstComposeIs(s.composes, p, name);
    FirstOfAppended(s.composes, c, e.id, name);
    LookupAt(s.projects, s.composes + [c], stack, name, i);
    assert Unique(s.composes + [c], p, name);
    hide LookupIn, EnvironmentOf, FirstCompose, Unique;
    assert forall q <- s.projects :: q.name == stack ==> q == p;
  }

  // ---- The backend ----

  /** The stack's compose app exists and holds the render live. */
  predicate Settled(s: State, stack: string, name: string, r: V.Rendered) {
    Lookup(s, stack, name).Some? && Live(s, Lookup(s, stack, name).value.composeId, r)
  }

  /** A stored hash of the render means that the stack's compose app holds it live. */
  predicate HonestHere(s: State, applied: Option<Applied>, stack: string, name: string, hash: string, r: V.Rendered) {
    StoredIn(applied, name) == Some(hash) ==> Settled(s, stack, name, r)
  }

  /** Writing and deploying to the stack's app keeps it found and, once live, live. */
  lemma ProgressKeepsSettled(s: State, s': State, at: Locator, r: V.Rendered, stack: string, name: string)
    requires Progress(s, s', at.composeId, r) && Lookup(s, stack, name) == Some(at)
    ensures Lookup(s', stack, name) == Some(at)
    ensures AtMostOne(s, stack, name) ==> AtMostOne(s', stack, name)
    ensures Settled(s, stack, name, r) ==> Settled(s', stack, name, r)
    ensures Settled(s', stack, name, r) <==> Live(s', at.composeId, r)
  {
    ProgressKeepsPlace(s, s', at.composeId, r, stack, name);
    ProgressKeepsLive(s, s', at.composeId, r);
    hide Live, Lookup, AtMostOne;
  }

  datatype Record = Record(id: string, name: string)

  method FindInEnvironment(cs: seq<Compose>, environmentId: string, name: string) returns (c: Option<Compose>)
    ensures c == FirstCompose(cs, environmentId, name)
  {
    for i := 0 to |cs|
      invariant FirstCompose(cs, environmentId, name) == FirstCompose(cs[i..], environmentId, name)
    {
      if cs[i].environmentId == environmentId && cs[i].name == name { return Some(cs[i]); }
    }
    return None;
  }

  /** What a listing without a cached app leads to. */
  datatype Branch = Update(at: Locator) | NewApp(projectId: string, environmentId: string) | NewProject

  /** The first project of the stack's name decides; one without an environment ends the search. */
  function BranchIn(ps: seq<Project>, cs: seq<Compose>, stack: string, name: string): Branch {
    if ps == [] then NewProject
    else if ps[0].name != stack then BranchIn(ps[1..], cs, stack, name)
    else
      match EnvironmentOf(ps[0])
      case None => NewProject
      case Some(e) =>
        match FirstCompose(cs, e.id, name)
        case Some(c) => Update(Locator(ps[0].id, e.id, c.id))
        case None => NewApp(ps[0].id, e.id)
  }

  function BranchOf(s: State, stack: string, name: string): Branch { BranchIn(s.projects, s.composes, stack, name) }

  method Choose(listed: State, stack: string, name: string) returns (b: Branch)
    ensures b == BranchOf(listed, stack, name)
  {
    hide EnvironmentOf, FirstCompose;
    var ps, cs := listed.projects, listed.composes;
    for i := 0 to |ps|
      invariant BranchOf(listed, stack, name) == BranchIn(ps[i..], cs, stack, name)
    {
      if ps[i].name != stack { continue; }
      var environment := EnvironmentOf(ps[i]);
      if environment.None? { return NewProject; }
      var compose := FindInEnvironment(cs, environment.value.id, name);
      if compose.Some? { return Update(Locator(ps[i].id, environment.value.id, compose.value.id)); }
      return NewApp(ps[i].id, environment.value.id);
    }
    return NewProject;
  }

  lemma {:induction false} BranchAt(ps: seq<Project>, cs: seq<Compose>, stack: string, name: string, i: nat)
    requires i < |ps| && ps[i].name == stack && forall j :: 0 <= j < i ==> ps[j].name != stack
    ensures BranchIn(ps, cs, stack, name) ==
            match EnvironmentOf(ps[i])
            case None => NewProject
            case Some(e) =>
              match FirstCompose(cs, e.id, name)
              case Some(c) => Update(Locator(ps[i].id, e.id, c.id))
              case None => NewApp(ps[i].id, e.id)
  {
    hide EnvironmentOf, FirstCompose;
    if i > 0 { BranchAt(ps[1..], cs, stack, name, i - 1); }
  }

  lemma {:induction false} BranchWithoutProject(ps: seq<Project>, cs: seq<Compose>, stack: string, name: string)
    requires forall p <- ps :: p.name != stack
    ensures BranchIn(ps, cs, stack, name) == NewProject
  {
    if ps != [] {
      assert ps[0] in ps;
      BranchWithoutProject(ps[1..], cs, stack, name);
    }
  }

  lemma {:induction false} FirstNamed(ps: seq<Project>, stack: string) returns (i: nat)
    requires exists p <- ps :: p.name == stack
    ensures i < |ps| && ps[i].name == stack && forall j :: 0 <= j < i ==> ps[j].name != stack
  {
    if ps[0].name == stack {
      i := 0;
    } else {
      assert ps == [ps[0]] + ps[1..];
      var k := FirstNamed(ps[1..], stack);
      i := k + 1;
    }
  }

  /** A new project is asked for although the stack has one exactly when the first one of its name has no
      environment. */
  lemma AsksAlthoughThere(s: State, stack: string, name: string, i: nat)
    requires i < |s.projects| && s.projects[i].name == stack && forall j :: 0 <= j < i ==> s.projects[j].name != stack
    ensures BranchOf(s, stack, name) == NewProject <==> s.projects[i].environments == []
    ensures CountNamed(s.projects, stack) >= 1
  {
    BranchAt(s.projects, s.composes, stack, name, i);
    CountIsPositive(s.projects, stack, i);
  }

  /** The projects of the stack's name. */
  function CountNamed(ps: seq<Project>, stack: string): nat {
    if ps == [] then 0 else CountNamed(ps[..|ps| - 1], stack) + if ps[|ps| - 1].name == stack then 1 else 0
  }

  lemma OneMoreNamed(s: State, p: Project, stack: string)
    requires p.name == stack
    ensures CountNamed(WithProject(s, p).projects, stack) == CountNamed(s.projects, stack) + 1
  {
    assert (s.projects + [p])[..|s.projects|] == s.projects;
  }

  lemma {:induction false} CountIsPositive(ps: seq<Project>, stack: string, i: nat)
    requires i < |ps| && ps[i].name == stack
    ensures CountNamed(ps, stack) >= 1
  {
    if i < |ps| - 1 { CountIsPositive(ps[..|ps| - 1], stack, i); }
  }

  /** On a sound server the branch says where the app is, or that there is none. */
  lemma BranchMeans(s: State, stack: string, name: string) returns (i: nat)
    requires AtMostOne(s, stack, name)
    ensures match BranchOf(s, stack, name)
            case Update(at) => Lookup(s, stack, name) == Some(at)
            case NewApp(projectId, environmentId) =>
              && Lookup(s, stack, name) == None && i < |s.projects|
              && s.projects[i].name == stack && s.projects[i].id == projectId
              && EnvironmentOf(s.projects[i]).Some? && EnvironmentOf(s.projects[i]).value.id == environmentId
            case NewProject => Lookup(s, stack, name) == None && forall p <- s.projects :: p.name != stack
  {
    i := 0;
    if exists p <- s.projects :: p.name == stack {
      i := FirstNamed(s.projects, stack);
      StackHasEnvironment(s, stack, name, i);
      BranchAt(s.projects, s.composes, stack, name, i);
      LookupOf(s, stack, name, i);
    } else {
      BranchWithoutProject(s.projects, s.composes, stack, name);
      NoProject(s, stack, name);
    }
  }

  /** Every error of an apply has its reason: a call that failed, a write of the checkpoint that did, or a
      render that is not accepted. */
  predicate Explained(e: Failure, called: bool, wrote: bool, accepted: bool) {
    match e
    case ApiError => called
    case DeployRejected => called
    case PersistFailed => wrote
    case InvalidCompose(_) => !accepted
    case _ => false
  }

  class Backend {
    const stack: string
    const name: string
    const r: V.Rendered
    const hash: string
    const server: Server
    const checkpoint: Checkpoint
    var appliedLocator: Option<Locator>
    var createdInProcess: bool
    /** Successful deploys before this object was made. */
    ghost const deploysBefore: nat
    /** Deploys of this object whose hash could not be stored. */
    ghost var unstored: nat

    constructor (stack: string, r: V.Rendered, hash: string, server: Server, checkpoint: Checkpoint)
      ensures Sound() ==> Valid()
      ensures DistinctIds(server.s.composes) && BranchOf(server.s, stack, name) == NewProject ==> Barren()
      ensures !createdInProcess && appliedLocator == None && unstored == 0 && deploysBefore == server.deploysOk
      ensures this.stack == stack && this.r == r && this.hash == hash
      ensures this.server == server && this.checkpoint == checkpoint
      ensures name == ResourceName(stack, Nextcloud, Service)
    {
      this.stack, this.name := stack, ResourceName(stack, Nextcloud, Service);
      this.r, this.hash, this.server, this.checkpoint := r, hash, server, checkpoint;
      appliedLocator, createdInProcess, deploysBefore, unstored := None, false, server.deploysOk, 0;
    }

    /** What outlives the process. */
    ghost predicate Sound()
      reads server, checkpoint
    {
      AtMostOne(server.s, stack, name) && HonestHere(server.s, checkpoint.applied, stack, name, hash, r)
    }

    ghost function Fresh(): Option<Locator>
      reads server
    {
      Lookup(server.s, stack, name)
    }

    /** The cached locator is a fresh lookup; besides the deploys whose hash could not be stored there was
        one successful deploy if the app was created in this process, and none if not. */
    ghost predicate Valid()
      reads this, server, checkpoint
    {
      && Sound()
      && (appliedLocator.Some? ==> Fresh() == appliedLocator)
      && (createdInProcess ==> appliedLocator.Some? && Settled(server.s, stack, name, r))
      && server.deploysOk == deploysBefore + unstored + if createdInProcess then 1 else 0
    }

    /** Nothing cached, and a listing that leads to a new project: there is none of the stack's name, or
        the first one lacks an environment. */
    ghost predicate Barren()
      reads this, server
    {
      && DistinctIds(server.s.composes) && appliedLocator == None && !createdInProcess
      && BranchOf(server.s, stack, name) == NewProject
    }

    method FindComposeLocator() returns (res: Result<Option<Locator>, Failure>)
      requires Valid()
      modifies this`appliedLocator, server`failed, server`listed
      ensures old(appliedLocator).Some? ==> server.listed == old(server.listed)
      ensures Valid()
      ensures server.failed == old(server.failed) + (if res.Err? then 1 else 0)
      ensures res.Ok? ==> res.value == Fresh() == appliedLocator
      ensures res.Err? ==> res.error == ApiError && appliedLocator == old(appliedLocator)
      ensures old(appliedLocator).Some? ==> appliedLocator == old(appliedLocator)
    {
      hide AtMostOne, HonestHere, Settled, FirstCompose, EnvironmentOf;
      if appliedLocator.Some? { return Ok(appliedLocator); }
      var listed := server.ListProjects();
      if listed.Err? { return Err(listed.error); }
      var ps, cs := listed.value.projects, listed.value.composes;
      for i := 0 to |ps|
        invariant LookupIn(ps, cs, stack, name) == LookupIn(ps[i..], cs, stack, name)
        invariant Valid() && appliedLocator == None && server.failed == old(server.failed)
      {
        if ps[i].name != stack { continue; }
        var environment := EnvironmentOf(ps[i]);
        if environment.None? { continue; }
        var compose := FindInEnvironment(cs, environment.value.id, name);
        if compose.Some? {
          appliedLocator := Some(Locator(ps[i].id, environment.value.id, compose.value.id));
          return Ok(appliedLocator);
        }
      }
      return Ok(None);
    }

    /** The readiness checks before a skip; `healthy` is their verdict. They may fill the cache. */
    method VerifyCurrent(healthy: bool) returns (passed: bool)
      requires Valid()
      modifies this`appliedLocator, server`failed, server`listed
      ensures old(appliedLocator).Some? ==> server.listed == old(server.listed)
      ensures Valid() && passed == healthy && server.failed >= old(server.failed)
    {
      if * { var _ := FindComposeLocator(); }
      return healthy;
    }

    /** The app exists: through the guard when there is a checkpoint, else written and deployed. */
    method ApplyAt(at: Locator, healthy: bool) returns (res: Result<Locator, Failure>)
      requires Valid() && !createdInProcess && Fresh() == Some(at)
      modifies this, server`s, server`mutations, server`deploysOk, server`failed, server`listed, checkpoint
      ensures old(appliedLocator).Some? ==> server.listed == old(server.listed)
      ensures res.Err? ==> Explained(res.error, server.failed > old(server.failed),
                                     checkpoint.failed > old(checkpoint.failed), V.Accepted(r))
      ensures server.s.projects == old(server.s.projects)
      ensures Valid() && unstored == old(unstored) + (if res == Err(PersistFailed) then 1 else 0)
      ensures res.Ok? ==> res.value == at && appliedLocator == Some(at) == Fresh() && Settled(server.s, stack, name, r)
      ensures old(Settled(server.s, stack, name, r)) ==> Settled(server.s, stack, name, r)
      ensures SameBut(old(checkpoint.applied), checkpoint.applied, name)
      ensures res.Ok? && old(checkpoint.applied).Some? ==> checkpoint.Stored(name) == Some(hash)
      ensures old(checkpoint.Stored(name)) == Some(hash) && healthy ==>
                && server.s == old(server.s) && server.mutations == old(server.mutations)
                && checkpoint.applied == old(checkpoint.applied) && res == Ok(at) && !createdInProcess
    {
      hide AtMostOne, Lookup, Live, Progress, SameBut, Stop, V.Accepted, WithHash;
      ghost var s := server.s;
      assert DistinctIds(s.composes) by { AtMostOneIds(s, stack, name); }
      if checkpoint.applied.Some? {
        var verified := false;
        if checkpoint.Stored(name) == Some(hash) { verified := VerifyCurrent(healthy); }
        var result := ApplyNoopGuard(server, checkpoint, name, hash, r, at, verified);
        ProgressKeepsProjects(s, server.s, at.composeId, r);
        ProgressKeepsSettled(s, server.s, at, r, stack, name);
        if result == Err(PersistFailed) { unstored := unstored + 1; }
        if result.Err? { return Err(result.error); }
        createdInProcess := result.value.status == AppliedNow;
        appliedLocator := Some(result.value.locator);
        return Ok(result.value.locator);
      }
      SameButItself(checkpoint.applied, name);
      var applied := ApplyAndDeploy(server, at.composeId, r);
      ProgressKeepsProjects(s, server.s, at.composeId, r);
      ProgressKeepsSettled(s, server.s, at, r, stack, name);
      if applied.Err? { return Err(applied.error); }
      createdInProcess, appliedLocator := true, Some(at.(composeId := applied.value));
      return Ok(at.(composeId := applied.value));
    }

    /** The project exists and lacks the app: created empty, written, deployed, and only then stored.
        `sound` says whether the rest of the server is in order. */
    method CreateIn(ghost i: nat, projectId: string, environmentId: string, ghost sound: bool)
      returns (res: Result<Locator, Failure>)
      requires DistinctIds(server.s.composes) && !createdInProcess && appliedLocator == None
      requires sound ==>
                 && Valid() && Fresh() == None
                 && i < |server.s.projects| && server.s.projects[i].name == stack
                 && server.s.projects[i].id == projectId
                 && EnvironmentOf(server.s.projects[i]).Some?
                 && EnvironmentOf(server.s.projects[i]).value.id == environmentId
      modifies this, server`s, server`mutations, server`deploysOk, server`composesAsked, server`failed, checkpoint
      ensures res.Err? ==> Explained(res.error, server.failed > old(server.failed),
                                     checkpoint.failed > old(checkpoint.failed), V.Accepted(r))
      ensures sound ==>
                && Valid() && unstored == old(unstored) + (if res == Err(PersistFailed) then 1 else 0)
                && (res.Ok? ==> Fresh() == Some(res.value) && Settled(server.s, stack, name, r))
      ensures server.s.projects == old(server.s.projects) && server.composesAsked == old(server.composesAsked) + 1
      ensures res.Ok? ==> appliedLocator == Some(res.value)
      ensures SameBut(old(checkpoint.applied), checkpoint.applied, name)
      ensures res.Ok? && old(checkpoint.applied).Some? ==> checkpoint.Stored(name) == Some(hash)
    {
      hide AtMostOne, Lookup, Live, Progress, SameBut, EnvironmentOf, DistinctIds, Stop, V.Accepted;
      ghost var s := server.s;
      ghost var applied := checkpoint.applied;
      SameButItself(applied, name);
      forall c: Compose | sound && c.environmentId == environmentId && c.name == name && !HasId(s.composes, c.id)
        ensures AtMostOne(WithCompose(s, c), stack, name)
        ensures Lookup(WithCompose(s, c), stack, name) == Some(Locator(projectId, environmentId, c.id))
      {
        NewComposeKeeps(s, i, c, stack, name);
      }
      var created := server.CreateCompose(name, environmentId, EMPTY_COMPOSE);
      if created.Err? { return Err(created.error); }
      ghost var s' := server.s;
      var at := Locator(projectId, environmentId, created.value);
      DistinctGrows(s, Compose(created.value, environmentId, name, EMPTY_COMPOSE, ""));
      var updated := ApplyAndDeploy(server, created.value, r);
      ProgressKeepsProjects(s', server.s, at.composeId, r);
      if sound { ProgressKeepsSettled(s', server.s, at, r, stack, name); }
      if updated.Err? { return Err(updated.error); }
      if checkpoint.applied.Some? {
        var persisted := checkpoint.PersistHash(name, hash);
        HashKeepsOthers(applied.value, name, hash);
        if persisted.Err? {
          unstored := unstored + 1;
          return Err(persisted.error);
        }
      }
      createdInProcess, appliedLocator := true, Some(at);
      return Ok(at);
    }

    /** Follows the listing's branch, whether or not the stack's project has an environment. */
    method EnsureComposeApplied(healthy: bool) returns (res: Result<Locator, Failure>)
      requires Valid() || Barren()
      modifies this, server, checkpoint
      ensures res.Err? ==> Explained(res.error, server.failed > old(server.failed),
                                     checkpoint.failed > old(checkpoint.failed), V.Accepted(r))
      ensures old(Valid()) ==>
                && Valid() && unstored == old(unstored) + (if res == Err(PersistFailed) then 1 else 0)
                && (res.Ok? ==> Fresh() == Some(res.value) && Settled(server.s, stack, name, r))
                && (old(Settled(server.s, stack, name, r)) ==> Settled(server.s, stack, name, r))
      ensures res.Ok? ==> appliedLocator == Some(res.value)
      ensures SameBut(old(checkpoint.applied), checkpoint.applied, name)
      ensures res.Ok? && old(checkpoint.applied).Some? && !old(createdInProcess) ==>
                checkpoint.Stored(name) == Some(hash)
      ensures old(Valid()) && ((old(checkpoint.Stored(name)) == Some(hash) && healthy) || old(createdInProcess)) ==>
                && server.s == old(server.s) && server.mutations == old(server.mutations)
                && checkpoint.applied == old(checkpoint.applied) && createdInProcess == old(createdInProcess)
      ensures old(appliedLocator).Some? ==>
                && server.projectsAsked == old(server.projectsAsked)
                && server.composesAsked == old(server.composesAsked)
                && server.listed == old(server.listed)
      ensures old(appliedLocator).None? ==>
                var branch := BranchOf(old(server.s), stack, name);
                && old(server.projectsAsked) <= server.projectsAsked
                && server.projectsAsked <= old(server.projectsAsked) + (if branch.NewProject? then 1 else 0)
                && server.composesAsked <= old(server.composesAsked) + (if branch.Update? then 0 else 1)
                && (res.Ok? ==>
                      && server.projectsAsked == old(server.projectsAsked) + (if branch.NewProject? then 1 else 0)
                      && server.composesAsked == old(server.composesAsked) + (if branch.Update? then 0 else 1))
      ensures server.projectsAsked == old(server.projectsAsked) ==> server.s.projects == old(server.s.projects)
      ensures server.composesAsked > old(server.composesAsked) && server.projectsAsked > old(server.projectsAsked) ==>
                CountNamed(server.s.projects, stack) == CountNamed(old(server.s.projects), stack) + 1
    {
      hide AtMostOne, Lookup, Live, SameBut, EnvironmentOf, DistinctIds, BranchOf, CountNamed, Settled, HonestHere;
      SameButItself(checkpoint.applied, name);
      if appliedLocator.Some? && createdInProcess { return Ok(appliedLocator.value); }
      if appliedLocator.Some? {
        res := ApplyAt(appliedLocator.value, healthy);
        return;
      }
      ghost var sound, s, i := Valid(), server.s, 0;
      if sound {
        i := BranchMeans(s, stack, name);
        AtMostOneIds(s, stack, name);
        StoredIsFound();
      }
      var listed := server.ListProjects();
      if listed.Err? { return Err(listed.error); }
      var branch := Choose(listed.value, stack, name);
      match branch {
        case Update(at) => res := ApplyAt(at, healthy);
        case NewApp(projectId, environmentId) => res := CreateIn(i, projectId, environmentId, sound);
        case NewProject =>
          forall p: Project | IsNew(s, p, stack)
            ensures sound ==>
                      AtMostOne(WithProject(s, p), stack, name) && Lookup(WithProject(s, p), stack, name) == None
            ensures CountNamed(WithProject(s, p).projects, stack) == CountNamed(s.projects, stack) + 1
          {
            if sound { NewProjectKeeps(s, p, stack, name); }
            OneMoreNamed(s, p, stack);
          }
          var created := server.CreateProject(stack);
          if sound { StillUnstored(s); }
          if created.Err? { return Err(created.error); }
          NewEnvironment(created.value);
          res := CreateIn(|s.projects|, created.value.id, created.value.environments[0].id, sound);
      }
    }

    /** A stored hash of the render means that there is an app to find. */
    lemma StoredIsFound()
      requires Valid()
      ensures checkpoint.Stored(name) == Some(hash) ==> Fresh().Some? && Settled(server.s, stack, name, r)
      ensures Settled(server.s, stack, name, r) ==> Fresh().Some?
    {
      hide AtMostOne, Lookup, Live;
    }

    lemma StillUnstored(s: State)
      requires StoredIn(checkpoint.applied, name) != Some(hash)
      ensures HonestHere(server.s, checkpoint.applied, stack, name, hash, r)
    {
      hide Settled;
    }

    // ---- The operations the reconciler calls, for services and for volumes ----

    /** What an id stands for on the server: a resource exactly when it names the stack's one app. */
    ghost function FoundById(id: string, role: Role): Option<Record>
      reads server
    {
      match ParseResourceId(id, role)
      case Some((composeId, kind)) =>
        if Fresh().Some? && Fresh().value.composeId == composeId then Some(Record(id, ResourceName(stack, kind, role)))
        else None
      case None => None
    }

    ghost function FoundByName(resourceName: string, role: Role): Option<Record>
      reads server
    {
      match KindFromName(stack, resourceName, role)
      case Some(kind) =>
        if Fresh().Some? then Some(Record(ResourceId(Fresh().value.composeId, kind, role), resourceName)) else None
      case None => None
    }

    /** Searching by name and by id agree: what a name finds, its id finds, under the same name, unless the
        app's id holds a colon; then the id finds nothing. */
    lemma NameAndIdAgree(resourceName: string, role: Role)
      requires FoundByName(resourceName, role).Some?
      ensures FoundById(FoundByName(resourceName, role).value.id, role)
              == if Contains(Fresh().value.composeId, ':') then None else FoundByName(resourceName, role)
    {
      ResourceIdRoundTrip(Fresh().value.composeId, KindFromName(stack, resourceName, role).value, role, role);
      hide Lookup, ParseResourceId, ResourceId, Contains;
    }

    method Get(id: string, role: Role) returns (res: Result<Option<Record>, Failure>)
      requires Valid()
      modifies this`appliedLocator, server`failed, server`listed
      ensures old(appliedLocator).Some? ==> server.listed == old(server.listed)
      ensures Valid()
      ensures server.failed == old(server.failed) + (if res.Err? then 1 else 0)
      ensures res.Ok? ==> res.value == FoundById(id, role)
    {
      hide Lookup, AtMostOne, HonestHere, Settled, ParseResourceId;
      var parsed := ParseResourceId(id, role);
      if parsed.None? { return Ok(None); }
      var (composeId, kind) := parsed.value;
      var found := FindComposeLocator();
      if found.Err? { return Err(found.error); }
      if found.value.None? || found.value.value.composeId != composeId { return Ok(None); }
      return Ok(Some(Record(id, ResourceName(stack, kind, role))));
    }

    /** Once this object has created the app it finds nothing by name, so that create is asked again. */
    method FindByName(resourceName: string, role: Role) returns (res: Result<Option<Record>, Failure>)
      requires Valid()
      modifies this`appliedLocator, server`failed, server`listed
      ensures old(appliedLocator).Some? ==> server.listed == old(server.listed)
      ensures Valid()
      ensures server.failed == old(server.failed) + (if res.Err? then 1 else 0)
      ensures res.Ok? ==> res.value == if createdInProcess then None else FoundByName(resourceName, role)
    {
      hide Lookup, AtMostOne, HonestHere, Settled, ResourceId, KindFromName;
      var kind := KindFromName(stack, resourceName, role);
      if kind.None? { return Ok(None); }
      if createdInProcess { return Ok(None); }
      var found := FindComposeLocator();
      if found.Err? { return Err(found.error); }
      if found.value.None? { return Ok(None); }
      return Ok(Some(Record(ResourceId(found.value.value.composeId, kind.value, role), resourceName)));
    }

    /** Also the update of a service, which is a create; only services have inputs to compare. */
    method Create(resourceName: string, role: Role, inputsMatch: bool, healthy: bool)
      returns (res: Result<Record, Failure>)
      requires Valid()
      modifies this, server, checkpoint
      ensures Valid() && unstored == old(unstored) + (if res == Err(PersistFailed) then 1 else 0)
      ensures old(Settled(server.s, stack, name, r)) ==> Settled(server.s, stack, name, r)
      ensures SameBut(old(checkpoint.applied), checkpoint.applied, name)
      ensures KindFromName(stack, resourceName, role).None? <==> res == Err(UnknownName)
      ensures KindFromName(stack, resourceName, role).Some? && role == Service && !inputsMatch
              <==> res == Err(InputsChanged)
      ensures res.Err? && res.error != UnknownName && res.error != InputsChanged ==>
                Explained(res.error, server.failed > old(server.failed),
                          checkpoint.failed > old(checkpoint.failed), V.Accepted(r))
      ensures res.Ok? ==>
                && Settled(server.s, stack, name, r) && (role == Service ==> inputsMatch)
                && res.value == Record(ResourceId(Fresh().value.composeId,
                                                  KindFromName(stack, resourceName, role).value, role), resourceName)
      ensures res.Err? && (res.error == UnknownName || res.error == InputsChanged) ==>
                server.s == old(server.s) && server.mutations == old(server.mutations)
      ensures (old(checkpoint.Stored(name)) == Some(hash) && healthy) || old(createdInProcess) ==>
                server.s == old(server.s) && server.mutations == old(server.mutations)
                && checkpoint.applied == old(checkpoint.applied)
    {
      hide Lookup, AtMostOne, Live, SameBut, ResourceId, KindFromName;
      SameButItself(checkpoint.applied, name);
      var kind := KindFromName(stack, resourceName, role);
      if kind.None? { return Err(UnknownName); }
      if role == Service && !inputsMatch { return Err(InputsChanged); }
      var applied := EnsureComposeApplied(healthy);
      if applied.Err? { return Err(applied.error); }
      return Ok(Record(ResourceId(applied.value.composeId, kind.value, role), resourceName));
    }
  }

  lemma AtMostOneIds(s: State, stack: string, name: string)
    requires AtMostOne(s, stack, name)
    ensures DistinctIds(s.composes)
  {}

  lemma DistinctGrows(s: State, c: Compose)
    requires DistinctIds(s.composes) && !HasId(s.composes, c.id)
    ensures DistinctIds(WithCompose(s, c).composes)
  {
    assert forall i :: 0 <= i < |s.composes| ==> s.composes[i] in s.composes;
  }

  lemma ProgressKeepsProjects(s: State, s': State, id: string, r: V.Rendered)
    requires Progress(s, s', id, r)
    ensures s'.projects == s.projects
  {
    hide Live;
  }

  lemma SameButItself(a: Option<Applied>, key: string)
    ensures SameBut(a, a, key)
  {}

  lemma HashKeepsOthers(a: Applied, key: string, hash: string)
    ensures SameBut(Some(a), Some(WithHash(a, key, hash)), key)
  {
    assert a.hashes[key := hash] - {key} == a.hashes - {key};
  }

  lemma StackHasEnvironment(s: State, stack: string, name: string, i: nat)
    requires AtMostOne(s, stack, name) && i < |s.projects| && s.projects[i].name == stack
    ensures EnvironmentOf(s.projects[i]).Some?
  {
    hide Unique;
  }

  lemma LookupOf(s: State, stack: string, name: string, i: nat)
    requires AtMostOne(s, stack, name) && i < |s.projects| && s.projects[i].name == stack
    requires EnvironmentOf(s.projects[i]).Some?
    ensures var e := EnvironmentOf(s.projects[i]).value;
            Lookup(s, stack, name) ==
            match FirstCompose(s.composes, e.id, name)
            case Some(c) => Some(Locator(s.projects[i].id, e.id, c.id))
            case None => None
  {
    hide EnvironmentOf, FirstCompose, Unique;
    LookupAt(s.projects, s.composes, stack, name, i);
  }

  lemma NoProject(s: State, stack: string, name: string)
    requires forall j :: 0 <= j < |s.projects| ==> s.projects[j].name != stack
    ensures Lookup(s, stack, name) == None && forall p <- s.projects :: p.name != stack
  {
    NoProjectNoLookup(s.projects, s.composes, stack, name);
  }

  lemma NewEnvironment(p: Project)
    requires |p.environments| == 1
    ensures EnvironmentOf(p) == Some(p.environments[0])
  {}

  // ---- Whole runs ----

  datatype Op =
    | GetOp(id: string, role: Role)
    | FindOp(resourceName: string, role: Role)
    | CreateOp(resourceName: string, role: Role, inputsMatch: bool, healthy: bool)
    | Restart

  /** Any sequence of calls, with restarts at will, every call free to fail before or after its effect:
      the stack keeps at most one project and one app, a stored hash stays honest, an app once settled
      stays settled, and each backend object sees at most one successful deploy besides those whose hash
      could not be stored. */
  method Run(stack: string, r: V.Rendered, hash: string, server: Server, checkpoint: Checkpoint, ops: seq<Op>)
    returns (backends: nat, unstored: nat, settled: bool)
    requires AtMostOne(server.s, stack, ResourceName(stack, Nextcloud, Service))
    requires HonestHere(server.s, checkpoint.applied, stack, ResourceName(stack, Nextcloud, Service), hash, r)
    modifies server, checkpoint
    ensures AtMostOne(server.s, stack, ResourceName(stack, Nextcloud, Service))
    ensures HonestHere(server.s, checkpoint.applied, stack, ResourceName(stack, Nextcloud, Service), hash, r)
    ensures settled || old(Settled(server.s, stack, ResourceName(stack, Nextcloud, Service), r)) ==>
              Settled(server.s, stack, ResourceName(stack, Nextcloud, Service), r)
    ensures backends == 1 + Restarts(ops)
    ensures old(server.deploysOk) + unstored <= server.deploysOk <= old(server.deploysOk) + unstored + backends
    ensures SameBut(old(checkpoint.applied), checkpoint.applied, ResourceName(stack, Nextcloud, Service))
  {
    hide AtMostOne, HonestHere, Settled, SameBut, ResourceName;
    var name := ResourceName(stack, Nextcloud, Service);
    var backend := new Backend(stack, r, hash, server, checkpoint);
    SameButItself(checkpoint.applied, name);
    backends, unstored, settled := 1, 0, false;
    ghost var earlier: nat := 0;
    for i := 0 to |ops|
      invariant backend.Valid() && fresh(backend)
      invariant backend.server == server && backend.checkpoint == checkpoint
      invariant backend.stack == stack && backend.r == r && backend.hash == hash && backend.name == name
      invariant settled || old(Settled(server.s, stack, name, r)) ==> Settled(server.s, stack, name, r)
      invariant backends == 1 + Restarts(ops[..i])
      invariant unstored == earlier + backend.unstored
      invariant old(server.deploysOk) + earlier <= backend.deploysBefore
      invariant backend.deploysBefore <= old(server.deploysOk) + earlier + backends - 1
      invariant SameBut(old(checkpoint.applied), checkpoint.applied, name)
    {
      assert ops[..i + 1][..i] == ops[..i];
      match ops[i] {
        case GetOp(id, role) => var _ := backend.Get(id, role);
        case FindOp(resourceName, role) => var _ := backend.FindByName(resourceName, role);
        case CreateOp(resourceName, role, inputsMatch, healthy) =>
          ghost var before := checkpoint.applied;
          var created := backend.Create(resourceName, role, inputsMatch, healthy);
          SameButTrans(old(checkpoint.applied), before, checkpoint.applied, name);
          settled := settled || created.Ok?;
          if created == Err(PersistFailed) { unstored := unstored + 1; }
        case Restart =>
          earlier := unstored;
          backend := new Backend(stack, r, hash, server, checkpoint);
          backends := backends + 1;
      }
    }
    assert ops[..|ops|] == ops;
  }

  function Restarts(ops: seq<Op>): nat {
    if ops == [] then 0 else Restarts(ops[..|ops| - 1]) + if ops[|ops| - 1].Restart? then 1 else 0
  }

  lemma SameButTrans(a: Option<Applied>, b: Option<Applied>, c: Option<Applied>, key: string)
    requires SameBut(a, b, key) && SameBut(b, c, key)
    ensures SameBut(a, c, key)
  {}
}
