/** The shared-core reconciler and its ownership ledger (`core/reconciler.py`): five kinds of resource
    are resolved against the ledger and a backend that outlives the run, then written back. */
module SharedCore {
  import opened Text
  import P = PlanModels
  import C = ComposeApply

  datatype Kind = Network | Postgres | Redis | MailRelay | LiteLLM

  function TypeOf(k: Kind): string {
    match k
    case Network => "shared_core_network"
    case Postgres => "shared_core_postgres"
    case Redis => "shared_core_redis"
    case MailRelay => "shared_core_mail_relay"
    case LiteLLM => "shared_core_litellm"
  }

  function ScopeSuffix(k: Kind): string {
    match k
    case Network => ":shared-network"
    case Postgres => ":shared-postgres"
    case Redis => ":shared-redis"
    case MailRelay => ":shared-postfix"
    case LiteLLM => ":shared-litellm"
  }

  function Scope(stack: string, k: Kind): string { "stack:" + stack + ScopeSuffix(k) }

  /** Every kind has its own type and scope, by which entries are written and found. */
  lemma TypesAndScopesAre(stack: string)
    ensures TypeOf(Network) == "shared_core_network" && Scope(stack, Network) == "stack:" + stack + ":shared-network"
    ensures TypeOf(Postgres) == "shared_core_postgres"
    ensures Scope(stack, Postgres) == "stack:" + stack + ":shared-postgres"
    ensures TypeOf(Redis) == "shared_core_redis" && Scope(stack, Redis) == "stack:" + stack + ":shared-redis"
    ensures TypeOf(MailRelay) == "shared_core_mail_relay"
    ensures Scope(stack, MailRelay) == "stack:" + stack + ":shared-postfix"
    ensures TypeOf(LiteLLM) == "shared_core_litellm" && Scope(stack, LiteLLM) == "stack:" + stack + ":shared-litellm"
  {}

  lemma TypesAreDistinct(a: Kind, b: Kind)
    ensures TypeOf(a) == TypeOf(b) <==> a == b
  {
    assert |TypeOf(Network)| == 19 && |TypeOf(Postgres)| == 20 && |TypeOf(Redis)| == 17;
    assert |TypeOf(MailRelay)| == 22 && |TypeOf(LiteLLM)| == 19;
    assert TypeOf(Network)[12] == 'n' && TypeOf(LiteLLM)[12] == 'l';
  }

  // ---- The ledger ----

  datatype Owned = Owned(resourceType: string, resourceId: string, scope: string)

  datatype Ledger = Ledger(formatVersion: int, resources: seq<Owned>)

  datatype Failure = Duplicates(kind: Kind) | Missing(kind: Kind) | Renamed(kind: Kind) | BackendFailed

  predicate IsShared(o: Owned) { exists k: Kind :: o.resourceType == TypeOf(k) }

  function Matches(rs: seq<Owned>, t: string, scope: string): seq<Owned> {
    if rs == [] then []
    else if rs[0].resourceType == t && rs[0].scope == scope then [rs[0]] + Matches(rs[1..], t, scope)
    else Matches(rs[1..], t, scope)
  }

  function FindOwned(l: Ledger, stack: string, k: Kind): Result<Option<Owned>, Failure> {
    var found := Matches(l.resources, TypeOf(k), Scope(stack, k));
    if |found| > 1 then Err(Duplicates(k)) else if found == [] then Ok(None) else Ok(Some(found[0]))
  }

  predicate Fits(o: Owned, stack: string, k: Kind) { o.resourceType == TypeOf(k) && o.scope == Scope(stack, k) }

  predicate TwoFit(rs: seq<Owned>, stack: string, k: Kind) {
    exists i, j :: 0 <= i < j < |rs| && Fits(rs[i], stack, k) && Fits(rs[j], stack, k)
  }

  lemma TwoFitCons(o: Owned, rest: seq<Owned>, stack: string, k: Kind)
    ensures TwoFit([o] + rest, stack, k) <==>
            TwoFit(rest, stack, k) || (Fits(o, stack, k) && exists u <- rest :: Fits(u, stack, k))
  {
    hide Fits;
    var rs := [o] + rest;
    assert forall i :: 0 < i < |rs| ==> rs[i] == rest[i - 1];
    if i, j :| 0 <= i < j < |rest| && Fits(rest[i], stack, k) && Fits(rest[j], stack, k) {
      assert rs[i + 1] == rest[i] && rs[j + 1] == rest[j];
    }
    if Fits(o, stack, k) && exists u <- rest :: Fits(u, stack, k) {
      var u :| u in rest && Fits(u, stack, k);
      var j :| 0 <= j < |rest| && rest[j] == u;
      assert rs[0] == o && rs[j + 1] == u;
    }
    if i, j :| 0 <= i < j < |rs| && Fits(rs[i], stack, k) && Fits(rs[j], stack, k) {
      assert rs[j] == rest[j - 1] && rest[j - 1] in rest;
    }
  }

  lemma {:induction false} MatchesAre(rs: seq<Owned>, stack: string, k: Kind)
    ensures var m := Matches(rs, TypeOf(k), Scope(stack, k));
            && (m == [] <==> forall o <- rs :: !Fits(o, stack, k))
            && (m != [] ==> m[0] in rs && Fits(m[0], stack, k))
            && (|m| > 1 <==> TwoFit(rs, stack, k))
  {
    hide TypeOf, Scope, TwoFit;
    if rs != [] {
      MatchesAre(rs[1..], stack, k);
      assert rs == [rs[0]] + rs[1..];
      TwoFitCons(rs[0], rs[1..], stack, k);
    } else {
      assert !TwoFit([], stack, k) by { NoneFit(stack, k); }
    }
  }

  lemma NoneFit(stack: string, k: Kind)
    ensures !TwoFit([], stack, k)
  {}

  /** The ledger is refused exactly when two entries fit a kind, and has nothing for it exactly when none
      does; else it has the one that fits. */
  lemma FindOwnedExactly(l: Ledger, stack: string, k: Kind)
    ensures var f, rs := FindOwned(l, stack, k), l.resources;
            && (f == Err(Duplicates(k)) <==> TwoFit(rs, stack, k))
            && (f == Ok(None) <==> forall o <- rs :: !Fits(o, stack, k))
            && (f.Ok? && f.value.Some? ==> f.value.value in rs && Fits(f.value.value, stack, k))
            && (f.Err? ==> f.error == Duplicates(k))
  {
    MatchesAre(l.resources, stack, k);
    hide TypeOf, Scope, Matches, TwoFit;
  }

  function Unshared(rs: seq<Owned>): seq<Owned> {
    if rs == [] then []
    else if IsShared(rs[0]) then Unshared(rs[1..])
    else [rs[0]] + Unshared(rs[1..])
  }

  /** The ids a run reports, none for a kind that was not resolved. */
  type Ids = Kind -> Option<string>

  function Entry(stack: string, ids: Ids, k: Kind): seq<Owned> {
    if ids(k).Some? then [Owned(TypeOf(k), ids(k).value, Scope(stack, k))] else []
  }

  function LedgerAfter(l: Ledger, stack: string, ids: Ids): Ledger {
    Ledger(l.formatVersion,
           Unshared(l.resources) + Entry(stack, ids, Network) + Entry(stack, ids, Postgres)
           + Entry(stack, ids, Redis) + Entry(stack, ids, MailRelay) + Entry(stack, ids, LiteLLM))
  }

  // ---- The backend ----

  datatype Thing = Thing(kind: Kind, id: string, name: string)

  function GetThing(ts: seq<Thing>, k: Kind, id: string): (r: Option<Thing>)
    ensures r.Some? ==> r.value in ts && r.value.kind == k && r.value.id == id
    ensures r.None? ==> forall t <- ts :: !(t.kind == k && t.id == id)
  {
    if ts == [] then None
    else
      assert ts == [ts[0]] + ts[1..];
      if ts[0].kind == k && ts[0].id == id then Some(ts[0]) else GetThing(ts[1..], k, id)
  }

  function FindThing(ts: seq<Thing>, k: Kind, name: string): (r: Option<Thing>)
    ensures r.Some? ==> r.value in ts && r.value.kind == k && r.value.name == name
    ensures r.None? ==> forall t <- ts :: !(t.kind == k && t.name == name)
  {
    if ts == [] then None
    else
      assert ts == [ts[0]] + ts[1..];
      if ts[0].kind == k && ts[0].name == name then Some(ts[0]) else FindThing(ts[1..], k, name)
  }

  /** Get and find agree: an id names one thing of its kind. */
  predicate IdsName(ts: seq<Thing>) {
    forall t <- ts, u <- ts :: t.kind == u.kind && t.id == u.id ==> t == u
  }

  function ThingIds(ts: seq<Thing>): seq<string> { seq(|ts|, i requires 0 <= i < |ts| => ts[i].id) }

  function NewThing(ts: seq<Thing>, k: Kind, name: string): Thing { Thing(k, C.NewId(ThingIds(ts)), name) }

  lemma NewThingIsNew(ts: seq<Thing>, k: Kind, name: string)
    ensures forall t <- ts :: t.id != NewThing(ts, k, name).id
    ensures IdsName(ts) ==> IdsName(ts + [NewThing(ts, k, name)])
  {
    forall t | t in ts ensures t.id != C.NewId(ThingIds(ts)) {
      var i :| 0 <= i < |ts| && ts[i] == t;
      assert ThingIds(ts)[i] in ThingIds(ts);
    }
  }

  /** Every kind and name was created at most once, and not at all while it cannot be found. */
  ghost predicate CreatedOnce(ts: seq<Thing>, created: multiset<(Kind, string)>) {
    forall k: Kind, name: string {:trigger created[(k, name)]} ::
      created[(k, name)] <= if FindThing(ts, k, name).Some? then 1 else 0
  }

  class Backend {
    var things: seq<Thing>
    var allocations: seq<P.PostgresAllocation>
    /** Creates that took effect, by kind and name. */
    ghost var created: multiset<(Kind, string)>
    /** Calls that failed. */
    ghost var failed: nat

    constructor (things: seq<Thing>)
      requires IdsName(things)
      ensures this.things == things && created == multiset{} && IdsName(things) && CreatedOnce(things, created)
    {
      this.things, allocations, created, failed := things, [], multiset{}, 0;
    }

    method GetResource(k: Kind, id: string) returns (res: Result<Option<Thing>, Failure>)
      modifies this`failed
      ensures failed == old(failed) + (if res.Err? then 1 else 0)
      ensures res.Ok? ==> res.value == GetThing(things, k, id)
      ensures res.Err? ==> res.error == BackendFailed
    {
      if * {
        failed := failed + 1;
        return Err(BackendFailed);
      }
      return Ok(GetThing(things, k, id));
    }

    method FindByName(k: Kind, name: string) returns (res: Result<Option<Thing>, Failure>)
      modifies this`failed
      ensures failed == old(failed) + (if res.Err? then 1 else 0)
      ensures res.Ok? ==> res.value == FindThing(things, k, name)
      ensures res.Err? ==> res.error == BackendFailed
    {
      if * {
        failed := failed + 1;
        return Err(BackendFailed);
      }
      return Ok(FindThing(things, k, name));
    }

    /** A create counts once it takes effect, also when its answer is lost. */
    method Create(k: Kind, name: string) returns (res: Result<Thing, Failure>)
      modifies this`things, this`created, this`failed
      ensures failed == old(failed) + (if res.Err? then 1 else 0)
      ensures (things == old(things) && created == old(created))
              || (things == old(things) + [NewThing(old(things), k, name)]
                  && created == old(created) + multiset{(k, name)})
      ensures res.Ok? ==> res.value == NewThing(old(things), k, name) && things == old(things) + [res.value]
      ensures res.Err? ==> res.error == BackendFailed
    {
      if * {
        failed := failed + 1;
        return Err(BackendFailed);
      }
      var thing := NewThing(things, k, name);
      things := things + [thing];
      created := created + multiset{(k, name)};
      if * {
        failed := failed + 1;
        return Err(BackendFailed);
      }
      return Ok(thing);
    }

    method EnsurePostgresAllocations(wanted: seq<P.PostgresAllocation>) returns (res: Result<(), Failure>)
      modifies this`allocations, this`failed
      ensures failed == old(failed) + (if res.Err? then 1 else 0)
      ensures res.Ok? ==> allocations == wanted
      ensures res.Err? ==> res.error == BackendFailed
    {
      if * {
        failed := failed + 1;
        return Err(BackendFailed);
      }
      allocations := wanted;
      return Ok(());
    }
  }

  lemma {:induction false} FindAppended(ts: seq<Thing>, t: Thing, k: Kind, name: string)
    ensures FindThing(ts + [t], k, name)
            == if FindThing(ts, k, name).Some? then FindThing(ts, k, name)
               else if t.kind == k && t.name == name then Some(t)
               else None
  {
    if ts == [] {
      assert ts + [t] == [t];
    } else {
      FindAppended(ts[1..], t, k, name);
      assert (ts + [t])[1..] == ts[1..] + [t];
    }
  }

  lemma {:induction false} GetAppended(ts: seq<Thing>, t: Thing, k: Kind, id: string)
    ensures GetThing(ts + [t], k, id)
            == if GetThing(ts, k, id).Some? then GetThing(ts, k, id)
               else if t.kind == k && t.id == id then Some(t)
               else None
  {
    if ts == [] {
      assert ts + [t] == [t];
    } else {
      GetAppended(ts[1..], t, k, id);
      assert (ts + [t])[1..] == ts[1..] + [t];
    }
  }

  lemma CreateKeepsOnce(ts: seq<Thing>, created: multiset<(Kind, string)>, k: Kind, name: string)
    requires CreatedOnce(ts, created) && FindThing(ts, k, name) == None
    ensures CreatedOnce(ts + [NewThing(ts, k, name)], created + multiset{(k, name)})
  {
    hide FindThing;
    var t := NewThing(ts, k, name);
    var more := created + multiset{(k, name)};
    forall k': Kind, name': string
      ensures more[(k', name')] <= if FindThing(ts + [t], k', name').Some? then 1 else 0
    {
      FindAppended(ts, t, k', name');
      assert created[(k', name')] <= if FindThing(ts, k', name').Some? then 1 else 0;
    }
  }

  // ---- One resource ----

  datatype Action = ReuseOwned | ReuseExisting | CreateNew

  datatype Managed = Managed(action: Action, id: string, name: string)

  const PLANNED := "planned:"

  /** What resolving a name comes to, before anything is created. */
  function Resolution(ts: seq<Thing>, l: Ledger, stack: string, k: Kind, name: string): Result<Managed, Failure> {
    match FindOwned(l, stack, k)
    case Err(e) => Err(e)
    case Ok(Some(owned)) =>
      (match GetThing(ts, k, owned.resourceId)
       case None => Err(Missing(k))
       case Some(t) =>
         if t.name == name then Ok(Managed(ReuseOwned, t.id, t.name))
         else
           match FindThing(ts, k, name)
           case Some(u) => Ok(Managed(ReuseExisting, u.id, u.name))
           case None => Err(Renamed(k)))
    case Ok(None) =>
      (match FindThing(ts, k, name)
       case Some(u) => Ok(Managed(ReuseExisting, u.id, u.name))
       case None => Ok(Managed(CreateNew, PLANNED + name, name)))
  }

  /** Things only ever grow, here by things of the given kinds. */
  predicate Grown(ts: seq<Thing>, ts': seq<Thing>, ks: set<Kind>) {
    ts <= ts' && IdsName(ts') && forall t <- ts'[|ts|..] :: t.kind in ks
  }

  /** The resource exists under its id, with the name asked for. */
  predicate Holds(ts: seq<Thing>, k: Kind, m: Managed, name: string) {
    m.name == name && GetThing(ts, k, m.id) == Some(Thing(k, m.id, name))
  }

  lemma FoundHolds(ts: seq<Thing>, t: Thing)
    requires t in ts && IdsName(ts)
    ensures GetThing(ts, t.kind, t.id) == Some(t)
  {
    hide GetThing;
  }

  lemma GrownHolds(ts: seq<Thing>, ts': seq<Thing>, ks: set<Kind>, k: Kind, m: Managed, name: string)
    requires Grown(ts, ts', ks) && Holds(ts, k, m, name)
    ensures Holds(ts', k, m, name)
  {
    hide GetThing;
    var t := Thing(k, m.id, name);
    var i :| 0 <= i < |ts| && ts[i] == t;
    assert ts'[i] == t;
    FoundHolds(ts', t);
  }

  lemma GrownTwice(a: seq<Thing>, b: seq<Thing>, c: seq<Thing>, ks: set<Kind>, ls: set<Kind>)
    requires Grown(a, b, ks) && Grown(b, c, ls)
    ensures Grown(a, c, ks + ls)
  {
    hide IdsName;
    forall t | t in c[|a|..] ensures t.kind in ks + ls {
      var i :| 0 <= i < |c[|a|..]| && c[|a|..][i] == t;
      if |a| + i < |b| {
        assert b[|a|..][i] == t;
      } else {
        assert c[|b|..][|a| + i - |b|] == t;
      }
    }
  }

  lemma {:induction false} FindApart(ts: seq<Thing>, more: seq<Thing>, k: Kind, name: string, id: string)
    decreases |more|
    requires forall t <- more :: t.kind != k
    ensures FindThing(ts + more, k, name) == FindThing(ts, k, name)
    ensures GetThing(ts + more, k, id) == GetThing(ts, k, id)
  {
    if more == [] {
      assert ts + more == ts;
    } else {
      assert more == [more[0]] + more[1..];
      FindAppended(ts, more[0], k, name);
      GetAppended(ts, more[0], k, id);
      FindApart(ts + [more[0]], more[1..], k, name, id);
      assert ts + [more[0]] + more[1..] == ts + more;
    }
  }

  /** Things of other kinds do not matter to a resolution. */
  lemma ResolutionApart(ts: seq<Thing>, ts': seq<Thing>, ks: set<Kind>, l: Ledger, stack: string, k: Kind, name: string)
    requires Grown(ts, ts', ks) && k !in ks
    ensures Resolution(ts', l, stack, k, name) == Resolution(ts, l, stack, k, name)
  {
    hide FindOwned, FindThing, GetThing, IdsName;
    var more := ts'[|ts|..];
    assert ts' == ts + more;
    FindApart(ts, more, k, name, "");
    match FindOwned(l, stack, k)
    case Ok(Some(owned)) => FindApart(ts, more, k, name, owned.resourceId);
    case _ =>
  }

  method Resolve(backend: Backend, dryRun: bool, l: Ledger, stack: string, k: Kind, name: string)
    returns (res: Result<Managed, Failure>)
    requires IdsName(backend.things)
    modifies backend`things, backend`created, backend`failed
    ensures backend.failed == old(backend.failed) + (if res == Err(BackendFailed) then 1 else 0)
    ensures Grown(old(backend.things), backend.things, {k})
    ensures CreatedOnce(old(backend.things), old(backend.created)) ==> CreatedOnce(backend.things, backend.created)
    ensures var r := Resolution(old(backend.things), l, stack, k, name);
            && (res.Err? && res.error != BackendFailed ==> r == Err(res.error))
            && (res.Ok? ==> r.Ok? && res.value.action == r.value.action)
            && (dryRun || r.Err? || r.value.action != CreateNew ==>
                  backend.things == old(backend.things) && backend.created == old(backend.created)
                  && (res.Ok? ==> res == r))
    ensures res.Ok? && !dryRun ==> Holds(backend.things, k, res.value, name)
  {
    assert FindOwned(l, stack, k).Err? ==> FindOwned(l, stack, k).error == Duplicates(k);
    hide FindOwned, GetThing, FindThing, IdsName, CreatedOnce, NewThing;
    assert Grown(backend.things, backend.things, {k});
    var owned := FindOwned(l, stack, k);
    if owned.Err? { return Err(owned.error); }
    if owned.value.Some? {
      res := ResolveOwned(backend, owned.value.value, k, name);
    } else {
      res := ResolveByName(backend, dryRun, k, name);
    }
  }

  /** What the ledger has: its resource, unless that has another name by now and there is one of the name. */
  method ResolveOwned(backend: Backend, owned: Owned, k: Kind, name: string) returns (res: Result<Managed, Failure>)
    requires IdsName(backend.things)
    modifies backend`failed
    ensures backend.failed == old(backend.failed) + (if res == Err(BackendFailed) then 1 else 0)
    ensures res != Err(BackendFailed) ==>
              res == match GetThing(backend.things, k, owned.resourceId)
                     case None => Err(Missing(k))
                     case Some(t) =>
                       if t.name == name then Ok(Managed(ReuseOwned, t.id, t.name))
                       else
                         match FindThing(backend.things, k, name)
                         case Some(u) => Ok(Managed(ReuseExisting, u.id, u.name))
                         case None => Err(Renamed(k))
    ensures res.Ok? ==> Holds(backend.things, k, res.value, name)
  {
    hide GetThing, FindThing, IdsName;
    var got := backend.GetResource(k, owned.resourceId);
    if got.Err? { return Err(got.error); }
    if got.value.None? { return Err(Missing(k)); }
    var t := got.value.value;
    if t.name != name {
      var wanted := backend.FindByName(k, name);
      if wanted.Err? { return Err(wanted.error); }
      if wanted.value.None? { return Err(Renamed(k)); }
      FoundHolds(backend.things, wanted.value.value);
      return Ok(Managed(ReuseExisting, wanted.value.value.id, wanted.value.value.name));
    }
    FoundHolds(backend.things, t);
    return Ok(Managed(ReuseOwned, t.id, t.name));
  }

  /** What the ledger lacks: the resource of that name, created if there is none. */
  method ResolveByName(backend: Backend, dryRun: bool, k: Kind, name: string) returns (res: Result<Managed, Failure>)
    requires IdsName(backend.things)
    modifies backend`things, backend`created, backend`failed
    ensures backend.failed == old(backend.failed) + (if res == Err(BackendFailed) then 1 else 0)
    ensures res.Err? ==> res.error == BackendFailed
    ensures Grown(old(backend.things), backend.things, {k})
    ensures CreatedOnce(old(backend.things), old(backend.created)) ==> CreatedOnce(backend.things, backend.created)
    ensures var found := FindThing(old(backend.things), k, name);
            && (dryRun || found.Some? ==>
                  backend.things == old(backend.things) && backend.created == old(backend.created))
            && (res.Ok? ==>
                  if found.Some? then res.value == Managed(ReuseExisting, found.value.id, found.value.name)
                  else if dryRun then res.value == Managed(CreateNew, "planned:" + name, name)
                  else res.value.action == CreateNew)
    ensures res.Ok? && !dryRun ==> Holds(backend.things, k, res.value, name)
  {
    hide GetThing, FindThing, IdsName, CreatedOnce, NewThing;
    assert Grown(backend.things, backend.things, {k});
    var found := backend.FindByName(k, name);
    if found.Err? { return Err(found.error); }
    if found.value.Some? {
      FoundHolds(backend.things, found.value.value);
      return Ok(Managed(ReuseExisting, found.value.value.id, found.value.value.name));
    }
    if dryRun { return Ok(Managed(CreateNew, PLANNED + name, name)); }
    NewThingIs(backend.things, k, name);
    ghost var ts := backend.things;
    if CreatedOnce(ts, backend.created) { CreateKeepsOnce(ts, backend.created, k, name); }
    var created := backend.Create(k, name);
    if created.Err? { return Err(created.error); }
    assert created.value in backend.things;
    FoundHolds(backend.things, created.value);
    return Ok(Managed(CreateNew, created.value.id, created.value.name));
  }

  lemma NewThingIs(ts: seq<Thing>, k: Kind, name: string)
    requires IdsName(ts)
    ensures IdsName(ts + [NewThing(ts, k, name)])
    ensures NewThing(ts, k, name).kind == k && NewThing(ts, k, name).name == name
  {
    NewThingIsNew(ts, k, name);
  }

  // ---- One kind's turn within a run ----

  /** Nothing to create for this kind. */
  predicate Quiet(ts: seq<Thing>, l: Ledger, stack: string, k: Kind, name: Option<string>) {
    name.Some? ==>
      var r := Resolution(ts, l, stack, k, name.value);
      r.Err? || r.value.action != CreateNew
  }

  /** What a kind's turn reports: nothing for a kind without a name, else the resolution at the start
      of the run, with a new id in place of the planned one after a create; the resource is there. */
  predicate Reports(ts: seq<Thing>, ts': seq<Thing>, l: Ledger, stack: string, k: Kind, name: Option<string>,
                    dryRun: bool, m: Option<Managed>) {
    match name
    case None => m == None
    case Some(n) =>
      var r := Resolution(ts, l, stack, k, n);
      && m.Some? && r.Ok? && m.value.action == r.value.action
      && (dryRun || r.value.action != CreateNew ==> m.value == r.value)
      && (!dryRun ==> Holds(ts', k, m.value, n))
  }

  lemma ReportsGrow(ts: seq<Thing>, a: seq<Thing>, b: seq<Thing>, ks: set<Kind>, l: Ledger, stack: string, k: Kind,
                    name: Option<string>, dryRun: bool, m: Option<Managed>)
    requires Reports(ts, a, l, stack, k, name, dryRun, m) && Grown(a, b, ks)
    ensures Reports(ts, b, l, stack, k, name, dryRun, m)
  {
    hide Resolution, Holds, Grown;
    if name.Some? && !dryRun { GrownHolds(a, b, ks, k, m.value, name.value); }
  }

  /** `done` are the kinds that had their turn since `start`. */
  method ResolveOptional(backend: Backend, dryRun: bool, l: Ledger, stack: string, k: Kind, name: Option<string>,
                         ghost start: seq<Thing>, ghost done: set<Kind>)
    returns (res: Result<Option<Managed>, Failure>)
    requires Grown(start, backend.things, done) && k !in done
    modifies backend`things, backend`created, backend`failed
    ensures backend.failed == old(backend.failed) + (if res == Err(BackendFailed) then 1 else 0)
    ensures Grown(start, backend.things, done + {k}) && Grown(old(backend.things), backend.things, {k})
    ensures start <= backend.things && IdsName(backend.things)
    ensures CreatedOnce(old(backend.things), old(backend.created)) ==> CreatedOnce(backend.things, backend.created)
    ensures res.Ok? ==> Reports(start, backend.things, l, stack, k, name, dryRun, res.value)
    ensures res.Err? && res.error != BackendFailed ==>
              name.Some? && Resolution(start, l, stack, k, name.value) == Err(res.error)
    ensures Quiet(start, l, stack, k, name) || dryRun ==>
              backend.things == old(backend.things) && backend.created == old(backend.created)
  {
    hide Resolution, CreatedOnce, Holds, IdsName;
    ghost var before := backend.things;
    if name.None? { return Ok(None); }
    ResolutionApart(start, before, done, l, stack, k, name.value);
    var resolved := Resolve(backend, dryRun, l, stack, k, name.value);
    GrownTwice(start, before, backend.things, done, {k});
    if resolved.Err? { return Err(resolved.error); }
    return Ok(Some(resolved.value));
  }

  // ---- A run ----

  function NameIn(plan: P.SharedCorePlan, k: Kind): Option<string> {
    match k
    case Network => Some(plan.networkName)
    case Postgres => if plan.postgres.Some? then Some(plan.postgres.value.serviceName) else None
    case Redis => if plan.redis.Some? then Some(plan.redis.value.serviceName) else None
    case MailRelay => if plan.mailRelay.Some? then Some(plan.mailRelay.value.serviceName) else None
    case LiteLLM => if plan.litellm.Some? then Some(plan.litellm.value.serviceName) else None
  }

  datatype PhaseOutcome = NotRequired | PlanOnly | Applied | AlreadyPresent

  datatype Phase = Phase(
    outcome: PhaseOutcome, network: Option<Managed>, postgres: Option<Managed>, redis: Option<Managed>,
    mailRelay: Option<Managed>, litellm: Option<Managed>)
  {
    function Of(k: Kind): Option<Managed> {
      match k
      case Network => network
      case Postgres => postgres
      case Redis => redis
      case MailRelay => mailRelay
      case LiteLLM => litellm
    }

    predicate Creates() { exists k: Kind :: Of(k).Some? && Of(k).value.action == CreateNew }

    /** A dry run hands no id on. */
    function IdOf(k: Kind): Option<string> {
      if outcome == PlanOnly || Of(k).None? then None else Some(Of(k).value.id)
    }
  }

  function DeriveOutcome(actions: seq<Action>): PhaseOutcome {
    if CreateNew in actions then Applied else AlreadyPresent
  }

  function PostgresAllocations(ps: seq<P.PackAllocation>): seq<P.PostgresAllocation> {
    if ps == [] then []
    else (if ps[0].postgres.Some? then [ps[0].postgres.value] else []) + PostgresAllocations(ps[1..])
  }

  function WantedAllocations(plan: P.SharedCorePlan): seq<P.PostgresAllocation> {
    PostgresAllocations(plan.allocations) + if plan.litellm.Some? then [plan.litellm.value.postgres] else []
  }

  lemma {:induction false} AllocationsSnoc(ps: seq<P.PackAllocation>, p: P.PackAllocation)
    ensures PostgresAllocations(ps + [p])
            == PostgresAllocations(ps) + if p.postgres.Some? then [p.postgres.value] else []
  {
    var more := if p.postgres.Some? then [p.postgres.value] else [];
    if ps == [] {
      assert ps + [p] == [p] && [p][1..] == [];
      assert PostgresAllocations([]) == [] && more + [] == more && [] + more == more;
    } else {
      var h := if ps[0].postgres.Some? then [ps[0].postgres.value] else [];
      AllocationsSnoc(ps[1..], p);
      assert (ps + [p])[1..] == ps[1..] + [p] && (ps + [p])[0] == ps[0];
      Regroup(h, PostgresAllocations(ps[1..]), more);
    }
  }

  /** Pack by pack, what those places hold. */
  predicate Lists(ps: seq<P.PackAllocation>, at: seq<nat>, w: seq<P.PostgresAllocation>) {
    |at| == |w| && forall k :: 0 <= k < |at| ==> at[k] < |ps| && ps[at[k]].postgres == Some(w[k])
  }

  lemma {:induction false} AllocationsInOrder(ps: seq<P.PackAllocation>) returns (at: seq<nat>)
    ensures Picks(ps, at) && Lists(ps, at, PostgresAllocations(ps))
  {
    at := [];
    if ps != [] {
      hide Picks, Lists;
      var n := |ps| - 1;
      at := AllocationsInOrder(ps[..n]);
      AllocationsSnoc(ps[..n], ps[n]);
      assert ps == ps[..n] + [ps[n]];
      hide PostgresAllocations;
      OneMorePick(ps, n, at);
      OneMoreListed(ps, n, at, PostgresAllocations(ps[..n]));
      if ps[n].postgres.Some? { at := at + [n]; }
    }
  }

  lemma OneMoreListed(ps: seq<P.PackAllocation>, n: nat, at: seq<nat>, w: seq<P.PostgresAllocation>)
    requires n == |ps| - 1 && Lists(ps[..n], at, w)
    ensures if ps[n].postgres.Some? then Lists(ps, at + [n], w + [ps[n].postgres.value]) else Lists(ps, at, w)
    ensures w + [] == w
  {
    assert forall i :: 0 <= i < n ==> ps[..n][i] == ps[i];
  }

  lemma OneMorePick(ps: seq<P.PackAllocation>, n: nat, at: seq<nat>)
    requires n == |ps| - 1 && Picks(ps[..n], at)
    ensures Picks(ps, if ps[n].postgres.Some? then at + [n] else at)
  {
    forall i | 0 <= i < n && ps[i].postgres.Some? ensures i in at { assert ps[..n][i] == ps[i]; }
  }

  /** The places of all packs that have a PostgreSQL allocation, in order. */
  predicate Picks(ps: seq<P.PackAllocation>, at: seq<nat>) {
    && (forall k :: 0 <= k < |at| ==> at[k] < |ps|)
    && (forall j, k :: 0 <= j < k < |at| ==> at[j] < at[k])
    && forall i :: 0 <= i < |ps| && ps[i].postgres.Some? ==> i in at
  }

  /** What the server is asked for: each pack's PostgreSQL allocation in the plan's order, and LiteLLM's own
      behind them. */
  lemma WantedAre(plan: P.SharedCorePlan) returns (at: seq<nat>)
    ensures Picks(plan.allocations, at)
    ensures var w, n := WantedAllocations(plan), |at|;
            && |w| == n + (if plan.litellm.Some? then 1 else 0)
            && (forall k :: 0 <= k < n ==> plan.allocations[at[k]].postgres == Some(w[k]))
            && (plan.litellm.Some? ==> w[n] == plan.litellm.value.postgres)
  {
    at := AllocationsInOrder(plan.allocations);
  }

  function ActionOf(m: Option<Managed>): seq<Action> { if m.Some? then [m.value.action] else [] }

  predicate AllQuiet(ts: seq<Thing>, l: Ledger, stack: string, plan: P.SharedCorePlan) {
    forall k: Kind :: Quiet(ts, l, stack, k, NameIn(plan, k))
  }

  predicate AllReport(ts: seq<Thing>, ts': seq<Thing>, l: Ledger, stack: string, plan: P.SharedCorePlan, dryRun: bool,
                      phase: Phase) {
    forall k: Kind :: Reports(ts, ts', l, stack, k, NameIn(plan, k), dryRun, phase.Of(k))
  }

  /** A reported resource bears the name asked for. */
  lemma ReportedName(ts: seq<Thing>, ts': seq<Thing>, l: Ledger, stack: string, k: Kind, name: Option<string>,
                     dryRun: bool, m: Option<Managed>)
    requires Reports(ts, ts', l, stack, k, name, dryRun, m)
    ensures m.Some? <==> name.Some?
    ensures m.Some? ==> m.value.name == name.value
  {
    hide FindOwned, GetThing, FindThing;
    if name.Some? && dryRun { assert Resolution(ts, l, stack, k, name.value).Ok?; }
  }

  /** Each resource the plan names is reported under that name, and none else. */
  lemma PhaseNames(ts: seq<Thing>, ts': seq<Thing>, l: Ledger, stack: string, plan: P.SharedCorePlan, dryRun: bool,
                   phase: Phase)
    requires AllReport(ts, ts', l, stack, plan, dryRun, phase)
    ensures phase.network.Some? && phase.network.value.name == plan.networkName
    ensures if plan.postgres.Some? then
              phase.postgres.Some? && phase.postgres.value.name == plan.postgres.value.serviceName
            else phase.postgres == None
    ensures if plan.redis.Some? then phase.redis.Some? && phase.redis.value.name == plan.redis.value.serviceName
            else phase.redis == None
    ensures if plan.mailRelay.Some? then
              phase.mailRelay.Some? && phase.mailRelay.value.name == plan.mailRelay.value.serviceName
            else phase.mailRelay == None
    ensures if plan.litellm.Some? then phase.litellm.Some? && phase.litellm.value.name == plan.litellm.value.serviceName
            else phase.litellm == None
  {
    forall k: Kind
      ensures phase.Of(k).Some? <==> NameIn(plan, k).Some?
      ensures phase.Of(k).Some? ==> phase.Of(k).value.name == NameIn(plan, k).value
    {
      assert Reports(ts, ts', l, stack, k, NameIn(plan, k), dryRun, phase.Of(k));
      hide Reports, NameIn, AllReport;
      ReportedName(ts, ts', l, stack, k, NameIn(plan, k), dryRun, phase.Of(k));
    }
    hide AllReport, Reports;
    assert phase.Of(Network) == phase.network && phase.Of(Postgres) == phase.postgres;
    assert phase.Of(Redis) == phase.redis && phase.Of(MailRelay) == phase.mailRelay;
    assert phase.Of(LiteLLM) == phase.litellm;
  }

  /** The five turns, each seen from the start and the end of the run. */
  lemma TurnsReport(ts: seq<Thing>, a: seq<Thing>, b: seq<Thing>, c: seq<Thing>, d: seq<Thing>, e: seq<Thing>,
                    l: Ledger, stack: string, plan: P.SharedCorePlan, dryRun: bool, phase: Phase)
    requires Grown(a, b, {Postgres}) && Grown(b, c, {Redis}) && Grown(c, d, {MailRelay}) && Grown(d, e, {LiteLLM})
    requires Reports(ts, a, l, stack, Network, NameIn(plan, Network), dryRun, phase.network)
    requires Reports(ts, b, l, stack, Postgres, NameIn(plan, Postgres), dryRun, phase.postgres)
    requires Reports(ts, c, l, stack, Redis, NameIn(plan, Redis), dryRun, phase.redis)
    requires Reports(ts, d, l, stack, MailRelay, NameIn(plan, MailRelay), dryRun, phase.mailRelay)
    requires Reports(ts, e, l, stack, LiteLLM, NameIn(plan, LiteLLM), dryRun, phase.litellm)
    ensures AllReport(ts, e, l, stack, plan, dryRun, phase)
  {
    hide Reports, Grown, NameIn;
    GrownTwice(c, d, e, {MailRelay}, {LiteLLM});
    GrownTwice(b, c, e, {Redis}, {MailRelay} + {LiteLLM});
    GrownTwice(a, b, e, {Postgres}, {Redis} + ({MailRelay} + {LiteLLM}));
    ReportsGrow(ts, a, e, {Postgres} + ({Redis} + ({MailRelay} + {LiteLLM})), l, stack, Network, NameIn(plan, Network),
                dryRun, phase.network);
    ReportsGrow(ts, b, e, {Redis} + ({MailRelay} + {LiteLLM}), l, stack, Postgres, NameIn(plan, Postgres),
                dryRun, phase.postgres);
    ReportsGrow(ts, c, e, {MailRelay} + {LiteLLM}, l, stack, Redis, NameIn(plan, Redis), dryRun, phase.redis);
    ReportsGrow(ts, d, e, {LiteLLM}, l, stack, MailRelay, NameIn(plan, MailRelay), dryRun, phase.mailRelay);
  }

  lemma ActionsTell(phase: Phase)
    ensures var actions := ActionOf(phase.network) + ActionOf(phase.postgres) + ActionOf(phase.redis)
                           + ActionOf(phase.mailRelay) + ActionOf(phase.litellm);
            CreateNew in actions <==> phase.Creates()
  {
    var actions := ActionOf(phase.network) + ActionOf(phase.postgres) + ActionOf(phase.redis)
                   + ActionOf(phase.mailRelay) + ActionOf(phase.litellm);
    forall k: Kind ensures ActionOf(phase.Of(k)) == ActionOf(phase.network) || k != Network {
    }
    assert CreateNew in actions <==>
             CreateNew in ActionOf(phase.Of(Network)) || CreateNew in ActionOf(phase.Of(Postgres))
             || CreateNew in ActionOf(phase.Of(Redis)) || CreateNew in ActionOf(phase.Of(MailRelay))
             || CreateNew in ActionOf(phase.Of(LiteLLM));
    assert forall k: Kind ::
        CreateNew in ActionOf(phase.Of(k)) <==> phase.Of(k).Some? && phase.Of(k).value.action == CreateNew;
  }

  method Reconcile(backend: Backend, dryRun: bool, stack: string, plan: P.SharedCorePlan, l: Ledger)
    returns (res: Result<Phase, Failure>)
    requires IdsName(backend.things)
    modifies backend
    ensures backend.failed == old(backend.failed) + (if res == Err(BackendFailed) then 1 else 0)
    ensures old(backend.things) <= backend.things && IdsName(backend.things)
    ensures CreatedOnce(old(backend.things), old(backend.created)) ==> CreatedOnce(backend.things, backend.created)
    ensures dryRun || !plan.RequiresReconciliation() || AllQuiet(old(backend.things), l, stack, plan) ==>
              backend.things == old(backend.things) && backend.created == old(backend.created)
    ensures !plan.RequiresReconciliation() ==> res == Ok(Phase(NotRequired, None, None, None, None, None))
    ensures res.Ok? && plan.RequiresReconciliation() ==>
              && AllReport(old(backend.things), backend.things, l, stack, plan, dryRun, res.value)
              && res.value.outcome
                 == (if dryRun then PlanOnly else if res.value.Creates() then Applied else AlreadyPresent)
              && (!dryRun && plan.postgres.Some? ==> backend.allocations == WantedAllocations(plan))
    ensures res.Err? && res.error != BackendFailed ==>
              exists k: Kind :: NameIn(plan, k).Some?
                && Resolution(old(backend.things), l, stack, k, NameIn(plan, k).value) == Err(res.error)
  {
    hide Resolution, CreatedOnce, IdsName, Reports, Quiet, Grown, NameIn, WantedAllocations, AllReport;
    hide ActionOf, Phase.Creates, P.SharedCorePlan.RequiresReconciliation;
    ghost var ts := backend.things;
    GrownItself(ts);
    if !plan.RequiresReconciliation() { return Ok(Phase(NotRequired, None, None, None, None, None)); }
    var network := ResolveOptional(backend, dryRun, l, stack, Network, NameIn(plan, Network), ts, {});
    if network.Err? { return Err(network.error); }
    ghost var ts1 := backend.things;
    var postgres := ResolveOptional(backend, dryRun, l, stack, Postgres, NameIn(plan, Postgres), ts, {} + {Network});
    if postgres.Err? { return Err(postgres.error); }
    ghost var ts2 := backend.things;
    var redis := ResolveOptional(backend, dryRun, l, stack, Redis, NameIn(plan, Redis), ts,
                                 {} + {Network} + {Postgres});
    if redis.Err? { return Err(redis.error); }
    ghost var ts3 := backend.things;
    var mailRelay := ResolveOptional(backend, dryRun, l, stack, MailRelay, NameIn(plan, MailRelay), ts,
                                     {} + {Network} + {Postgres} + {Redis});
    if mailRelay.Err? { return Err(mailRelay.error); }
    ghost var ts4 := backend.things;
    var litellm := ResolveOptional(backend, dryRun, l, stack, LiteLLM, NameIn(plan, LiteLLM), ts,
                                   {} + {Network} + {Postgres} + {Redis} + {MailRelay});
    if litellm.Err? { return Err(litellm.error); }
    var actions := ActionOf(network.value) + ActionOf(postgres.value) + ActionOf(redis.value)
                   + ActionOf(mailRelay.value) + ActionOf(litellm.value);
    var outcome := if dryRun then PlanOnly else DeriveOutcome(actions);
    var phase := Phase(outcome, network.value, postgres.value, redis.value, mailRelay.value, litellm.value);
    TurnsReport(ts, ts1, ts2, ts3, ts4, backend.things, l, stack, plan, dryRun, phase);
    ActionsTell(phase);
    if !dryRun && plan.postgres.Some? {
      var ensured := backend.EnsurePostgresAllocations(WantedAllocations(plan));
      if ensured.Err? { return Err(ensured.error); }
    }
    return Ok(phase);
  }

  lemma GrownItself(ts: seq<Thing>)
    requires IdsName(ts)
    ensures Grown(ts, ts, {})
  {}

  // ---- The ledger after a run ----

  method KeepUnshared(rs: seq<Owned>) returns (kept: seq<Owned>)
    ensures kept == Unshared(rs)
  {
    hide TypeOf;
    kept := [];
    for i := 0 to |rs|
      invariant Unshared(rs) == kept + Unshared(rs[i..])
    {
      assert rs[i..][0] == rs[i] && rs[i..][1..] == rs[i + 1..];
      if !SharedType(rs[i].resourceType) {
        Regroup(kept, [rs[i]], Unshared(rs[i + 1..]));
        kept := kept + [rs[i]];
      }
    }
    assert rs[|rs|..] == [];
  }

  lemma WithNoEntry(rs: seq<Owned>)
    ensures rs + [] == rs
  {}

  method BuildLedger(l: Ledger, stack: string, phase: Phase) returns (after: Ledger)
    ensures after == LedgerAfter(l, stack, k => phase.IdOf(k))
  {
    hide TypeOf, Scope, Unshared, Phase.IdOf;
    var resources := KeepUnshared(l.resources);
    WithNoEntry(resources);
    if phase.IdOf(Network).Some? {
      resources := resources + [Owned(TypeOf(Network), phase.IdOf(Network).value, Scope(stack, Network))];
    }
    WithNoEntry(resources);
    if phase.IdOf(Postgres).Some? {
      resources := resources + [Owned(TypeOf(Postgres), phase.IdOf(Postgres).value, Scope(stack, Postgres))];
    }
    WithNoEntry(resources);
    if phase.IdOf(Redis).Some? {
      resources := resources + [Owned(TypeOf(Redis), phase.IdOf(Redis).value, Scope(stack, Redis))];
    }
    WithNoEntry(resources);
    if phase.IdOf(MailRelay).Some? {
      resources := resources + [Owned(TypeOf(MailRelay), phase.IdOf(MailRelay).value, Scope(stack, MailRelay))];
    }
    WithNoEntry(resources);
    if phase.IdOf(LiteLLM).Some? {
      resources := resources + [Owned(TypeOf(LiteLLM), phase.IdOf(LiteLLM).value, Scope(stack, LiteLLM))];
    }
    return Ledger(l.formatVersion, resources);
  }

  predicate SharedType(t: string)
    ensures forall o: Owned :: o.resourceType == t ==> (SharedType(t) <==> IsShared(o))
  {
    || t == TypeOf(Network) || t == TypeOf(Postgres) || t == TypeOf(Redis) || t == TypeOf(MailRelay)
    || t == TypeOf(LiteLLM)
  }

  function OfType(rs: seq<Owned>, t: string): seq<Owned> {
    if rs == [] then []
    else if rs[0].resourceType == t then [rs[0]] + OfType(rs[1..], t)
    else OfType(rs[1..], t)
  }

  lemma {:induction false} OfTypeJoins(a: seq<Owned>, b: seq<Owned>, t: string)
    ensures OfType(a + b, t) == OfType(a, t) + OfType(b, t)
  {
    if a == [] {
      assert a + b == b;
    } else {
      OfTypeJoins(a[1..], b, t);
      assert (a + b)[1..] == a[1..] + b && (a + b)[0] == a[0];
      Regroup([a[0]], OfType(a[1..], t), OfType(b, t));
    }
  }

  lemma {:induction false} UnsharedJoins(a: seq<Owned>, b: seq<Owned>)
    ensures Unshared(a + b) == Unshared(a) + Unshared(b)
  {
    hide IsShared;
    if a == [] {
      assert a + b == b;
    } else {
      UnsharedJoins(a[1..], b);
      assert (a + b)[1..] == a[1..] + b && (a + b)[0] == a[0];
      Regroup([a[0]], Unshared(a[1..]), Unshared(b));
    }
  }

  lemma {:induction false} UnsharedHasNone(rs: seq<Owned>, k: Kind)
    ensures OfType(Unshared(rs), TypeOf(k)) == []
    ensures Unshared(Unshared(rs)) == Unshared(rs)
  {
    hide TypeOf;
    if rs != [] { UnsharedHasNone(rs[1..], k); }
  }

  /** One more entry, seen by type. */
  lemma EntryJoins(rs: seq<Owned>, stack: string, ids: Ids, j: Kind, k: Kind)
    ensures OfType(rs + Entry(stack, ids, j), TypeOf(k))
            == OfType(rs, TypeOf(k)) + if j == k then Entry(stack, ids, j) else []
    ensures Unshared(rs + Entry(stack, ids, j)) == Unshared(rs)
  {
    hide TypeOf, Scope;
    TypesAreDistinct(j, k);
    var e := Entry(stack, ids, j);
    OfTypeJoins(rs, e, TypeOf(k));
    UnsharedJoins(rs, e);
    if ids(j).Some? { assert IsShared(e[0]); }
    assert Unshared(rs) + [] == Unshared(rs);
  }

  /** Of each shared type the new ledger holds just the run's entry, and the other entries as before,
      in order. */
  lemma LedgerHolds(l: Ledger, stack: string, ids: Ids, k: Kind)
    ensures var after := LedgerAfter(l, stack, ids);
            && OfType(after.resources, TypeOf(k)) == Entry(stack, ids, k) && |Entry(stack, ids, k)| <= 1
            && Unshared(after.resources) == Unshared(l.resources)
            && after.formatVersion == l.formatVersion
  {
    hide Unshared, OfType, TypeOf, Scope;
    var u := Unshared(l.resources);
    UnsharedHasNone(l.resources, k);
    EntryJoins(u, stack, ids, Network, k);
    var v := u + Entry(stack, ids, Network);
    EntryJoins(v, stack, ids, Postgres, k);
    var w := v + Entry(stack, ids, Postgres);
    EntryJoins(w, stack, ids, Redis, k);
    var x := w + Entry(stack, ids, Redis);
    EntryJoins(x, stack, ids, MailRelay, k);
    EntryJoins(x + Entry(stack, ids, MailRelay), stack, ids, LiteLLM, k);
  }

  lemma {:induction false} MatchesAreOfType(rs: seq<Owned>, t: string, scope: string)
    ensures Matches(rs, t, scope) == Matches(OfType(rs, t), t, scope)
  {
    if rs != [] { MatchesAreOfType(rs[1..], t, scope); }
  }

  lemma LedgerFinds(l: Ledger, stack: string, ids: Ids, k: Kind)
    ensures FindOwned(LedgerAfter(l, stack, ids), stack, k)
            == Ok(if ids(k).None? then None else Some(Owned(TypeOf(k), ids(k).value, Scope(stack, k))))
  {
    LedgerHolds(l, stack, ids, k);
    MatchesAreOfType(LedgerAfter(l, stack, ids).resources, TypeOf(k), Scope(stack, k));
    hide TypeOf, Scope, LedgerAfter, OfType;
  }

  // ---- The fixpoint ----

  /** Every resource of the plan is in the ledger and on the backend, under its name. */
  predicate Settled(ts: seq<Thing>, l: Ledger, stack: string, plan: P.SharedCorePlan) {
    forall k: Kind :: NameIn(plan, k).Some? ==>
      var r := Resolution(ts, l, stack, k, NameIn(plan, k).value);
      r.Ok? && r.value.action == ReuseOwned
  }

  /** After a completed run and the ledger it leaves, the next run reuses everything as owned. */
  lemma CompletedRunSettles(ts: seq<Thing>, ts': seq<Thing>, l: Ledger, stack: string, plan: P.SharedCorePlan,
                            phase: Phase)
    requires AllReport(ts, ts', l, stack, plan, false, phase) && phase.outcome != PlanOnly
    ensures Settled(ts', LedgerAfter(l, stack, k => phase.IdOf(k)), stack, plan)
  {
    var ids := k => phase.IdOf(k);
    var after := LedgerAfter(l, stack, ids);
    forall k: Kind | NameIn(plan, k).Some?
      ensures var r := Resolution(ts', after, stack, k, NameIn(plan, k).value); r.Ok? && r.value.action == ReuseOwned
    {
      LedgerFinds(l, stack, ids, k);
      assert Reports(ts, ts', l, stack, k, NameIn(plan, k), false, phase.Of(k));
      hide FindOwned, NameIn, GetThing, FindThing, TypeOf, Scope, LedgerAfter;
      assert ids(k) == Some(phase.Of(k).value.id);
    }
  }

  /** Settled, a run that is not dry reuses everything as owned and reports it already present. */
  lemma SettledRunReuses(ts: seq<Thing>, ts': seq<Thing>, l: Ledger, stack: string, plan: P.SharedCorePlan,
                         phase: Phase)
    requires Settled(ts, l, stack, plan) && AllReport(ts, ts', l, stack, plan, false, phase)
    ensures AllQuiet(ts, l, stack, plan) && !phase.Creates()
    ensures forall k: Kind :: phase.Of(k).Some? ==> phase.Of(k).value.action == ReuseOwned
  {
    hide Resolution, NameIn, Holds;
    forall k: Kind ensures phase.Of(k).Some? ==> phase.Of(k).value.action == ReuseOwned {
      assert Reports(ts, ts', l, stack, k, NameIn(plan, k), false, phase.Of(k));
    }
  }

  // ---- Any number of runs ----

  /** Everything the plan asks for exists under its name, whatever the ledger says. */
  predicate Present(ts: seq<Thing>, plan: P.SharedCorePlan) {
    plan.RequiresReconciliation() ==>
      forall k: Kind :: NameIn(plan, k).Some? ==> FindThing(ts, k, NameIn(plan, k).value).Some?
  }

  lemma PresentGrows(ts: seq<Thing>, ts': seq<Thing>, plan: P.SharedCorePlan)
    requires Present(ts, plan) && ts <= ts'
    ensures Present(ts', plan)
  {
    hide NameIn, FindThing, P.SharedCorePlan.RequiresReconciliation;
    if plan.RequiresReconciliation() {
      forall k: Kind | NameIn(plan, k).Some? ensures FindThing(ts', k, NameIn(plan, k).value).Some? {
        var t := FindThing(ts, k, NameIn(plan, k).value).value;
        var i :| 0 <= i < |ts| && ts[i] == t;
        assert ts'[i] == t;
      }
    }
  }

  /** What is present is not created, under any ledger. */
  lemma PresentIsQuiet(ts: seq<Thing>, l: Ledger, stack: string, plan: P.SharedCorePlan)
    requires Present(ts, plan)
    ensures !plan.RequiresReconciliation() || AllQuiet(ts, l, stack, plan)
  {
    hide NameIn, FindThing, GetThing, FindOwned, P.SharedCorePlan.RequiresReconciliation;
  }

  lemma CompletedIsPresent(ts: seq<Thing>, ts': seq<Thing>, l: Ledger, stack: string, plan: P.SharedCorePlan,
                           phase: Phase)
    requires AllReport(ts, ts', l, stack, plan, false, phase)
    ensures Present(ts', plan)
  {
    forall k: Kind | NameIn(plan, k).Some? ensures FindThing(ts', k, NameIn(plan, k).value).Some? {
      assert Reports(ts, ts', l, stack, k, NameIn(plan, k), false, phase.Of(k));
      hide Resolution, NameIn, GetThing, FindThing;
      assert Holds(ts', k, phase.Of(k).value, NameIn(plan, k).value);
    }
  }

  /** More things do not unsettle a plan. */
  lemma SettledGrows(ts: seq<Thing>, ts': seq<Thing>, l: Ledger, stack: string, plan: P.SharedCorePlan)
    requires Settled(ts, l, stack, plan) && ts <= ts' && IdsName(ts')
    ensures Settled(ts', l, stack, plan)
  {
    hide NameIn, FindOwned, GetThing, FindThing, IdsName;
    forall k: Kind | NameIn(plan, k).Some?
      ensures var r := Resolution(ts', l, stack, k, NameIn(plan, k).value); r.Ok? && r.value.action == ReuseOwned
    {
      var t := GetThing(ts, k, FindOwned(l, stack, k).value.value.resourceId).value;
      var i :| 0 <= i < |ts| && ts[i] == t;
      assert ts'[i] == t;
      FoundHolds(ts', t);
    }
  }

  /** The plan of the last ledger kept, if any, is settled. */
  predicate LastSettled(ts: seq<Thing>, l: Ledger, stack: string, kept: seq<P.SharedCorePlan>) {
    kept != [] ==>
      var last := |kept| - 1;
      kept[last].RequiresReconciliation() ==> Settled(ts, l, stack, kept[last])
  }

  lemma LastSettledGrows(ts: seq<Thing>, ts': seq<Thing>, l: Ledger, stack: string, kept: seq<P.SharedCorePlan>)
    requires LastSettled(ts, l, stack, kept) && ts <= ts' && IdsName(ts')
    ensures LastSettled(ts', l, stack, kept)
  {
    hide Settled, IdsName, P.SharedCorePlan.RequiresReconciliation;
    if kept != [] && kept[|kept| - 1].RequiresReconciliation() {
      SettledGrows(ts, ts', l, stack, kept[|kept| - 1]);
    }
  }

  /** A run for each plan in turn, free to fail or stop anywhere, its ledger kept or lost. Every kind and
      name is created at most once over all of them. A plan once completed is present for good, and runs
      for present plans create nothing under any ledger; the plan of the last ledger kept is settled. */
  method Runs(backend: Backend, stack: string, plans: seq<P.SharedCorePlan>, ledger: Ledger)
    returns (last: Ledger, completed: seq<P.SharedCorePlan>, kept: seq<P.SharedCorePlan>, stopped: seq<Failure>)
    requires IdsName(backend.things) && CreatedOnce(backend.things, backend.created)
    modifies backend
    ensures IdsName(backend.things) && CreatedOnce(backend.things, backend.created)
    ensures old(backend.things) <= backend.things
    ensures |completed| + |stopped| == |plans|
    ensures CallsFailed(stopped) == backend.failed - old(backend.failed)
    ensures forall p <- completed :: p in plans && Present(backend.things, p)
    ensures forall p <- kept :: p in completed
    ensures (forall p <- plans :: Present(old(backend.things), p)) ==>
              backend.things == old(backend.things) && backend.created == old(backend.created)
    ensures LastSettled(backend.things, last, stack, kept) && (kept == [] ==> last == ledger)
    ensures Unshared(last.resources) == Unshared(ledger.resources)
  {
    hide IdsName, CreatedOnce, Settled, AllReport, AllQuiet, Unshared, LedgerAfter, Present, Phase.Creates;
    hide LastSettled, P.SharedCorePlan.RequiresReconciliation;
    last, completed, kept, stopped := ledger, [], [], [];
    assert LastSettled(backend.things, last, stack, kept) by { NothingKept(backend.things, last, stack); }
    for i := 0 to |plans|
      invariant IdsName(backend.things) && CreatedOnce(backend.things, backend.created)
      invariant old(backend.things) <= backend.things
      invariant |completed| + |stopped| == i
      invariant CallsFailed(stopped) == backend.failed - old(backend.failed)
      invariant forall p <- completed :: p in plans && Present(backend.things, p)
      invariant forall p <- kept :: p in completed
      invariant (forall p <- plans :: Present(old(backend.things), p)) ==>
                  backend.things == old(backend.things) && backend.created == old(backend.created)
      invariant LastSettled(backend.things, last, stack, kept) && (kept == [] ==> last == ledger)
      invariant Unshared(last.resources) == Unshared(ledger.resources)
    {
      ghost var ts := backend.things;
      var plan := plans[i];
      if Present(ts, plan) { PresentIsQuiet(ts, last, stack, plan); }
      var phase := Reconcile(backend, false, stack, plan, last);
      forall p | p in completed ensures Present(backend.things, p) { PresentGrows(ts, backend.things, p); }
      LastSettledGrows(ts, backend.things, last, stack, kept);
      if phase.Ok? {
        RunCompletes(ts, backend.things, last, stack, plan, phase.value);
        completed := completed + [plan];
        var next := BuildLedger(last, stack, phase.value);
        LedgerHolds(last, stack, k => phase.value.IdOf(k), Network);
        if * { last, kept := next, kept + [plan]; }
      } else {
        assert (stopped + [phase.error])[..|stopped|] == stopped;
        stopped := stopped + [phase.error];
      }
    }
  }

  /** How many runs a failed call stopped; the others stopped over their ledger. */
  function CallsFailed(stopped: seq<Failure>): nat {
    if stopped == [] then 0
    else CallsFailed(stopped[..|stopped| - 1]) + if stopped[|stopped| - 1] == BackendFailed then 1 else 0
  }

  lemma NothingKept(ts: seq<Thing>, l: Ledger, stack: string)
    ensures LastSettled(ts, l, stack, [])
  {}

  /** What a completed run leaves, whether or not its plan requires anything. */
  lemma RunCompletes(ts: seq<Thing>, ts': seq<Thing>, l: Ledger, stack: string, plan: P.SharedCorePlan, phase: Phase)
    requires plan.RequiresReconciliation() ==>
               AllReport(ts, ts', l, stack, plan, false, phase) && phase.outcome != PlanOnly
    ensures Present(ts', plan)
    ensures forall kept: seq<P.SharedCorePlan> ::
              LastSettled(ts', LedgerAfter(l, stack, k => phase.IdOf(k)), stack, kept + [plan])
  {
    if plan.RequiresReconciliation() {
      CompletedIsPresent(ts, ts', l, stack, plan, phase);
      CompletedRunSettles(ts, ts', l, stack, plan, phase);
    }
    hide Settled, AllReport, Present, LedgerAfter, P.SharedCorePlan.RequiresReconciliation;
  }
}
