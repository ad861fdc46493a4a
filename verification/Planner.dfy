/** The shared-core planner (`core/planner.py`): the default model alias order, the model-list parsers
    and the plan built from a stack's packs. */
module Planner {
  import opened Text
  import opened PlanModels

  type Env = map<string, string>

  function OptionalValue(values: Env, key: string): (r: Option<string>)
    ensures r.Some? ==> r.value != ""
  {
    if key in values && Strip(values[key]) != "" then Some(Strip(values[key])) else None
  }

  // ---- Aliases ----

  const LOCAL_PROVIDER := "local-model.internal"
  const LOCAL_ALIAS := "local-model.internal/unsloth-active"
  const FALLBACK := ["opencode-go/deepseek-v4.1-flash"]
  const OPENROUTER := "openrouter"
  const NVIDIA := "nvidia"

  function CanonicalProvider(provider: string): string {
    var normalized := Lower(Strip(provider));
    if normalized == "opencode" then "opencode-go" else normalized
  }

  function AiDefaultAlias(values: Env): (r: Option<string>)
    ensures r.Some? ==> r.value != ""
  {
    match (OptionalValue(values, "AI_DEFAULT_PROVIDER"), OptionalValue(values, "AI_DEFAULT_MODEL"))
    case (Some(provider), Some(model)) =>
      var canonical := CanonicalProvider(provider);
      var slug := if canonical == "local" then LOCAL_PROVIDER else canonical;
      if slug + "/" <= model then Some(model) else Some(slug + "/" + model)
    case _ => None
  }

  /** The part before the first slash. */
  function Slug(alias: string): string { alias[..IndexOf(alias, '/')] }

  predicate IsLocal(alias: string) { Slug(alias) == LOCAL_PROVIDER || Contains(Slug(alias), '.') }

  predicate LocalConfigured(values: Env) {
    && OptionalValue(values, "LITELLM_LOCAL_BASE_URL").Some? && OptionalValue(values, "LITELLM_LOCAL_MODEL").Some?
    && OptionalValue(values, "LITELLM_LOCAL_API_KEY").Some?
  }

  predicate OpenrouterConfigured(values: Env) {
    OptionalValue(values, "LITELLM_OPENROUTER_API_KEY").Some? && OpenrouterModels(values) != []
  }

  predicate NvidiaConfigured(values: Env) {
    && OptionalValue(values, "LITELLM_NVIDIA_API_KEY").Some?
    && (OptionalValue(values, "LITELLM_NVIDIA_BASE_URL").Some? || OptionalValue(values, "NVIDIA_BASE_URL").Some?)
  }

  function LocalAlias(values: Env): string {
    match AiDefaultAlias(values)
    case Some(alias) => if IsLocal(alias) then alias else LOCAL_ALIAS
    case None => LOCAL_ALIAS
  }

  predicate HasActiveUpstream(alias: string, values: Env) {
    if IsLocal(alias) then LocalConfigured(values)
    else if Slug(alias) == OPENROUTER then OpenrouterConfigured(values)
    else if Slug(alias) == "opencode-go" then OptionalValue(values, "LITELLM_OPENCODE_GO_API_KEY").Some?
    else if Slug(alias) == NVIDIA then
      NvidiaConfigured(values) && (Some(alias) == AiDefaultAlias(values) || alias in Aliases(NvidiaModels(values)))
    else true
  }

  // ---- Model lists ----

  datatype Route = Route(alias: string, target: string)

  function Aliases(rs: seq<Route>): seq<string> { seq(|rs|, i requires 0 <= i < |rs| => rs[i].alias) }

  /** `str.split` at one character. */
  function Split(s: string, c: char): (parts: seq<string>)
    decreases |s|
  {
    var i := IndexOf(s, c);
    if i == |s| then [s] else [s[..i]] + Split(s[i + 1..], c)
  }

  function NormalizeRef(provider: string, ref: string): string {
    if ref == "" || provider + "/" <= ref then ref else provider + "/" + ref
  }

  function NormalizeNvidiaRef(ref: string): string {
    if ref == "" || "nvidia/" <= ref then ref
    else if ref == "nvidia/moonshot/kimi-k2.5" then "nvidia/moonshotai/kimi-k2.5"
    else "nvidia/" + ref
  }

  /** The rewrite of one model name is never reached. */
  lemma NvidiaRewriteIsDead(ref: string)
    ensures NormalizeNvidiaRef(ref) == NormalizeRef(NVIDIA, ref)
    ensures NormalizeNvidiaRef("nvidia/moonshot/kimi-k2.5") == "nvidia/moonshot/kimi-k2.5"
  {
    var kimi := "nvidia/moonshot/kimi-k2.5";
    assert kimi[..7] == "nvidia/";
    assert NVIDIA + "/" == "nvidia/";
  }

  function RouteOf(provider: string, item: string): Option<Route> {
    var i := Strip(item);
    var at := IndexOf(i, '=');
    var alias := NormalizeRef(provider, if at < |i| then Strip(i[..at]) else i);
    var target := NormalizeRef(provider, if at < |i| then Strip(i[at + 1..]) else i);
    if alias != "" && target != "" then Some(Route(alias, target)) else None
  }

  function Routes(provider: string, items: seq<string>): seq<Route> {
    if items == [] then []
    else
      var n := |items| - 1;
      Routes(provider, items[..n]) + match RouteOf(provider, items[n]) case Some(r) => [r] case None => []
  }

  function Models(provider: string, raw: Option<string>): seq<Route> {
    if raw.None? then [] else Routes(provider, Split(raw.value, ','))
  }

  function OpenrouterModels(values: Env): seq<Route> {
    Models(OPENROUTER, OptionalValue(values, "LITELLM_OPENROUTER_MODELS"))
  }

  function NvidiaModels(values: Env): seq<Route> {
    Models(NVIDIA, OptionalValue(values, "LITELLM_NVIDIA_MODELS"))
  }

  method ParseOpenrouterModels(values: Env) returns (routes: seq<Route>)
    ensures routes == OpenrouterModels(values)
  {
    hide Split, Strip, IndexOf, NormalizeRef;
    var raw := OptionalValue(values, "LITELLM_OPENROUTER_MODELS");
    if raw.None? { return []; }
    var items := Split(raw.value, ',');
    routes := [];
    for n := 0 to |items|
      invariant routes == Routes(OPENROUTER, items[..n])
    {
      assert items[..n + 1][..n] == items[..n];
      var item := Strip(items[n]);
      if item == "" {
        NothingInBlank(OPENROUTER, items[n]);
        continue;
      }
      var at := IndexOf(item, '=');
      var alias := NormalizeRef(OPENROUTER, item);
      var target := alias;
      if at < |item| {
        alias := NormalizeRef(OPENROUTER, Strip(item[..at]));
        target := NormalizeRef(OPENROUTER, Strip(item[at + 1..]));
      }
      if alias != "" && target != "" { routes := routes + [Route(alias, target)]; }
    }
    assert items[..|items|] == items;
  }

  method ParseNvidiaModels(values: Env) returns (routes: seq<Route>)
    ensures routes == NvidiaModels(values)
  {
    hide Split, Strip, IndexOf, NormalizeNvidiaRef, NormalizeRef;
    var raw := OptionalValue(values, "LITELLM_NVIDIA_MODELS");
    if raw.None? { return []; }
    var items := Split(raw.value, ',');
    routes := [];
    for n := 0 to |items|
      invariant routes == Routes(NVIDIA, items[..n])
    {
      assert items[..n + 1][..n] == items[..n];
      var item := Strip(items[n]);
      if item == "" {
        NothingInBlank(NVIDIA, items[n]);
        continue;
      }
      var at := IndexOf(item, '=');
      NvidiaRewriteIsDead(item);
      var alias := NormalizeNvidiaRef(item);
      var target := alias;
      if at < |item| {
        NvidiaRewriteIsDead(Strip(item[..at]));
        NvidiaRewriteIsDead(Strip(item[at + 1..]));
        alias := NormalizeNvidiaRef(Strip(item[..at]));
        target := NormalizeNvidiaRef(Strip(item[at + 1..]));
      }
      if alias != "" && target != "" { routes := routes + [Route(alias, target)]; }
    }
    assert items[..|items|] == items;
  }

  lemma NothingInBlank(provider: string, item: string)
    requires Strip(item) == ""
    ensures RouteOf(provider, item) == None
  {
    hide Strip;
  }

  /** Every alias read from a list bears its provider's prefix. */
  lemma {:induction false} RoutesBearPrefix(provider: string, items: seq<string>)
    ensures forall r <- Routes(provider, items) :: provider + "/" <= r.alias && provider + "/" <= r.target
  {
    hide Strip, IndexOf;
    if items != [] { RoutesBearPrefix(provider, items[..|items| - 1]); }
  }

  // ---- The alias order ----

  /** First occurrences, in order. */
  function Dedupe(ss: seq<string>): (r: seq<string>)
    ensures forall s :: s in r <==> s in ss
    ensures forall i, j | 0 <= i < |r| && 0 <= j < |r| :: r[i] == r[j] ==> i == j
    ensures ss != [] ==> r != [] && r[0] == ss[0]
  {
    if ss == [] then []
    else
      var n := |ss| - 1;
      assert ss == ss[..n] + [ss[n]];
      var d := Dedupe(ss[..n]);
      if ss[n] in d then d else d + [ss[n]]
  }

  /** The AI default, when it is set and active. */
  function DefaultPart(values: Env): seq<string> {
    var d := AiDefaultAlias(values);
    if d.Some? && HasActiveUpstream(d.value, values) then [d.value] else []
  }

  function LocalPart(values: Env): seq<string> { if LocalConfigured(values) then [LocalAlias(values)] else [] }

  function OpenrouterPart(values: Env): seq<string> {
    if OpenrouterConfigured(values) then Aliases(OpenrouterModels(values)) else []
  }

  function NvidiaPart(values: Env): seq<string> {
    if NvidiaConfigured(values) then Aliases(NvidiaModels(values)) else []
  }

  /** The aliases in the order they are collected. */
  function Collected(values: Env): seq<string> {
    DefaultPart(values) + LocalPart(values) + OpenrouterPart(values) + NvidiaPart(values)
  }

  function AliasOrder(values: Env): seq<string> {
    if Dedupe(Collected(values)) == [] then FALLBACK else Dedupe(Collected(values))
  }

  method BuildAliasOrder(values: Env) returns (order: seq<string>)
    ensures order == AliasOrder(values)
  {
    hide *;
    var aliases: seq<string> := [];
    var aiDefault := AiDefaultAlias(values);
    PartsAre(values);
    if aiDefault.Some? && HasActiveUpstream(aiDefault.value, values) { aliases := aliases + [aiDefault.value]; }
    NothingMore(DefaultPart(values));
    if LocalConfigured(values) { aliases := aliases + [LocalAlias(values)]; }
    NothingMore(DefaultPart(values) + LocalPart(values));
    var openrouter := ParseOpenrouterModels(values);
    if OptionalValue(values, "LITELLM_OPENROUTER_API_KEY").Some? && openrouter != [] {
      aliases := aliases + Aliases(openrouter);
    }
    NothingMore(DefaultPart(values) + LocalPart(values) + OpenrouterPart(values));
    if NvidiaConfigured(values) {
      var nvidia := ParseNvidiaModels(values);
      aliases := aliases + Aliases(nvidia);
    }
    NothingMore(aliases);
    assert aliases == DefaultPart(values) + LocalPart(values) + OpenrouterPart(values) + NvidiaPart(values);
    OrderIs(values);
    order := Dedupe(aliases);
    if order == [] { order := FALLBACK; }
  }

  lemma NothingMore(ss: seq<string>)
    ensures ss + [] == ss && [] + ss == ss
  {}

  lemma OrderIs(values: Env)
    ensures var d := Dedupe(DefaultPart(values) + LocalPart(values) + OpenrouterPart(values) + NvidiaPart(values));
            AliasOrder(values) == if d == [] then FALLBACK else d
  {
    hide Dedupe, DefaultPart, LocalPart, OpenrouterPart, NvidiaPart;
  }

  lemma PartsAre(values: Env)
    ensures var d := AiDefaultAlias(values);
            DefaultPart(values) == if d.Some? && HasActiveUpstream(d.value, values) then [d.value] else []
    ensures LocalPart(values) == if LocalConfigured(values) then [LocalAlias(values)] else []
    ensures OpenrouterPart(values)
            == if OptionalValue(values, "LITELLM_OPENROUTER_API_KEY").Some? && OpenrouterModels(values) != []
               then Aliases(OpenrouterModels(values)) else []
    ensures NvidiaPart(values) == if NvidiaConfigured(values) then Aliases(NvidiaModels(values)) else []
  {
    hide AiDefaultAlias, HasActiveUpstream, LocalConfigured, LocalAlias;
    hide OpenrouterModels, NvidiaConfigured, NvidiaModels;
    hide Aliases, OptionalValue;
  }

  lemma SlugOfPrefixed(provider: string, alias: string)
    requires provider + "/" <= alias && Plain(provider)
    ensures Slug(alias) == provider && alias != "" && !Contains(Slug(alias), '.')
  {
    var n := |provider|;
    assert alias[n] == '/' && alias[..n] == provider;
    forall i | 0 <= i < n ensures alias[i] != '/' { assert alias[i] == provider[i]; }
  }

  /** No slash and no dot. */
  predicate Plain(s: string) { forall i :: 0 <= i < |s| ==> s[i] != '/' && s[i] != '.' }

  lemma OpenrouterIsPlain()
    ensures Plain(OPENROUTER)
  {
    assert OPENROUTER == ['o', 'p', 'e', 'n', 'r', 'o', 'u', 't', 'e', 'r'];
  }

  lemma NvidiaIsPlain()
    ensures Plain(NVIDIA)
  {
    assert NVIDIA == ['n', 'v', 'i', 'd', 'i', 'a'];
  }

  lemma ProvidersDiffer()
    ensures OPENROUTER != LOCAL_PROVIDER && NVIDIA != LOCAL_PROVIDER && NVIDIA != OPENROUTER && NVIDIA != "opencode-go"
  {
    assert |LOCAL_PROVIDER| == 20 && |OPENROUTER| == 10 && |NVIDIA| == 6 && |"opencode-go"| == 11;
  }

  lemma LocalAliasIsLocal()
    ensures IsLocal(LOCAL_ALIAS)
  {
    var alias := LOCAL_ALIAS;
    assert alias[..11] == ['l', 'o', 'c', 'a', 'l', '-', 'm', 'o', 'd', 'e', 'l'];
    forall i | 0 <= i < 11 ensures alias[i] != '/' { assert alias[..11][i] == alias[i]; }
    DotBeforeSlash(alias, 11);
  }

  /** A dot before the first slash marks a local alias. */
  lemma DotBeforeSlash(alias: string, dot: nat)
    requires dot < |alias| && alias[dot] == '.' && forall i :: 0 <= i < dot ==> alias[i] != '/'
    ensures IsLocal(alias)
  {
    assert dot < IndexOf(alias, '/');
    assert Slug(alias)[dot] == '.';
  }

  lemma OpenrouterIsActive(values: Env, alias: string)
    requires OpenrouterConfigured(values) && alias in Aliases(OpenrouterModels(values))
    ensures HasActiveUpstream(alias, values) && alias != ""
  {
    hide Strip, IndexOf, Routes, Split, OptionalValue;
    ProvidersDiffer();
    OpenrouterIsPlain();
    var raw := OptionalValue(values, "LITELLM_OPENROUTER_MODELS");
    if raw.Some? { RoutesBearPrefix(OPENROUTER, Split(raw.value, ',')); }
    SlugOfPrefixed(OPENROUTER, alias);
  }

  lemma NvidiaIsActive(values: Env, alias: string)
    requires NvidiaConfigured(values) && alias in Aliases(NvidiaModels(values))
    ensures HasActiveUpstream(alias, values) && alias != ""
  {
    hide Strip, IndexOf, Routes, Split, OptionalValue;
    ProvidersDiffer();
    NvidiaIsPlain();
    var raw := OptionalValue(values, "LITELLM_NVIDIA_MODELS");
    if raw.Some? { RoutesBearPrefix(NVIDIA, Split(raw.value, ',')); }
    SlugOfPrefixed(NVIDIA, alias);
  }

  lemma LocalIsActive(values: Env)
    requires LocalConfigured(values)
    ensures HasActiveUpstream(LocalAlias(values), values) && LocalAlias(values) != ""
  {
    hide AiDefaultAlias, IsLocal;
    LocalAliasIsLocal();
    assert |LOCAL_ALIAS| > 0;
  }

  /** For every environment: the order is not empty, repeats nothing, starts with the AI default when
      that is active, and unless it is the built-in fallback every alias in it has an active upstream. */
  lemma AliasOrderIsSound(values: Env)
    ensures var order := AliasOrder(values);
            && order != [] && "" !in order
            && (forall i, j | 0 <= i < |order| && 0 <= j < |order| :: order[i] == order[j] ==> i == j)
            && (order == FALLBACK || forall alias <- order :: HasActiveUpstream(alias, values))
            && (var d := AiDefaultAlias(values); d.Some? && HasActiveUpstream(d.value, values) ==> order[0] == d.value)
            && (Collected(values) != [] ==> forall alias :: alias in order <==> alias in Collected(values))
  {
    hide HasActiveUpstream, AiDefaultAlias, LocalConfigured, LocalAlias, OpenrouterConfigured, OpenrouterModels;
    hide NvidiaConfigured, NvidiaModels, Aliases;
    forall alias | alias in Collected(values) ensures HasActiveUpstream(alias, values) && alias != "" {
      CollectedIsActive(values, alias);
    }
    hide Collected, Dedupe;
    CollectedStart(values);
  }

  lemma CollectedIsActive(values: Env, alias: string)
    requires alias in Collected(values)
    ensures HasActiveUpstream(alias, values) && alias != ""
  {
    hide HasActiveUpstream, AiDefaultAlias, LocalConfigured, LocalAlias, OpenrouterConfigured, OpenrouterModels;
    hide NvidiaConfigured, NvidiaModels, Aliases;
    if OpenrouterConfigured(values) && alias in Aliases(OpenrouterModels(values)) { OpenrouterIsActive(values, alias); }
    if NvidiaConfigured(values) && alias in Aliases(NvidiaModels(values)) { NvidiaIsActive(values, alias); }
    if LocalConfigured(values) { LocalIsActive(values); }
  }

  lemma CollectedStart(values: Env)
    ensures var d := AiDefaultAlias(values);
            d.Some? && HasActiveUpstream(d.value, values) ==> Collected(values) != [] && Collected(values)[0] == d.value
  {
    hide HasActiveUpstream, AiDefaultAlias, LocalConfigured, LocalAlias, OpenrouterConfigured, OpenrouterModels;
    hide NvidiaConfigured, NvidiaModels, Aliases;
  }

  // ---- Names of a stack's shared resources ----

  function UnderscoreChar(c: char): char { if c == '-' then '_' else c }

  /** Every dash becomes an underscore. */
  function Underscored(s: string): string { seq(|s|, i requires 0 <= i < |s| => UnderscoreChar(s[i])) }

  const USER_LIMIT := 63

  function Cut(s: string): string { if |s| <= USER_LIMIT then s else s[..USER_LIMIT] }

  function DatabaseName(stack: string, pack: string): string { Underscored(stack + "_" + pack) }

  function UserName(stack: string, pack: string): string { Cut(DatabaseName(stack, pack)) }

  lemma UnderscoredJoins(a: string, b: string)
    ensures Underscored(a + b) == Underscored(a) + Underscored(b)
  {}

  lemma DatabaseNameParts(stack: string, pack: string)
    ensures DatabaseName(stack, pack) == Underscored(stack) + "_" + Underscored(pack)
  {
    UnderscoredJoins(stack + "_", pack);
    UnderscoredJoins(stack, "_");
    assert Underscored("_") == "_";
  }

  /** Two packs of a stack share a database name exactly when their names differ only in dashes and
      underscores. */
  lemma DatabaseNamesMeet(stack: string, a: string, b: string)
    ensures DatabaseName(stack, a) == DatabaseName(stack, b) <==> Underscored(a) == Underscored(b)
  {
    DatabaseNameParts(stack, a);
    DatabaseNameParts(stack, b);
    hide DatabaseName, Underscored;
    var n := |Underscored(stack)| + 1;
    assert DatabaseName(stack, a)[n..] == Underscored(a) && DatabaseName(stack, b)[n..] == Underscored(b);
  }

  /** What the limit leaves of a pack's name after the stack's. */
  function Room(stack: string, pack: string): string {
    var u := Underscored(pack);
    var room := USER_LIMIT - |stack| - 1;
    if room <= 0 then "" else if |u| <= room then u else u[..room]
  }

  lemma UserNameParts(stack: string, pack: string)
    ensures |stack| + 1 <= USER_LIMIT ==> UserName(stack, pack) == Underscored(stack) + "_" + Room(stack, pack)
    ensures |stack| + 1 > USER_LIMIT ==> UserName(stack, pack) == Underscored(stack)[..USER_LIMIT]
  {
    DatabaseNameParts(stack, pack);
    hide DatabaseName;
  }

  /** User names are cut: two packs share one exactly when what fits of their names is the same. */
  lemma UserNamesMeet(stack: string, a: string, b: string)
    ensures UserName(stack, a) == UserName(stack, b) <==> Room(stack, a) == Room(stack, b)
    ensures |stack| + 1 + |a| <= USER_LIMIT && |stack| + 1 + |b| <= USER_LIMIT ==>
              (UserName(stack, a) == UserName(stack, b) <==> Underscored(a) == Underscored(b))
  {
    UserNameParts(stack, a);
    UserNameParts(stack, b);
    hide UserName;
    if |stack| + 1 <= USER_LIMIT {
      var n := |Underscored(stack)| + 1;
      assert UserName(stack, a)[n..] == Room(stack, a) && UserName(stack, b)[n..] == Room(stack, b);
    }
  }

  // ---- The plan ----

  /** What a pack asks of the shared core; the catalog is not part of this model. */
  type Needs = string -> set<string>

  function PostgresFor(stack: string, pack: string): Outcome<PostgresAllocation> {
    PostgresAllocation.Make(DatabaseName(stack, pack), UserName(stack, pack), stack + "-" + pack + "-postgres-password")
  }

  function RedisFor(stack: string, pack: string): Outcome<RedisAllocation> {
    RedisAllocation.Make(stack + "-" + pack + "-redis", stack + "-" + pack + "-redis-password")
  }

  function AllocationFor(stack: string, pack: string, needs: Needs): Outcome<Option<PackAllocation>> {
    var postgres :- if "postgres" in needs(pack) then Lift(PostgresFor(stack, pack)) else Ok(None);
    var redis :- if "redis" in needs(pack) then Lift(RedisFor(stack, pack)) else Ok(None);
    if postgres.None? && redis.None? then Ok(None)
    else Lift(PackAllocation.Make(pack, pack, postgres, redis))
  }

  function Lift<T>(r: Outcome<T>): Outcome<Option<T>> {
    match r
    case Ok(v) => Ok(Some(v))
    case Err(e) => Err(e)
  }

  function AllocationsFor(stack: string, packs: seq<string>, needs: Needs): Outcome<seq<PackAllocation>> {
    if packs == [] then Ok([])
    else
      var n := |packs| - 1;
      var before :- AllocationsFor(stack, packs[..n], needs);
      var last :- AllocationFor(stack, packs[n], needs);
      Ok(before + match last case Some(a) => [a] case None => [])
  }

  function MailRelayFor(stack: string, packs: seq<string>, values: Env): Outcome<Option<MailRelay>> {
    var root := if "ROOT_DOMAIN" in values then Strip(values["ROOT_DOMAIN"]) else "";
    if !("moodle" in packs || "docuseal" in packs) || root == "" then Ok(None)
    else
      var hostname := if "OUTBOUND_SMTP_HOSTNAME" in values then values["OUTBOUND_SMTP_HOSTNAME"] else "mail." + root;
      var from := if "OUTBOUND_SMTP_FROM_ADDRESS" in values then values["OUTBOUND_SMTP_FROM_ADDRESS"]
                  else "DoNotReply@" + root;
      Lift(PlanModels.MailRelay.Make(stack + "-shared-postfix", Strip(hostname), 587, Strip(from)))
  }

  predicate AnyNeeds(packs: seq<string>, needs: Needs, what: string) { exists p <- packs :: what in needs(p) }

  /** The service the model autosync would get, when it is switched on; both are decided elsewhere. */
  function ModelSyncFor(sync: Option<string>): Outcome<Option<NamedService>> {
    if sync.None? then Ok(None) else Lift(NamedService.Make(sync.value))
  }

  function PlanFor(stack: string, packs: seq<string>, values: Env, needs: Needs, sync: Option<string>)
    : Outcome<SharedCorePlan>
  {
    var litellmPostgres :- PostgresFor(stack, "litellm");
    var allocations :- AllocationsFor(stack, packs, needs);
    var mailRelay :- MailRelayFor(stack, packs, values);
    var litellm :- PlanModels.LiteLLM.Make(stack + "-shared-litellm", litellmPostgres, AliasOrder(values));
    var modelSync :- ModelSyncFor(sync);
    var postgres :- NamedService.Make(stack + "-shared-postgres");
    var redis :- if AnyNeeds(packs, needs, "redis") then Lift(NamedService.Make(stack + "-shared-redis")) else Ok(None);
    SharedCorePlan.Make(stack + "-shared", Some(postgres), redis, allocations, mailRelay, Some(litellm), modelSync)
  }

  method BuildSharedCorePlan(stack: string, packs: seq<string>, values: Env, needs: Needs, sync: Option<string>)
    returns (plan: Outcome<SharedCorePlan>)
    ensures plan == PlanFor(stack, packs, values, needs, sync)
  {
    hide PostgresFor, RedisFor, MailRelayFor, AliasOrder, ModelSyncFor, PackAllocation.Make, NamedService.Make;
    hide SharedCorePlan.Make, PlanModels.LiteLLM.Make, AnyNeeds, AllocationsFor;
    assert AllocationsFor(stack, [], needs) == Ok([]) by { NoAllocations(stack, needs); }
    var litellmPostgres :- PostgresFor(stack, "litellm");
    var allocations: seq<PackAllocation> := [];
    var requiresRedis := false;
    assert !AnyNeeds([], needs, "redis") by { NobodyNeeds(needs, "redis"); }
    assert packs[..0] == [];
    for i := 0 to |packs|
      invariant AllocationsFor(stack, packs[..i], needs) == Ok(allocations)
      invariant requiresRedis == AnyNeeds(packs[..i], needs, "redis")
    {
      AllocationsStep(stack, packs, i, needs);
      var pack := packs[i];
      var redis := None;
      var postgres := None;
      if "postgres" in needs(pack) {
        var made := PostgresFor(stack, pack);
        if made.Err? { return Err(made.error); }
        postgres := Some(made.value);
      }
      if "redis" in needs(pack) {
        requiresRedis := true;
        var made := RedisFor(stack, pack);
        if made.Err? { return Err(made.error); }
        redis := Some(made.value);
      }
      if postgres.Some? || redis.Some? {
        var made := PackAllocation.Make(pack, pack, postgres, redis);
        if made.Err? { return Err(made.error); }
        allocations := allocations + [made.value];
      }
    }
    assert packs[..|packs|] == packs;
    var mailRelay :- MailRelayFor(stack, packs, values);
    var aliasOrder := BuildAliasOrder(values);
    var litellm :- PlanModels.LiteLLM.Make(stack + "-shared-litellm", litellmPostgres, aliasOrder);
    var modelSync :- ModelSyncFor(sync);
    var postgres :- NamedService.Make(stack + "-shared-postgres");
    var redis: Option<NamedService> := None;
    if requiresRedis {
      var made :- NamedService.Make(stack + "-shared-redis");
      redis := Some(made);
    }
    plan := SharedCorePlan.Make(stack + "-shared", Some(postgres), redis, allocations, mailRelay, Some(litellm),
                                modelSync);
  }

  lemma NoAllocations(stack: string, needs: Needs)
    ensures AllocationsFor(stack, [], needs) == Ok([])
  {}

  lemma NobodyNeeds(needs: Needs, what: string)
    ensures !AnyNeeds([], needs, what)
  {}

  /** One pack more, and where the first failure shows. */
  lemma AllocationsStep(stack: string, packs: seq<string>, i: nat, needs: Needs)
    requires i < |packs| && AllocationsFor(stack, packs[..i], needs).Ok?
    ensures var before := AllocationsFor(stack, packs[..i], needs).value;
            AllocationsFor(stack, packs[..i + 1], needs) ==
            match AllocationFor(stack, packs[i], needs)
            case Err(e) => Err(e)
            case Ok(None) => Ok(before)
            case Ok(Some(a)) => Ok(before + [a])
    ensures AllocationFor(stack, packs[i], needs).Err? ==>
              AllocationsFor(stack, packs, needs) == Err(AllocationFor(stack, packs[i], needs).error)
    ensures AnyNeeds(packs[..i + 1], needs, "redis")
            <==> AnyNeeds(packs[..i], needs, "redis") || "redis" in needs(packs[i])
  {
    hide AllocationFor;
    assert packs[..i + 1][..i] == packs[..i];
    if AllocationFor(stack, packs[i], needs).Err? { FailureStays(stack, packs, i + 1, needs); }
    assert packs[..i + 1] == packs[..i] + [packs[i]];
    var before := AllocationsFor(stack, packs[..i], needs).value;
    assert before + [] == before;
  }

  lemma {:induction false} FailureStays(stack: string, packs: seq<string>, i: nat, needs: Needs)
    requires i <= |packs| && AllocationsFor(stack, packs[..i], needs).Err?
    ensures AllocationsFor(stack, packs, needs) == AllocationsFor(stack, packs[..i], needs)
    decreases |packs|
  {
    hide AllocationFor;
    if i == |packs| {
      assert packs[..i] == packs;
    } else {
      var n := |packs| - 1;
      assert packs[..n][..i] == packs[..i];
      FailureStays(stack, packs[..n], i, needs);
    }
  }

  // ---- What the plan is ----

  lemma LowerKeeps(s: string, i: nat)
    requires i < |s| && (s[i] == '_' || s[i] == '-')
    ensures |Lower(s)| == |s| && Lower(s)[i] == s[i]
  {}

  lemma ForbiddenArePlain(s: string)
    requires s in FORBIDDEN_POSTGRES + FORBIDDEN_REDIS
    ensures 0 < |s| < 9 && '_' !in s && '-' !in s
  {
    assert "admin" == ['a', 'd', 'm', 'i', 'n'] && "root" == ['r', 'o', 'o', 't'];
    assert "postgres" == ['p', 'o', 's', 't', 'g', 'r', 'e', 's'];
    assert "default" == ['d', 'e', 'f', 'a', 'u', 'l', 't'];
  }

  /** No stack and pack, however named, give an identity that is refused. */
  lemma IdentitiesAreNeverForbidden(stack: string, pack: string)
    ensures Lower(UserName(stack, pack)) !in FORBIDDEN_POSTGRES && UserName(stack, pack) != ""
    ensures Lower(stack + "-" + pack + "-redis") !in FORBIDDEN_REDIS
  {
    var user, identity := UserName(stack, pack), stack + "-" + pack + "-redis";
    UserNameParts(stack, pack);
    hide UserName;
    assert identity[|stack|] == '-';
    LowerKeeps(identity, |stack|);
    if Lower(identity) in FORBIDDEN_REDIS { ForbiddenArePlain(Lower(identity)); }
    UserIsLongOrMarked(stack, pack);
    if |stack| < USER_LIMIT { LowerKeeps(user, |stack|); }
    if Lower(user) in FORBIDDEN_POSTGRES { ForbiddenArePlain(Lower(user)); }
  }

  lemma UserIsLongOrMarked(stack: string, pack: string)
    ensures var user := UserName(stack, pack);
            if |stack| < USER_LIMIT then |stack| < |user| && user[|stack|] == '_' else |user| == USER_LIMIT
  {
    UserNameParts(stack, pack);
    hide UserName;
  }

  /** The packs that get an allocation. */
  function Allocating(packs: seq<string>, needs: Needs): seq<string> {
    if packs == [] then []
    else
      var n := |packs| - 1;
      Allocating(packs[..n], needs)
      + if "postgres" in needs(packs[n]) || "redis" in needs(packs[n]) then [packs[n]] else []
  }

  /** The allocation a pack gets. */
  predicate IsFor(a: PackAllocation, stack: string, pack: string, needs: Needs) {
    && a.packName == a.networkAlias == pack
    && a.postgres == (if "postgres" in needs(pack) then
                        Some(PostgresAllocation(DatabaseName(stack, pack), UserName(stack, pack),
                                                stack + "-" + pack + "-postgres-password"))
                      else None)
    && a.redis == (if "redis" in needs(pack) then
                     Some(RedisAllocation(stack + "-" + pack + "-redis", stack + "-" + pack + "-redis-password"))
                   else None)
  }

  predicate AreFor(allocations: seq<PackAllocation>, stack: string, packs: seq<string>, needs: Needs) {
    |allocations| == |packs| && forall i :: 0 <= i < |packs| ==> IsFor(allocations[i], stack, packs[i], needs)
  }

  lemma AllocationIs(stack: string, pack: string, needs: Needs)
    ensures var a := AllocationFor(stack, pack, needs);
            if !("postgres" in needs(pack) || "redis" in needs(pack)) then a == Ok(None)
            else if pack == "" then a.Err?
            else a.Ok? && a.value.Some? && IsFor(a.value.value, stack, pack, needs) && a.value.value.Valid()
  {
    IdentitiesAreNeverForbidden(stack, pack);
    assert DatabaseName(stack, pack) != "" by { DatabaseNameParts(stack, pack); }
    assert |stack + "-" + pack + "-redis"| > 0 && |stack + "-" + pack + "-redis-password"| > 0;
    assert |stack + "-" + pack + "-postgres-password"| > 0;
    hide UserName, DatabaseName, Lower;
  }

  lemma {:induction false} AllocationsAre(stack: string, packs: seq<string>, needs: Needs)
    ensures var r := AllocationsFor(stack, packs, needs);
            && (r.Ok? <==> "" !in Allocating(packs, needs))
            && (r.Ok? ==> AreFor(r.value, stack, Allocating(packs, needs), needs) && AllocationsValid(r.value))
  {
    hide AllocationFor, IsFor, PackAllocation.Valid;
    if packs != [] {
      var n := |packs| - 1;
      AllocationsAre(stack, packs[..n], needs);
      AllocationIs(stack, packs[n], needs);
    }
  }

  predicate NamesSorted(names: seq<string>) {
    forall i, j | 0 <= i < j < |names| :: !Before(names[j], names[i])
  }

  /** A mail relay that is asked for can be made: host name and sender are not blank. */
  predicate MailPossible(packs: seq<string>, values: Env) {
    var root := if "ROOT_DOMAIN" in values then Strip(values["ROOT_DOMAIN"]) else "";
    ("moodle" in packs || "docuseal" in packs) && root != "" ==>
      && Strip(if "OUTBOUND_SMTP_HOSTNAME" in values then values["OUTBOUND_SMTP_HOSTNAME"] else "mail." + root) != ""
      && Strip(if "OUTBOUND_SMTP_FROM_ADDRESS" in values then values["OUTBOUND_SMTP_FROM_ADDRESS"]
               else "DoNotReply@" + root) != ""
  }

  /** When planning succeeds. */
  predicate Plannable(packs: seq<string>, values: Env, needs: Needs, sync: Option<string>) {
    && "" !in Allocating(packs, needs) && NamesSorted(Allocating(packs, needs))
    && MailPossible(packs, values) && sync != Some("")
  }

  lemma MailRelayIs(stack: string, packs: seq<string>, values: Env)
    ensures var m := MailRelayFor(stack, packs, values);
            (m.Ok? <==> MailPossible(packs, values)) && (m.Ok? ==> MailRelayValid(m.value))
  {
    hide Strip;
    assert |stack + "-shared-postfix"| > 0;
  }

  lemma LiteLLMIs(stack: string, values: Env)
    ensures PostgresFor(stack, "litellm").Ok? && PostgresFor(stack, "litellm").value.Valid()
    ensures var own := PostgresFor(stack, "litellm").value;
            var l := PlanModels.LiteLLM.Make(stack + "-shared-litellm", own, AliasOrder(values));
            l.Ok? && l.value.Valid() && l.value.aliasOrder == AliasOrder(values)
  {
    IdentitiesAreNeverForbidden(stack, "litellm");
    assert DatabaseName(stack, "litellm") != "" by { DatabaseNameParts(stack, "litellm"); }
    assert |stack + "-litellm-postgres-password"| > 0;
    assert |stack + "-" + "litellm" + "-postgres-password"| > 0 && |stack + "-shared-litellm"| > 0;
    AliasOrderIsSound(values);
    PlanModels.LiteLLM.AllNonEmptyExactly(AliasOrder(values));
    hide UserName, DatabaseName, Lower, AliasOrder, PlanModels.LiteLLM.AllNonEmpty;
  }

  lemma ServicesAre(stack: string, sync: Option<string>)
    ensures NamedService.Make(stack + "-shared-postgres") == Ok(NamedService(stack + "-shared-postgres"))
    ensures NamedService.Make(stack + "-shared-redis") == Ok(NamedService(stack + "-shared-redis"))
    ensures NamedService(stack + "-shared-postgres").Valid() && NamedService(stack + "-shared-redis").Valid()
    ensures stack + "-shared" != ""
    ensures ModelSyncFor(sync).Ok? <==> sync != Some("")
    ensures ModelSyncFor(sync).Ok? ==> ServiceValid(ModelSyncFor(sync).value)
  {
    assert |stack + "-shared-postgres"| > 0 && |stack + "-shared-redis"| > 0 && |stack + "-shared"| > 0;
  }

  lemma SortedTogether(allocations: seq<PackAllocation>, stack: string, packs: seq<string>, needs: Needs)
    requires AreFor(allocations, stack, packs, needs)
    ensures PacksSorted(allocations) <==> NamesSorted(packs)
  {
    assert forall i :: 0 <= i < |packs| ==>
                         IsFor(allocations[i], stack, packs[i], needs) && allocations[i].packName == packs[i];
    hide IsFor, Before;
  }

  /** Planning succeeds exactly when the packs that get an allocation are named and sorted, and a mail
      relay that is asked for has a host name and a sender; the plan is then valid, allocates exactly
      what the packs need, and has a Redis service exactly when some allocation uses it. */
  lemma PlanExactly(stack: string, packs: seq<string>, values: Env, needs: Needs, sync: Option<string>)
    ensures var p := PlanFor(stack, packs, values, needs, sync);
            && (p.Ok? <==> Plannable(packs, values, needs, sync))
            && (p.Ok? ==>
                  && p.value.Valid() && p.value.RequiresReconciliation()
                  && AreFor(p.value.allocations, stack, Allocating(packs, needs), needs)
                  && (p.value.redis.Some? <==> AnyNeeds(packs, needs, "redis")))
  {
    hide AliasOrder, AllocationsFor, Allocating, MailRelayFor, MailPossible;
    hide ModelSyncFor, AreFor, PostgresFor, AnyNeeds;
    hide PacksSorted, NamesSorted, AllocationsValid;
    hide MailRelayValid, PlanModels.LiteLLM.Make, PlanModels.LiteLLM.Valid;
    hide NamedService.Make, NamedService.Valid;
    LiteLLMIs(stack, values);
    AllocationsAre(stack, packs, needs);
    MailRelayIs(stack, packs, values);
    ServicesAre(stack, sync);
    var r := AllocationsFor(stack, packs, needs);
    if r.Ok? { SortedTogether(r.value, stack, Allocating(packs, needs), needs); }
  }

  lemma {:induction false} AllocatingHasAllNeeds(packs: seq<string>, needs: Needs, pack: string)
    ensures pack in Allocating(packs, needs) <==> pack in packs && ("postgres" in needs(pack) || "redis" in needs(pack))
  {
    if packs != [] {
      var n := |packs| - 1;
      assert packs == packs[..n] + [packs[n]];
      AllocatingHasAllNeeds(packs[..n], needs, pack);
    }
  }

  /** The Redis service is there for someone: some allocation uses it. */
  lemma RedisIsUsed(stack: string, packs: seq<string>, needs: Needs, allocations: seq<PackAllocation>)
    requires AreFor(allocations, stack, Allocating(packs, needs), needs)
    ensures AnyNeeds(packs, needs, "redis") <==> exists a <- allocations :: a.redis.Some?
  {
    var named := Allocating(packs, needs);
    if AnyNeeds(packs, needs, "redis") {
      var p :| p in packs && "redis" in needs(p);
      AllocatingHasAllNeeds(packs, needs, p);
      var i :| 0 <= i < |named| && named[i] == p;
      assert IsFor(allocations[i], stack, named[i], needs) && allocations[i] in allocations;
    }
    if exists a <- allocations :: a.redis.Some? {
      var i :| 0 <= i < |allocations| && allocations[i].redis.Some?;
      assert IsFor(allocations[i], stack, named[i], needs);
      AllocatingHasAllNeeds(packs, needs, named[i]);
    }
  }

  /** Two allocations of a plan share a database exactly when their packs differ only in dashes, and a
      user exactly when what the limit leaves of their packs' names is the same. */
  lemma AllocationsMeet(stack: string, packs: seq<string>, needs: Needs, allocations: seq<PackAllocation>, i: nat,
                        j: nat)
    requires AreFor(allocations, stack, packs, needs) && i < |packs| && j < |packs|
    requires allocations[i].postgres.Some? && allocations[j].postgres.Some?
    ensures var a, b := allocations[i].postgres.value, allocations[j].postgres.value;
            && (a.databaseName == b.databaseName <==> Underscored(packs[i]) == Underscored(packs[j]))
            && (a.userName == b.userName <==> Room(stack, packs[i]) == Room(stack, packs[j]))
  {
    assert IsFor(allocations[i], stack, packs[i], needs) && IsFor(allocations[j], stack, packs[j], needs);
    DatabaseNamesMeet(stack, packs[i], packs[j]);
    UserNamesMeet(stack, packs[i], packs[j]);
    hide DatabaseName, UserName, Underscored, Room;
  }

  /** LiteLLM's own database is a pack's exactly when that pack is named `litellm`, and its user
      exactly when what the limit leaves of that name is what it leaves of `litellm`: for a stack of more
      than 55 characters that is a shorter beginning, and past 61 nothing. */
  lemma LiteLLMMeets(stack: string, packs: seq<string>, values: Env, needs: Needs, sync: Option<string>, i: nat)
    requires PlanFor(stack, packs, values, needs, sync).Ok?
    requires i < |Allocating(packs, needs)| && "postgres" in needs(Allocating(packs, needs)[i])
    ensures var plan, pack := PlanFor(stack, packs, values, needs, sync).value, Allocating(packs, needs)[i];
            && plan.litellm.Some? && i < |plan.allocations| && plan.allocations[i].packName == pack
            && plan.allocations[i].postgres.Some?
            && var own, its := plan.litellm.value.postgres, plan.allocations[i].postgres.value;
               && (own.databaseName == its.databaseName <==> pack == "litellm")
               && (own.userName == its.userName <==> Room(stack, pack) == Room(stack, "litellm"))
               && (|stack| <= 55 && |stack| + |pack| < USER_LIMIT ==>
                     (own.userName == its.userName <==> own.databaseName == its.databaseName))
  {
    var pack := Allocating(packs, needs)[i];
    PlansAllocation(stack, packs, values, needs, sync, i);
    PlansLiteLLM(stack, packs, values, needs, sync);
    LiteLLMNamesMeet(stack, pack);
    hide PlanFor, Allocating, DatabaseName, UserName, Underscored, Room;
  }

  lemma LiteLLMUnderscored(pack: string)
    ensures Underscored("litellm") == "litellm" && (Underscored(pack) == "litellm" <==> pack == "litellm")
  {
    var name := "litellm";
    assert Underscored(name) == name;
    if Underscored(pack) == name {
      assert |pack| == |name|;
      forall i | 0 <= i < |name| ensures pack[i] == name[i] {
        assert UnderscoreChar(pack[i]) == Underscored(pack)[i];
      }
    }
  }

  lemma LiteLLMNamesMeet(stack: string, pack: string)
    ensures DatabaseName(stack, "litellm") == DatabaseName(stack, pack) <==> pack == "litellm"
    ensures UserName(stack, "litellm") == UserName(stack, pack) <==> Room(stack, pack) == Room(stack, "litellm")
    ensures |stack| <= 55 && |stack| + |pack| < USER_LIMIT ==>
              (UserName(stack, "litellm") == UserName(stack, pack) <==> pack == "litellm")
  {
    DatabaseNamesMeet(stack, "litellm", pack);
    UserNamesMeet(stack, "litellm", pack);
    LiteLLMUnderscored(pack);
    hide DatabaseName, UserName, Underscored, Room;
  }

  lemma PlansAllocation(stack: string, packs: seq<string>, values: Env, needs: Needs, sync: Option<string>, i: nat)
    requires PlanFor(stack, packs, values, needs, sync).Ok?
    requires i < |Allocating(packs, needs)| && "postgres" in needs(Allocating(packs, needs)[i])
    ensures var plan, pack := PlanFor(stack, packs, values, needs, sync).value, Allocating(packs, needs)[i];
            && i < |plan.allocations| && plan.allocations[i].packName == pack && plan.allocations[i].postgres.Some?
            && plan.allocations[i].postgres.value.databaseName == DatabaseName(stack, pack)
            && plan.allocations[i].postgres.value.userName == UserName(stack, pack)
  {
    PlanExactly(stack, packs, values, needs, sync);
    hide PlanFor, Allocating, DatabaseName, UserName, SharedCorePlan.Valid, Plannable, AnyNeeds;
    var plan := PlanFor(stack, packs, values, needs, sync).value;
    assert IsFor(plan.allocations[i], stack, Allocating(packs, needs)[i], needs);
  }

  lemma PlansLiteLLM(stack: string, packs: seq<string>, values: Env, needs: Needs, sync: Option<string>)
    requires PlanFor(stack, packs, values, needs, sync).Ok?
    ensures var l := PlanFor(stack, packs, values, needs, sync).value.litellm;
            && l.Some? && l.value.postgres.databaseName == DatabaseName(stack, "litellm")
            && l.value.postgres.userName == UserName(stack, "litellm")
  {
    hide AliasOrder, AllocationsFor, MailRelayFor, ModelSyncFor, AnyNeeds, DatabaseName, UserName;
    hide NamedService.Make, NamedService.Valid;
  }
}
