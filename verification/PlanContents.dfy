/** What a shared-core plan says, traced back to the environment and the packs it is made from
    (`core/planner.py`). */
module PlanContents {
  import opened Text
  import opened PlanModels
  import opened Planner

  // ---- Environment values ----

  /** Not empty, and white space neither first nor last. */
  predicate Trimmed(v: string) { v != "" && !IsSpace(v[0]) && !IsSpace(v[|v| - 1]) }

  lemma StripParts(s: string) returns (a: string, b: string)
    ensures s == a + Strip(s) + b && AllSpace(a) && AllSpace(b) && (Strip(s) == "" || Trimmed(Strip(s)))
  {
    var r := RStrip(s);
    RStripIsPrefix(s);
    LStripIsSuffix(r);
    var n := |r| - |LStrip(r)|;
    a, b := r[..n], s[|r|..];
    assert forall i :: 0 <= i < |b| ==> b[i] == s[|r| + i];
    assert r == a + r[n..];
  }

  lemma StripOf(a: string, v: string, b: string)
    requires AllSpace(a) && AllSpace(b) && (v == "" || Trimmed(v))
    ensures Strip(a + v + b) == v
  {
    StripIs(a, v, b);
  }

  /** The variable is set to this value, with white space around it or not. */
  ghost predicate Gives(values: Env, key: string, v: string) {
    key in values && Trimmed(v) && exists a, b :: AllSpace(a) && AllSpace(b) && values[key] == a + v + b
  }

  ghost predicate IsGiven(values: Env, key: string) { exists v :: Gives(values, key, v) }

  lemma OptionalValueExactly(values: Env, key: string, v: string)
    ensures OptionalValue(values, key) == Some(v) <==> Gives(values, key, v)
  {
    hide Strip;
    if key in values {
      var a, b := StripParts(values[key]);
      if Gives(values, key, v) {
        var x, y :| AllSpace(x) && AllSpace(y) && values[key] == x + v + y;
        StripOf(x, v, y);
      }
    }
  }

  lemma GivenExactly(values: Env, key: string)
    ensures OptionalValue(values, key).Some? <==> IsGiven(values, key)
  {
    hide OptionalValue, Gives;
    if OptionalValue(values, key).Some? { OptionalValueExactly(values, key, OptionalValue(values, key).value); }
    if v :| Gives(values, key, v) { OptionalValueExactly(values, key, v); }
  }

  // ---- Routes ----

  function Prefixed(provider: string, ref: string): string {
    if provider + "/" <= ref then ref else provider + "/" + ref
  }

  /** Cutting at the first sign before or after stripping comes to the same. */
  lemma StripThenCut(item: string, n: nat)
    requires SignAt(item, n)
    ensures var i := Strip(item);
            var at := IndexOf(i, '=');
            && at < |i| && Strip(i[..at]) == Strip(item[..n]) && Strip(i[at + 1..]) == Strip(item[n + 1..])
  {
    var a, b := StripParts(item);
    CutInside(a, Strip(item), b, n);
  }

  lemma CutInside(a: string, i: string, b: string, n: nat)
    requires AllSpace(a) && AllSpace(b) && SignAt(a + i + b, n)
    ensures var at, item := IndexOf(i, '='), a + i + b;
            at < |i| && Strip(i[..at]) == Strip(item[..n]) && Strip(i[at + 1..]) == Strip(item[n + 1..])
  {
    hide IsSpace, Strip, IndexOf, SignAt, AllSpace;
    SignWithin(a, i, b, n);
    var at, item := n - |a|, a + i + b;
    ThreeParts(a, i, b, at);
    StripBefore(a, i[..at]);
    StripAfter(i[at + 1..], b);
  }

  lemma ThreeParts(a: string, i: string, b: string, at: nat)
    requires at < |i|
    ensures var item, n := a + i + b, |a| + at; item[..n] == a + i[..at] && item[n + 1..] == i[at + 1..] + b
  {}

  lemma InParts(a: string, i: string, b: string, k: nat)
    requires k < |a + i + b|
    ensures (a + i + b)[k] == if k < |a| then a[k] else if k < |a| + |i| then i[k - |a|] else b[k - |a| - |i|]
  {}

  lemma SignIsInside(a: string, i: string, b: string, n: nat)
    requires AllSpace(a) && AllSpace(b) && SignAt(a + i + b, n)
    ensures |a| <= n < |a| + |i| && i[n - |a|] == '='
  {
    InParts(a, i, b, n);
    assert !IsSpace('=');
  }

  lemma NoSignBefore(a: string, i: string, b: string, n: nat, k: nat)
    requires SignAt(a + i + b, n) && k < |i| && |a| + k < n
    ensures i[k] != '='
  {
    InParts(a, i, b, |a| + k);
  }

  lemma SignWithin(a: string, i: string, b: string, n: nat)
    requires AllSpace(a) && AllSpace(b) && SignAt(a + i + b, n)
    ensures |a| <= n < |a| + |i| && IndexOf(i, '=') == n - |a|
  {
    hide AllSpace, SignAt, IndexOf;
    SignIsInside(a, i, b, n);
    var at := n - |a|;
    forall k | 0 <= k < at ensures i[k] != '=' { NoSignBefore(a, i, b, n, k); }
    FirstSign(i, at);
  }

  lemma FirstSign(s: string, n: nat)
    requires n < |s| && s[n] == '=' && forall i :: 0 <= i < n ==> s[i] != '='
    ensures IndexOf(s, '=') == n
  {}

  lemma StripBefore(a: string, s: string)
    requires AllSpace(a)
    ensures Strip(a + s) == Strip(s)
  {
    var x, y := StripParts(s);
    assert a + s == (a + x) + Strip(s) + y;
    StripOf(a + x, Strip(s), y);
  }

  lemma StripAfter(s: string, b: string)
    requires AllSpace(b)
    ensures Strip(s + b) == Strip(s)
  {
    var x, y := StripParts(s);
    assert s + b == x + Strip(s) + (y + b);
    StripOf(x, Strip(s), y + b);
  }

  /** Left of the first equality sign stands the alias, right of it the target; without one the item is
      both. Either gets the provider's prefix unless it has it, and nothing comes of a missing one. */
  lemma RouteIs(provider: string, item: string, n: int)
    ensures SignAt(item, n) ==>
              var alias, target := Strip(item[..n]), Strip(item[n + 1..]);
              RouteOf(provider, item) ==
              if alias == "" || target == "" then None
              else Some(Route(Prefixed(provider, alias), Prefixed(provider, target)))
    ensures !Contains(item, '=') ==>
              var ref := Strip(item);
              RouteOf(provider, item)
              == if ref == "" then None else Some(Route(Prefixed(provider, ref), Prefixed(provider, ref)))
  {
    hide Strip, IndexOf, Contains, RouteOf;
    if SignAt(item, n) {
      StripThenCut(item, n);
      RouteParts(provider, item);
    }
    if !Contains(item, '=') {
      NoSignLeft(item);
      RouteParts(provider, item);
    }
  }

  lemma RouteParts(provider: string, item: string)
    ensures var i := Strip(item);
            var at := IndexOf(i, '=');
            var alias, target := if at < |i| then Strip(i[..at]) else i, if at < |i| then Strip(i[at + 1..]) else i;
            RouteOf(provider, item) ==
            if alias == "" || target == "" then None
            else Some(Route(Prefixed(provider, alias), Prefixed(provider, target)))
  {
    hide Strip, IndexOf;
  }

  lemma NoSignLeft(item: string)
    requires !Contains(item, '=')
    ensures IndexOf(Strip(item), '=') == |Strip(item)|
  {
    var a, b := StripParts(item);
    hide Strip;
    assert forall k :: 0 <= k < |Strip(item)| ==> Strip(item)[k] == item[|a| + k];
  }

  /** A list is cut at every comma and nowhere else. */
  lemma {:induction false} SplitIs(s: string, c: char)
    ensures Joined(Split(s, c), c) == s && forall part <- Split(s, c) :: !Contains(part, c)
    decreases |s|
  {
    var i := IndexOf(s, c);
    assert !Contains(s[..i], c) by { assert forall k :: 0 <= k < i ==> s[..i][k] == s[k]; }
    hide Contains, IndexOf;
    if i < |s| {
      var rest := Split(s[i + 1..], c);
      SplitIs(s[i + 1..], c);
      assert rest != [] && ([s[..i]] + rest)[1..] == rest;
      assert s == s[..i] + [c] + s[i + 1..];
      assert Split(s, c) == [s[..i]] + rest;
    } else {
      assert s[..i] == s && Split(s, c) == [s];
    }
  }

  function Joined(parts: seq<string>, c: char): string {
    if parts == [] then "" else if |parts| == 1 then parts[0] else parts[0] + [c] + Joined(parts[1..], c)
  }

  // ---- Aliases ----

  /** The default alias: the model under its provider's name, two of which have another one. */
  lemma DefaultAliasIs(values: Env, provider: string, model: string)
    requires Gives(values, "AI_DEFAULT_PROVIDER", provider) && Gives(values, "AI_DEFAULT_MODEL", model)
    ensures var slug := if Lower(provider) == "opencode" then "opencode-go"
                        else if Lower(provider) == "local" then "local-model.internal"
                        else Lower(provider);
            AiDefaultAlias(values) == Some(Prefixed(slug, model))
  {
    OptionalValueExactly(values, "AI_DEFAULT_PROVIDER", provider);
    OptionalValueExactly(values, "AI_DEFAULT_MODEL", model);
    StripOf("", provider, "");
    assert "" + provider + "" == provider;
    assert "opencode-go" != "local" by { assert |"opencode-go"| == 11; }
    hide OptionalValue, Strip, Lower;
  }

  lemma NoDefaultAlias(values: Env)
    ensures AiDefaultAlias(values) == None
            <==> !IsGiven(values, "AI_DEFAULT_PROVIDER") || !IsGiven(values, "AI_DEFAULT_MODEL")
  {
    GivenExactly(values, "AI_DEFAULT_PROVIDER");
    GivenExactly(values, "AI_DEFAULT_MODEL");
    hide OptionalValue, CanonicalProvider;
  }

  ghost predicate LocalGiven(values: Env) {
    && IsGiven(values, "LITELLM_LOCAL_BASE_URL") && IsGiven(values, "LITELLM_LOCAL_MODEL")
    && IsGiven(values, "LITELLM_LOCAL_API_KEY")
  }

  ghost predicate NvidiaGiven(values: Env) {
    && IsGiven(values, "LITELLM_NVIDIA_API_KEY")
    && (IsGiven(values, "LITELLM_NVIDIA_BASE_URL") || IsGiven(values, "NVIDIA_BASE_URL"))
  }

  lemma UpstreamsAre(values: Env)
    ensures LocalConfigured(values) <==> LocalGiven(values)
    ensures NvidiaConfigured(values) <==> NvidiaGiven(values)
    ensures OpenrouterConfigured(values) <==>
              IsGiven(values, "LITELLM_OPENROUTER_API_KEY") && OpenrouterModels(values) != []
  {
    GivenExactly(values, "LITELLM_LOCAL_BASE_URL");
    GivenExactly(values, "LITELLM_LOCAL_MODEL");
    GivenExactly(values, "LITELLM_LOCAL_API_KEY");
    GivenExactly(values, "LITELLM_NVIDIA_API_KEY");
    GivenExactly(values, "LITELLM_NVIDIA_BASE_URL");
    GivenExactly(values, "NVIDIA_BASE_URL");
    GivenExactly(values, "LITELLM_OPENROUTER_API_KEY");
    hide OptionalValue, IsGiven, OpenrouterModels;
  }

  lemma SlugIs(slug: string, model: string)
    requires !Contains(slug, '/')
    ensures Slug(slug + "/" + model) == slug
  {
    var alias := slug + "/" + model;
    assert alias[|slug|] == '/' && forall i :: 0 <= i < |slug| ==> alias[i] == slug[i];
    assert IndexOf(alias, '/') == |slug|;
  }

  /** When an alias has something behind it, provider by provider: a provider with a dot, and that of the
      built-in local alias, are local; providers nobody knows are taken to have. */
  lemma ActiveExactly(slug: string, model: string, values: Env)
    requires !Contains(slug, '/')
    ensures var alias := slug + "/" + model;
            HasActiveUpstream(alias, values) <==>
            if slug == "local-model.internal" || Contains(slug, '.') then LocalGiven(values)
            else if slug == "openrouter" then
              IsGiven(values, "LITELLM_OPENROUTER_API_KEY") && OpenrouterModels(values) != []
            else if slug == "opencode-go" then IsGiven(values, "LITELLM_OPENCODE_GO_API_KEY")
            else if slug == "nvidia" then
              NvidiaGiven(values) && (AiDefaultAlias(values) == Some(alias) || alias in Aliases(NvidiaModels(values)))
            else true
  {
    SlugIs(slug, model);
    UpstreamsAre(values);
    GivenExactly(values, "LITELLM_OPENCODE_GO_API_KEY");
    hide OptionalValue, IsGiven, OpenrouterModels, NvidiaModels, LocalConfigured, NvidiaConfigured;
    hide OpenrouterConfigured, AiDefaultAlias, Slug, Contains;
  }

  /** The local alias is the default one when that is local, else the built-in one. */
  lemma LocalAliasIs(values: Env, slug: string, model: string)
    requires !Contains(slug, '/')
    ensures AiDefaultAlias(values) == Some(slug + "/" + model) ==>
              LocalAlias(values) == if slug == "local-model.internal" || Contains(slug, '.') then slug + "/" + model
                                    else "local-model.internal/unsloth-active"
    ensures AiDefaultAlias(values) == None ==> LocalAlias(values) == "local-model.internal/unsloth-active"
  {
    SlugIs(slug, model);
    hide AiDefaultAlias, Slug, Contains;
  }

  /** The order, source by source, each once; the built-in one when there is none. */
  lemma AliasOrderIs(values: Env)
    ensures var d, order := AiDefaultAlias(values), AliasOrder(values);
            var all := (if d.Some? && HasActiveUpstream(d.value, values) then [d.value] else [])
                       + (if LocalGiven(values) then [LocalAlias(values)] else [])
                       + (if IsGiven(values, "LITELLM_OPENROUTER_API_KEY") then Aliases(OpenrouterModels(values))
                          else [])
                       + (if NvidiaGiven(values) then Aliases(NvidiaModels(values)) else []);
            if all == [] then order == ["opencode-go/deepseek-v4.1-flash"]
            else FirstOccurrences(order, all)
  {
    UpstreamsAre(values);
    PartsAre(values);
    var d := DefaultPart(values) + LocalPart(values) + OpenrouterPart(values) + NvidiaPart(values);
    if OpenrouterModels(values) == [] { assert Aliases(OpenrouterModels(values)) == []; }
    OrderIs(values);
    DedupeIs(d);
    hide HasActiveUpstream, AiDefaultAlias, LocalAlias, OpenrouterModels, NvidiaModels, Aliases, IsGiven, AliasOrder;
    hide DefaultPart, LocalPart, OpenrouterPart, NvidiaPart, LocalConfigured, NvidiaConfigured, OpenrouterConfigured;
    hide Dedupe, FirstOccurrences, OptionalValue, NvidiaGiven, LocalGiven;
    if d == [] { NothingDeduped(); }
  }

  lemma NothingDeduped()
    ensures Dedupe([]) == []
  {}

  /** The same strings, each once, in the order in which they come first. */
  ghost predicate FirstOccurrences(r: seq<string>, all: seq<string>) {
    && (forall s :: s in r <==> s in all)
    && forall i, j :: 0 <= i < j < |r| ==>
         r[i] != r[j] && exists k :: 0 <= k < |all| && all[k] == r[i] && r[j] !in all[..k + 1]
  }

  lemma {:induction false} DedupeIs(all: seq<string>)
    ensures FirstOccurrences(Dedupe(all), all) && (Dedupe(all) == [] <==> all == [])
  {
    if all != [] {
      var n := |all| - 1;
      var before := all[..n];
      DedupeIs(before);
      assert all == before + [all[n]];
      var d, r := Dedupe(before), Dedupe(all);
      forall i, j | 0 <= i < j < |r|
        ensures r[i] != r[j] && exists k :: 0 <= k < |all| && all[k] == r[i] && r[j] !in all[..k + 1]
      {
        if j < |d| {
          var k :| 0 <= k < |before| && before[k] == r[i] && r[j] !in before[..k + 1];
          assert all[k] == r[i] && all[..k + 1] == before[..k + 1];
        } else {
          assert r[i] in before;
          var k :| 0 <= k < |before| && before[k] == r[i];
          assert all[k] == r[i];
          assert forall x <- all[..k + 1] :: x in before;
        }
      }
    }
  }

  // ---- The plan's own names ----

  /** Database and user: stack and name with underscores for dashes, the user cut at 63 characters. */
  lemma NamesAre(stack: string, pack: string)
    ensures var d, u := DatabaseName(stack, pack), UserName(stack, pack);
            && |d| == |stack| + 1 + |pack| && d[|stack|] == '_'
            && (forall i :: 0 <= i < |stack| ==> d[i] == if stack[i] == '-' then '_' else stack[i])
            && (forall i :: 0 <= i < |pack| ==> d[|stack| + 1 + i] == if pack[i] == '-' then '_' else pack[i])
            && u == if |d| <= 63 then d else d[..63]
  {}

  lemma ServicesOf(stack: string, packs: seq<string>, values: Env, needs: Needs, sync: Option<string>)
    requires PlanFor(stack, packs, values, needs, sync).Ok?
    ensures var p := PlanFor(stack, packs, values, needs, sync).value;
            && p.networkName == stack + "-shared"
            && p.postgres == Some(NamedService(stack + "-shared-postgres"))
            && p.redis == (if exists pack <- packs :: "redis" in needs(pack) then
                             Some(NamedService(stack + "-shared-redis")) else None)
            && p.litellm.Some? && p.litellm.value.serviceName == stack + "-shared-litellm"
            && p.litellm.value.aliasOrder == AliasOrder(values)
            && p.litellm.value.postgres.passwordRef == stack + "-litellm-postgres-password"
            && p.modelSync == (if sync.Some? then Some(NamedService(sync.value)) else None)
            && MailRelayFor(stack, packs, values) == Ok(p.mailRelay)
  {
    hide *;
    PlanParts(stack, packs, values, needs, sync);
    ServicesAre(stack, sync);
    OwnPassword(stack);
    LiteLLMParts(stack + "-shared-litellm", PostgresFor(stack, "litellm").value, AliasOrder(values));
    SyncIs(sync);
    AnyNeedsIs(packs, needs, "redis");
  }

  lemma OwnPassword(stack: string)
    requires PostgresFor(stack, "litellm").Ok?
    ensures PostgresFor(stack, "litellm").value.passwordRef == stack + "-litellm-postgres-password"
  {
    hide DatabaseName, UserName, Lower, NonEmpty;
    assert stack + "-" + "litellm" + "-postgres-password" == stack + "-litellm-postgres-password" by {
      assert "-" + "litellm" + "-postgres-password" == "-litellm-postgres-password";
    }
  }

  lemma LiteLLMParts(name: string, own: PostgresAllocation, order: seq<string>)
    requires PlanModels.LiteLLM.Make(name, own, order).Ok?
    ensures PlanModels.LiteLLM.Make(name, own, order).value == PlanModels.LiteLLM.LiteLLM(name, own, order)
  {
    hide PlanModels.LiteLLM.AllNonEmpty;
  }

  lemma SyncIs(sync: Option<string>)
    requires ModelSyncFor(sync).Ok?
    ensures ModelSyncFor(sync).value == if sync.Some? then Some(NamedService(sync.value)) else None
  {}

  lemma AnyNeedsIs(packs: seq<string>, needs: Needs, what: string)
    ensures AnyNeeds(packs, needs, what) <==> exists pack <- packs :: what in needs(pack)
  {}

  lemma PlanParts(stack: string, packs: seq<string>, values: Env, needs: Needs, sync: Option<string>)
    requires PlanFor(stack, packs, values, needs, sync).Ok?
    ensures var p, own := PlanFor(stack, packs, values, needs, sync).value, PostgresFor(stack, "litellm");
            && p.networkName == stack + "-shared" && own.Ok?
            && p.postgres.Some? && NamedService.Make(stack + "-shared-postgres") == Ok(p.postgres.value)
            && (if AnyNeeds(packs, needs, "redis") then
                  p.redis.Some? && NamedService.Make(stack + "-shared-redis") == Ok(p.redis.value)
                else p.redis == None)
            && p.litellm.Some?
            && PlanModels.LiteLLM.Make(stack + "-shared-litellm", own.value, AliasOrder(values)) == Ok(p.litellm.value)
            && ModelSyncFor(sync) == Ok(p.modelSync) && MailRelayFor(stack, packs, values) == Ok(p.mailRelay)
  {
    hide AliasOrder, AllocationsFor, MailRelayFor, ModelSyncFor, AnyNeeds, PostgresFor, NamedService.Make;
    hide PlanModels.LiteLLM.Make, PacksSorted, NonEmpty;
  }

  /** The mail relay is there for two packs when a root domain is set; host name and sender each come from
      their own variable, else from the root domain. */
  lemma MailRelayComesFrom(stack: string, packs: seq<string>, values: Env)
    requires MailRelayFor(stack, packs, values).Ok?
    ensures var m := MailRelayFor(stack, packs, values).value;
            && (m.Some? <==> ("moodle" in packs || "docuseal" in packs) && IsGiven(values, "ROOT_DOMAIN"))
            && (m.Some? ==>
                  && m.value.serviceName == stack + "-shared-postfix" && m.value.smtpPort == 587
                  && (if "OUTBOUND_SMTP_HOSTNAME" in values then
                        Gives(values, "OUTBOUND_SMTP_HOSTNAME", m.value.mailHostname)
                      else exists root :: Gives(values, "ROOT_DOMAIN", root) && m.value.mailHostname == "mail." + root)
                  && (if "OUTBOUND_SMTP_FROM_ADDRESS" in values then
                        Gives(values, "OUTBOUND_SMTP_FROM_ADDRESS", m.value.fromAddress)
                      else
                        exists root ::
                          Gives(values, "ROOT_DOMAIN", root) && m.value.fromAddress == "DoNotReply@" + root))
  {
    var m := MailRelayFor(stack, packs, values).value;
    GivenExactly(values, "ROOT_DOMAIN");
    if m.Some? {
      var root := Strip(values["ROOT_DOMAIN"]);
      OptionalValueExactly(values, "ROOT_DOMAIN", root);
      PrefixStays("mail.", root, values);
      PrefixStays("DoNotReply@", root, values);
      if "OUTBOUND_SMTP_HOSTNAME" in values {
        OptionalValueExactly(values, "OUTBOUND_SMTP_HOSTNAME", m.value.mailHostname);
      }
      if "OUTBOUND_SMTP_FROM_ADDRESS" in values {
        OptionalValueExactly(values, "OUTBOUND_SMTP_FROM_ADDRESS", m.value.fromAddress);
      }
    }
    hide Strip, Gives;
  }

  lemma PrefixStays(prefix: string, root: string, values: Env)
    requires Gives(values, "ROOT_DOMAIN", root) && (prefix == "mail." || prefix == "DoNotReply@")
    ensures Strip(prefix + root) == prefix + root
  {
    var s := prefix + root;
    assert s[0] == prefix[0] && s[|s| - 1] == root[|root| - 1];
    StripOf("", s, "");
    assert "" + s + "" == s;
  }
}
