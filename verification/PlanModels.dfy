/** Shared-core plan records with their construction checks, and their reading from and writing to
    JSON objects (`core/models.py`). */
module PlanModels {
  import opened Text

  datatype Json =
    | JNull
    | JBool(b: bool)
    | JInt(i: int)
    | JReal(r: real)
    | JStr(s: string)
    | JArr(items: seq<Json>)
    | JObj(fields: Object)

  type Object = map<string, Json>

  /** A missing key reads as null. */
  function Get(o: Object, key: string): Json { if key in o then o[key] else JNull }

  /** Every construction or reading that fails names its reason. */
  type Outcome<T> = Result<T, string>

  // ---- Fields ----

  function TextField(o: Object, owner: string, key: string): Outcome<string> {
    match Get(o, key)
    case JStr(s) => Ok(s)
    case _ => Err(owner + "." + key + " must be a string.")
  }

  /** Booleans count as integers. */
  function AsInt(j: Json): Option<int> {
    match j
    case JInt(i) => Some(i)
    case JBool(b) => Some(if b then 1 else 0)
    case _ => None
  }

  lemma IntegersAre(j: Json, i: int)
    ensures AsInt(j) == Some(i) <==> j == JInt(i) || (i == 1 && j == JBool(true)) || (i == 0 && j == JBool(false))
  {}

  function IntField(o: Object, owner: string, key: string): Outcome<int> {
    match AsInt(Get(o, key))
    case Some(i) => Ok(i)
    case None => Err(owner + "." + key + " must be an integer.")
  }

  function ObjectField(o: Object, owner: string, key: string): Outcome<Object> {
    match Get(o, key)
    case JObj(f) => Ok(f)
    case _ => Err(owner + "." + key + " must be an object.")
  }

  function OptionalObject(o: Object, owner: string, key: string): Outcome<Option<Object>> {
    match Get(o, key)
    case JNull => Ok(None)
    case JObj(f) => Ok(Some(f))
    case _ => Err(owner + "." + key + " must be an object or null.")
  }

  function ListField(o: Object, owner: string, key: string): Outcome<seq<Json>> {
    match Get(o, key)
    case JArr(items) => Ok(items)
    case _ => Err(owner + "." + key + " must be a list.")
  }

  function StringsOf(items: seq<Json>): Option<seq<string>> {
    if items == [] then Some([])
    else
      match (items[0], StringsOf(items[1..]))
      case (JStr(s), Some(rest)) => Some([s] + rest)
      case _ => None
  }

  function Strings(ss: seq<string>): seq<Json> { seq(|ss|, i requires 0 <= i < |ss| => JStr(ss[i])) }

  function StringsField(o: Object, owner: string, key: string): Outcome<seq<string>> {
    match Get(o, key)
    case JArr(items) =>
      (match StringsOf(items)
       case Some(ss) => Ok(ss)
       case None => Err(owner + "." + key + " must be a list of strings."))
    case _ => Err(owner + "." + key + " must be a list of strings.")
  }

  /** What is said of a field that does not hold what it should. */
  lemma FieldErrorsAre(o: Object, owner: string, key: string)
    ensures TextField(o, owner, key).Err? ==> TextField(o, owner, key).error == owner + "." + key + " must be a string."
    ensures IntField(o, owner, key).Err? ==> IntField(o, owner, key).error == owner + "." + key + " must be an integer."
    ensures ObjectField(o, owner, key).Err? ==>
              ObjectField(o, owner, key).error == owner + "." + key + " must be an object."
    ensures OptionalObject(o, owner, key).Err? ==>
              OptionalObject(o, owner, key).error == owner + "." + key + " must be an object or null."
    ensures ListField(o, owner, key).Err? ==> ListField(o, owner, key).error == owner + "." + key + " must be a list."
    ensures StringsField(o, owner, key).Err? ==>
              StringsField(o, owner, key).error == owner + "." + key + " must be a list of strings."
  {}

  function NonEmpty(value: string, field: string): Outcome<()> {
    if value == "" then Err(field + " must be a non-empty string.") else Ok(())
  }

  // ---- Lower case ----

  /** The only lower-case letters of the words below that have another upper case are ASCII ones. */
  function LowerChar(c: char): char { if 'A' <= c <= 'Z' then c - 'A' + 'a' else c }

  function Lower(s: string): string { seq(|s|, i requires 0 <= i < |s| => LowerChar(s[i])) }

  const FORBIDDEN_POSTGRES := {"admin", "postgres", "root"}
  const FORBIDDEN_REDIS := {"admin", "default", "root"}

  /** Letter by letter the same, a small letter standing for either case. */
  predicate SameLetters(s: string, w: string) {
    |s| == |w| && forall i :: 0 <= i < |s| ==> s[i] == w[i] || s[i] as int == w[i] as int - 32
  }

  predicate Small(w: string) { forall i :: 0 <= i < |w| ==> 97 <= w[i] as int <= 122 }

  lemma LowerExactly(s: string, w: string)
    requires Small(w)
    ensures Lower(s) == w <==> SameLetters(s, w)
  {
    if Lower(s) == w {
      forall i | 0 <= i < |s| ensures s[i] == w[i] || s[i] as int == w[i] as int - 32 { assert Lower(s)[i] == w[i]; }
    }
    if SameLetters(s, w) {
      assert forall i :: 0 <= i < |s| ==> Lower(s)[i] == w[i];
    }
  }

  /** The names no allocation may use, in any letter case. */
  lemma ForbiddenExactly(s: string)
    ensures Lower(s) in FORBIDDEN_POSTGRES
            <==> SameLetters(s, "admin") || SameLetters(s, "postgres") || SameLetters(s, "root")
    ensures Lower(s) in FORBIDDEN_REDIS
            <==> SameLetters(s, "admin") || SameLetters(s, "default") || SameLetters(s, "root")
  {
    assert Small("admin") && Small("postgres") && Small("root") && Small("default");
    LowerExactly(s, "admin");
    LowerExactly(s, "postgres");
    LowerExactly(s, "root");
    LowerExactly(s, "default");
    hide Lower, SameLetters;
  }

  // ---- Records of one service name ----

  /** The PostgreSQL, Redis and model-sync service plans: a service name each. */
  datatype NamedService = NamedService(serviceName: string) {
    predicate Valid() { serviceName != "" }

    function ToDict(): Object { map["service_name" := JStr(serviceName)] }

    static function Make(serviceName: string): Outcome<NamedService> {
      var _ :- NonEmpty(serviceName, "service_name");
      Ok(NamedService(serviceName))
    }

    static function FromDict(o: Object, owner: string): Outcome<NamedService> {
      var serviceName :- TextField(o, owner, "service_name");
      Make(serviceName)
    }

    /** The object says just this record, whatever else it holds. */
    predicate Says(o: Object) { Get(o, "service_name") == JStr(serviceName) }

    lemma Reads(o: Object, owner: string)
      ensures FromDict(o, owner) == Ok(this) <==> Valid() && Says(o)
      ensures Says(ToDict())
    {}
  }

  datatype PostgresAllocation = PostgresAllocation(databaseName: string, userName: string, passwordRef: string) {
    predicate Valid() {
      databaseName != "" && userName != "" && passwordRef != "" && Lower(userName) !in FORBIDDEN_POSTGRES
    }

    function ToDict(): Object {
      map["database_name" := JStr(databaseName), "password_secret_ref" := JStr(passwordRef),
          "user_name" := JStr(userName)]
    }

    static function Make(databaseName: string, userName: string, passwordRef: string): Outcome<PostgresAllocation> {
      var _ :- NonEmpty(databaseName, "database_name");
      var _ :- NonEmpty(userName, "user_name");
      var _ :- NonEmpty(passwordRef, "password_secret_ref");
      if Lower(userName) in FORBIDDEN_POSTGRES then
        Err("SharedPostgresAllocation.user_name cannot use admin/root credentials.")
      else Ok(PostgresAllocation(databaseName, userName, passwordRef))
    }

    static function FromDict(o: Object): Outcome<PostgresAllocation> {
      var databaseName :- TextField(o, "SharedPostgresAllocation", "database_name");
      var userName :- TextField(o, "SharedPostgresAllocation", "user_name");
      var passwordRef :- TextField(o, "SharedPostgresAllocation", "password_secret_ref");
      Make(databaseName, userName, passwordRef)
    }

    predicate Says(o: Object) {
      && Get(o, "database_name") == JStr(databaseName) && Get(o, "user_name") == JStr(userName)
      && Get(o, "password_secret_ref") == JStr(passwordRef)
    }

    lemma Reads(o: Object)
      ensures FromDict(o) == Ok(this) <==> Valid() && Says(o)
      ensures Says(ToDict())
    {
      hide Lower;
    }
  }

  datatype RedisAllocation = RedisAllocation(identityName: string, passwordRef: string) {
    predicate Valid() { identityName != "" && passwordRef != "" && Lower(identityName) !in FORBIDDEN_REDIS }

    function ToDict(): Object {
      map["identity_name" := JStr(identityName), "password_secret_ref" := JStr(passwordRef)]
    }

    static function Make(identityName: string, passwordRef: string): Outcome<RedisAllocation> {
      var _ :- NonEmpty(identityName, "identity_name");
      var _ :- NonEmpty(passwordRef, "password_secret_ref");
      if Lower(identityName) in FORBIDDEN_REDIS then
        Err("SharedRedisAllocation.identity_name cannot use admin/root identities.")
      else Ok(RedisAllocation(identityName, passwordRef))
    }

    static function FromDict(o: Object): Outcome<RedisAllocation> {
      var identityName :- TextField(o, "SharedRedisAllocation", "identity_name");
      var passwordRef :- TextField(o, "SharedRedisAllocation", "password_secret_ref");
      Make(identityName, passwordRef)
    }

    predicate Says(o: Object) {
      Get(o, "identity_name") == JStr(identityName) && Get(o, "password_secret_ref") == JStr(passwordRef)
    }

    lemma Reads(o: Object)
      ensures FromDict(o) == Ok(this) <==> Valid() && Says(o)
      ensures Says(ToDict())
    {
      hide Lower;
    }
  }

  datatype MailRelay = MailRelay(serviceName: string, mailHostname: string, smtpPort: int, fromAddress: string) {
    predicate Valid() { serviceName != "" && mailHostname != "" && fromAddress != "" && smtpPort >= 1 }

    function ToDict(): Object {
      map["service_name" := JStr(serviceName), "mail_hostname" := JStr(mailHostname),
          "smtp_port" := JInt(smtpPort), "from_address" := JStr(fromAddress)]
    }

    static function Make(serviceName: string, mailHostname: string, smtpPort: int, fromAddress: string)
      : Outcome<MailRelay>
    {
      var _ :- NonEmpty(serviceName, "service_name");
      var _ :- NonEmpty(mailHostname, "mail_hostname");
      var _ :- NonEmpty(fromAddress, "from_address");
      if smtpPort < 1 then Err("SharedMailRelayServicePlan.smtp_port must be positive.")
      else Ok(MailRelay(serviceName, mailHostname, smtpPort, fromAddress))
    }

    static function FromDict(o: Object): Outcome<MailRelay> {
      var serviceName :- TextField(o, "SharedMailRelayServicePlan", "service_name");
      var mailHostname :- TextField(o, "SharedMailRelayServicePlan", "mail_hostname");
      var smtpPort :- IntField(o, "SharedMailRelayServicePlan", "smtp_port");
      var fromAddress :- TextField(o, "SharedMailRelayServicePlan", "from_address");
      Make(serviceName, mailHostname, smtpPort, fromAddress)
    }

    predicate Says(o: Object) {
      && Get(o, "service_name") == JStr(serviceName) && Get(o, "mail_hostname") == JStr(mailHostname)
      && AsInt(Get(o, "smtp_port")) == Some(smtpPort) && Get(o, "from_address") == JStr(fromAddress)
    }

    lemma Reads(o: Object)
      ensures FromDict(o) == Ok(this) <==> Valid() && Says(o)
      ensures Says(ToDict())
    {}
  }

  datatype LiteLLM = LiteLLM(serviceName: string, postgres: PostgresAllocation, aliasOrder: seq<string>) {
    /** What its own construction checks. */
    predicate Checked() { serviceName != "" && aliasOrder != [] && "" !in aliasOrder }

    predicate Valid() { Checked() && postgres.Valid() }

    function ToDict(): Object {
      map["default_model_alias_order" := JArr(Strings(aliasOrder)), "postgres" := JObj(postgres.ToDict()),
          "service_name" := JStr(serviceName)]
    }

    static function AllNonEmpty(aliases: seq<string>): Outcome<()> {
      if aliases == [] then Ok(())
      else
        var _ :- NonEmpty(aliases[0], "default_model_alias_order");
        AllNonEmpty(aliases[1..])
    }

    static lemma {:induction false} AllNonEmptyExactly(aliases: seq<string>)
      ensures AllNonEmpty(aliases).Ok? <==> "" !in aliases
    {
      if aliases != [] {
        AllNonEmptyExactly(aliases[1..]);
        assert aliases == [aliases[0]] + aliases[1..];
      }
    }

    static function Make(serviceName: string, postgres: PostgresAllocation, aliasOrder: seq<string>): Outcome<LiteLLM> {
      var _ :- NonEmpty(serviceName, "service_name");
      if aliasOrder == [] then Err("SharedLiteLLMServicePlan.default_model_alias_order must not be empty.")
      else
        var _ :- AllNonEmpty(aliasOrder);
        Ok(LiteLLM(serviceName, postgres, aliasOrder))
    }

    static function FromDict(o: Object): Outcome<LiteLLM> {
      var serviceName :- TextField(o, "SharedLiteLLMServicePlan", "service_name");
      var postgresPayload :- ObjectField(o, "SharedLiteLLMServicePlan", "postgres");
      var aliasOrder :- StringsField(o, "SharedLiteLLMServicePlan", "default_model_alias_order");
      var postgres :- PostgresAllocation.FromDict(postgresPayload);
      Make(serviceName, postgres, aliasOrder)
    }

    predicate Says(o: Object) {
      && Get(o, "service_name") == JStr(serviceName)
      && Get(o, "postgres").JObj? && postgres.Says(Get(o, "postgres").fields)
      && Get(o, "default_model_alias_order") == JArr(Strings(aliasOrder))
    }

    lemma Reads(o: Object)
      ensures FromDict(o) == Ok(this) <==> Valid() && Says(o)
      ensures Says(ToDict())
    {
      hide PostgresAllocation.FromDict, PostgresAllocation.Valid, PostgresAllocation.Says, PostgresAllocation.ToDict;
      hide AllNonEmpty, Strings, StringsOf, TextField, ObjectField, StringsField, Get;
      FieldsRead(o);
      AllNonEmptyExactly(aliasOrder);
      SaysWhatItWrites();
    }

    lemma SaysWhatItWrites()
      ensures Says(ToDict())
    {
      hide PostgresAllocation.Says, PostgresAllocation.ToDict, Strings;
      postgres.Reads(postgres.ToDict());
    }

    lemma FieldsRead(o: Object)
      ensures TextField(o, "SharedLiteLLMServicePlan", "service_name") == Ok(serviceName)
              <==> Get(o, "service_name") == JStr(serviceName)
      ensures var payload := ObjectField(o, "SharedLiteLLMServicePlan", "postgres");
              payload.Ok? && PostgresAllocation.FromDict(payload.value) == Ok(postgres)
              <==> postgres.Valid() && Get(o, "postgres").JObj? && postgres.Says(Get(o, "postgres").fields)
      ensures StringsField(o, "SharedLiteLLMServicePlan", "default_model_alias_order") == Ok(aliasOrder)
              <==> Get(o, "default_model_alias_order") == JArr(Strings(aliasOrder))
    {
      hide PostgresAllocation.FromDict, PostgresAllocation.Valid, PostgresAllocation.Says, Get, Strings, StringsOf;
      var payload := Get(o, "postgres");
      if payload.JObj? { postgres.Reads(payload.fields); }
      var aliases := Get(o, "default_model_alias_order");
      if aliases.JArr? { StringsExactly(aliases.items, aliasOrder); }
    }
  }

  lemma {:induction false} StringsExactly(items: seq<Json>, ss: seq<string>)
    ensures StringsOf(items) == Some(ss) <==> items == Strings(ss)
  {
    if items != [] && ss != [] {
      StringsExactly(items[1..], ss[1..]);
      assert items == [items[0]] + items[1..] && ss == [ss[0]] + ss[1..];
      assert Strings(ss) == [JStr(ss[0])] + Strings(ss[1..]);
    }
  }

  datatype PackAllocation = PackAllocation(
    packName: string, networkAlias: string, postgres: Option<PostgresAllocation>, redis: Option<RedisAllocation>)
  {
    predicate Checked() { packName != "" && networkAlias != "" }

    predicate Valid() {
      Checked() && PostgresValid() && RedisValid()
    }

    function ToDict(): Object {
      map["network_alias" := JStr(networkAlias), "pack_name" := JStr(packName),
          "postgres" := if postgres.None? then JNull else JObj(postgres.value.ToDict()),
          "redis" := if redis.None? then JNull else JObj(redis.value.ToDict())]
    }

    static function Make(packName: string, networkAlias: string, postgres: Option<PostgresAllocation>,
                         redis: Option<RedisAllocation>): Outcome<PackAllocation>
    {
      var _ :- NonEmpty(packName, "pack_name");
      var _ :- NonEmpty(networkAlias, "network_alias");
      Ok(PackAllocation(packName, networkAlias, postgres, redis))
    }

    static function PostgresOf(payload: Option<Object>): Outcome<Option<PostgresAllocation>> {
      match payload
      case None => Ok(None)
      case Some(f) =>
        var p :- PostgresAllocation.FromDict(f);
        Ok(Some(p))
    }

    static function RedisOf(payload: Option<Object>): Outcome<Option<RedisAllocation>> {
      match payload
      case None => Ok(None)
      case Some(f) =>
        var r :- RedisAllocation.FromDict(f);
        Ok(Some(r))
    }

    static function FromDict(o: Object): Outcome<PackAllocation> {
      var packName :- TextField(o, "PackSharedAllocation", "pack_name");
      var networkAlias :- TextField(o, "PackSharedAllocation", "network_alias");
      var postgresPayload :- OptionalObject(o, "PackSharedAllocation", "postgres");
      var redisPayload :- OptionalObject(o, "PackSharedAllocation", "redis");
      var postgres :- PostgresOf(postgresPayload);
      var redis :- RedisOf(redisPayload);
      Make(packName, networkAlias, postgres, redis)
    }

    predicate SaysPostgres(j: Json) {
      match postgres
      case None => j == JNull
      case Some(p) => j.JObj? && p.Says(j.fields)
    }

    predicate SaysRedis(j: Json) {
      match redis
      case None => j == JNull
      case Some(r) => j.JObj? && r.Says(j.fields)
    }

    predicate Says(o: Object) {
      && Get(o, "pack_name") == JStr(packName) && Get(o, "network_alias") == JStr(networkAlias)
      && SaysPostgres(Get(o, "postgres")) && SaysRedis(Get(o, "redis"))
    }

    predicate PostgresValid() { postgres.Some? ==> postgres.value.Valid() }

    predicate RedisValid() { redis.Some? ==> redis.value.Valid() }

    lemma PostgresReads(o: Object)
      ensures var payload := OptionalObject(o, "PackSharedAllocation", "postgres");
              payload.Ok? && PostgresOf(payload.value) == Ok(postgres)
              <==> PostgresValid() && SaysPostgres(Get(o, "postgres"))
      ensures SaysPostgres(if postgres.None? then JNull else JObj(postgres.value.ToDict()))
    {
      var j := Get(o, "postgres");
      if postgres.Some? {
        postgres.value.Reads(postgres.value.ToDict());
        if j.JObj? { postgres.value.Reads(j.fields); }
      }
      hide PostgresAllocation.FromDict, PostgresAllocation.Valid, PostgresAllocation.Says, PostgresAllocation.ToDict;
    }

    lemma RedisReads(o: Object)
      ensures var payload := OptionalObject(o, "PackSharedAllocation", "redis");
              payload.Ok? && RedisOf(payload.value) == Ok(redis) <==> RedisValid() && SaysRedis(Get(o, "redis"))
      ensures SaysRedis(if redis.None? then JNull else JObj(redis.value.ToDict()))
    {
      var j := Get(o, "redis");
      if redis.Some? {
        redis.value.Reads(redis.value.ToDict());
        if j.JObj? { redis.value.Reads(j.fields); }
      }
      hide RedisAllocation.FromDict, RedisAllocation.Valid, RedisAllocation.Says, RedisAllocation.ToDict;
    }

    lemma Reads(o: Object)
      ensures FromDict(o) == Ok(this) <==> Valid() && Says(o)
      ensures Says(ToDict())
    {
      PostgresReads(o);
      RedisReads(o);
      hide PostgresOf, RedisOf, OptionalObject, SaysPostgres, SaysRedis, PostgresValid, RedisValid;
    }
  }

  /** In code-point order, equal names allowed: the tuple is its own sorted copy. */
  predicate PacksSorted(ps: seq<PackAllocation>) {
    forall i, j | 0 <= i < j < |ps| :: !Before(ps[j].packName, ps[i].packName)
  }

  function AllocationsOf(items: seq<Json>): Outcome<seq<PackAllocation>> {
    if items == [] then Ok([])
    else if !items[0].JObj? then Err("SharedCorePlan allocation entries must be objects.")
    else
      var first :- PackAllocation.FromDict(items[0].fields);
      var rest :- AllocationsOf(items[1..]);
      Ok([first] + rest)
  }

  predicate EntrySays(p: PackAllocation, j: Json) { j.JObj? && p.Says(j.fields) }

  predicate AllocationsSay(ps: seq<PackAllocation>, items: seq<Json>) {
    |ps| == |items| && forall i :: 0 <= i < |ps| ==> EntrySays(ps[i], items[i])
  }

  predicate AllocationsValid(ps: seq<PackAllocation>) { forall p <- ps :: p.Valid() }

  function AllocationDicts(ps: seq<PackAllocation>): seq<Json> {
    seq(|ps|, i requires 0 <= i < |ps| => JObj(ps[i].ToDict()))
  }

  lemma {:induction false} AllocationsRead(items: seq<Json>, ps: seq<PackAllocation>)
    ensures AllocationsOf(items) == Ok(ps) <==> AllocationsValid(ps) && AllocationsSay(ps, items)
  {
    hide PackAllocation.FromDict, PackAllocation.Valid, EntrySays, AllocationsSay, AllocationsValid;
    SayingSplits(ps, items);
    if items != [] && ps != [] {
      AllocationsRead(items[1..], ps[1..]);
      assert ps == [ps[0]] + ps[1..];
      EntryReads(ps[0], items[0]);
    }
  }

  lemma EntryReads(p: PackAllocation, j: Json)
    ensures EntrySays(p, j) && p.Valid() <==> j.JObj? && PackAllocation.FromDict(j.fields) == Ok(p)
  {
    hide PackAllocation.FromDict, PackAllocation.Valid, PackAllocation.Says;
    if j.JObj? { p.Reads(j.fields); }
  }

  lemma SayingSplits(ps: seq<PackAllocation>, items: seq<Json>)
    ensures ps == [] ==> AllocationsValid(ps) && (AllocationsSay(ps, items) <==> items == [])
    ensures items == [] && AllocationsSay(ps, items) ==> ps == []
    ensures ps != [] && items != [] ==>
              && (AllocationsValid(ps) <==> ps[0].Valid() && AllocationsValid(ps[1..]))
              && (AllocationsSay(ps, items) <==> EntrySays(ps[0], items[0]) && AllocationsSay(ps[1..], items[1..]))
  {
    hide PackAllocation.Valid, EntrySays;
    if ps != [] && items != [] {
      assert ps == [ps[0]] + ps[1..];
      forall i | 0 <= i < |ps[1..]| && i + 1 < |items|
        ensures ps[1..][i] == ps[i + 1] && items[1..][i] == items[i + 1]
      {
      }
    }
  }

  lemma AllocationsSayTheirDicts(ps: seq<PackAllocation>)
    ensures AllocationsSay(ps, AllocationDicts(ps))
  {
    hide PackAllocation.Says, PackAllocation.ToDict;
    forall i | 0 <= i < |ps| ensures EntrySays(ps[i], AllocationDicts(ps)[i]) {
      ps[i].Reads(ps[i].ToDict());
    }
  }

  lemma AllocationsFieldReads(o: Object, ps: seq<PackAllocation>)
    ensures var items := ListField(o, PLAN, "allocations");
            items.Ok? && AllocationsOf(items.value) == Ok(ps)
            <==> AllocationsValid(ps) && Get(o, "allocations").JArr? && AllocationsSay(ps, Get(o, "allocations").items)
  {
    hide AllocationsOf, AllocationsValid, AllocationsSay, Get;
    var j := Get(o, "allocations");
    if j.JArr? { AllocationsRead(j.items, ps); }
  }

  // ---- Optional parts ----

  function ServiceOf(payload: Option<Object>, owner: string): Outcome<Option<NamedService>> {
    match payload
    case None => Ok(None)
    case Some(f) =>
      var s :- NamedService.FromDict(f, owner);
      Ok(Some(s))
  }

  function MailRelayOf(payload: Option<Object>): Outcome<Option<MailRelay>> {
    match payload
    case None => Ok(None)
    case Some(f) =>
      var m :- MailRelay.FromDict(f);
      Ok(Some(m))
  }

  function LiteLLMOf(payload: Option<Object>): Outcome<Option<LiteLLM>> {
    match payload
    case None => Ok(None)
    case Some(f) =>
      var l :- LiteLLM.FromDict(f);
      Ok(Some(l))
  }

  predicate ServiceValid(s: Option<NamedService>) { s.Some? ==> s.value.Valid() }

  predicate MailRelayValid(m: Option<MailRelay>) { m.Some? ==> m.value.Valid() }

  predicate LiteLLMValid(l: Option<LiteLLM>) { l.Some? ==> l.value.Valid() }

  predicate ServiceSays(s: Option<NamedService>, j: Json) {
    match s case None => j == JNull case Some(v) => j.JObj? && v.Says(j.fields)
  }

  predicate MailRelaySays(m: Option<MailRelay>, j: Json) {
    match m case None => j == JNull case Some(v) => j.JObj? && v.Says(j.fields)
  }

  predicate LiteLLMSays(l: Option<LiteLLM>, j: Json) {
    match l case None => j == JNull case Some(v) => j.JObj? && v.Says(j.fields)
  }

  function ServiceDict(s: Option<NamedService>): Json { match s case None => JNull case Some(v) => JObj(v.ToDict()) }

  function MailRelayDict(m: Option<MailRelay>): Json { match m case None => JNull case Some(v) => JObj(v.ToDict()) }

  function LiteLLMDict(l: Option<LiteLLM>): Json { match l case None => JNull case Some(v) => JObj(v.ToDict()) }

  const PLAN := "SharedCorePlan"

  lemma ServiceReads(o: Object, key: string, owner: string, s: Option<NamedService>)
    ensures var payload := OptionalObject(o, PLAN, key);
            payload.Ok? && ServiceOf(payload.value, owner) == Ok(s) <==> ServiceValid(s) && ServiceSays(s, Get(o, key))
    ensures ServiceSays(s, ServiceDict(s))
  {
    var j := Get(o, key);
    if s.Some? {
      s.value.Reads(s.value.ToDict(), owner);
      if j.JObj? { s.value.Reads(j.fields, owner); }
    }
    hide NamedService.FromDict, NamedService.Valid, NamedService.Says, NamedService.ToDict, Get;
  }

  lemma MailRelayReads(o: Object, m: Option<MailRelay>)
    ensures var payload := OptionalObject(o, PLAN, "mail_relay");
            payload.Ok? && MailRelayOf(payload.value) == Ok(m)
            <==> MailRelayValid(m) && MailRelaySays(m, Get(o, "mail_relay"))
    ensures MailRelaySays(m, MailRelayDict(m))
  {
    var j := Get(o, "mail_relay");
    if m.Some? {
      m.value.Reads(m.value.ToDict());
      if j.JObj? { m.value.Reads(j.fields); }
    }
    hide MailRelay.FromDict, MailRelay.Valid, MailRelay.Says, MailRelay.ToDict, Get;
  }

  lemma LiteLLMReads(o: Object, l: Option<LiteLLM>)
    ensures var payload := OptionalObject(o, PLAN, "litellm");
            payload.Ok? && LiteLLMOf(payload.value) == Ok(l) <==> LiteLLMValid(l) && LiteLLMSays(l, Get(o, "litellm"))
    ensures LiteLLMSays(l, LiteLLMDict(l))
  {
    var j := Get(o, "litellm");
    if l.Some? {
      l.value.Reads(l.value.ToDict());
      if j.JObj? { l.value.Reads(j.fields); }
    }
    hide LiteLLM.FromDict, LiteLLM.Valid, LiteLLM.Says, LiteLLM.ToDict, Get;
  }

  // ---- The plan ----

  datatype SharedCorePlan = SharedCorePlan(
    networkName: string, postgres: Option<NamedService>, redis: Option<NamedService>,
    allocations: seq<PackAllocation>, mailRelay: Option<MailRelay>, litellm: Option<LiteLLM>,
    modelSync: Option<NamedService>)
  {
    predicate Checked() { networkName != "" && PacksSorted(allocations) }

    /** Every record of the plan, at any depth, passes its construction checks. */
    predicate Valid() {
      && Checked() && AllocationsValid(allocations)
      && ServiceValid(postgres) && ServiceValid(redis) && ServiceValid(modelSync)
      && MailRelayValid(mailRelay) && LiteLLMValid(litellm)
    }

    predicate RequiresReconciliation() { allocations != [] || mailRelay.Some? || litellm.Some? }

    /** Only a plan that asks for nothing at all can be skipped. */
    lemma NothingRequired()
      ensures !RequiresReconciliation() <==> allocations == [] && mailRelay == None && litellm == None
    {}

    function ToDict(): Object {
      map["allocations" := JArr(AllocationDicts(allocations)),
          "litellm" := LiteLLMDict(litellm),
          "model_sync" := ServiceDict(modelSync),
          "network_name" := JStr(networkName),
          "mail_relay" := MailRelayDict(mailRelay),
          "postgres" := ServiceDict(postgres),
          "redis" := ServiceDict(redis)]
    }

    static function Make(networkName: string, postgres: Option<NamedService>, redis: Option<NamedService>,
                         allocations: seq<PackAllocation>, mailRelay: Option<MailRelay>, litellm: Option<LiteLLM>,
                         modelSync: Option<NamedService>): Outcome<SharedCorePlan>
    {
      var _ :- NonEmpty(networkName, "network_name");
      if !PacksSorted(allocations) then Err("SharedCorePlan allocations must be sorted by pack_name.")
      else Ok(SharedCorePlan(networkName, postgres, redis, allocations, mailRelay, litellm, modelSync))
    }

    static function FromDict(o: Object): Outcome<SharedCorePlan> {
      var networkName :- TextField(o, PLAN, "network_name");
      var litellmPayload :- OptionalObject(o, PLAN, "litellm");
      var mailRelayPayload :- OptionalObject(o, PLAN, "mail_relay");
      var postgresPayload :- OptionalObject(o, PLAN, "postgres");
      var redisPayload :- OptionalObject(o, PLAN, "redis");
      var items :- ListField(o, PLAN, "allocations");
      var allocations :- AllocationsOf(items);
      var modelSyncPayload :- OptionalObject(o, PLAN, "model_sync");
      var litellm :- LiteLLMOf(litellmPayload);
      var modelSync :- ServiceOf(modelSyncPayload, "SharedModelSyncPlan");
      var mailRelay :- MailRelayOf(mailRelayPayload);
      var postgres :- ServiceOf(postgresPayload, "SharedPostgresServicePlan");
      var redis :- ServiceOf(redisPayload, "SharedRedisServicePlan");
      Make(networkName, postgres, redis, allocations, mailRelay, litellm, modelSync)
    }

    /** The object says this plan: nothing but what is read for it decides. */
    predicate Says(o: Object) {
      && Get(o, "network_name") == JStr(networkName)
      && Get(o, "allocations").JArr? && AllocationsSay(allocations, Get(o, "allocations").items)
      && ServiceSays(postgres, Get(o, "postgres")) && ServiceSays(redis, Get(o, "redis"))
      && ServiceSays(modelSync, Get(o, "model_sync"))
      && MailRelaySays(mailRelay, Get(o, "mail_relay")) && LiteLLMSays(litellm, Get(o, "litellm"))
    }

    lemma PartsRead(o: Object)
      ensures var payload := OptionalObject(o, PLAN, "postgres");
              payload.Ok? && ServiceOf(payload.value, "SharedPostgresServicePlan") == Ok(postgres)
              <==> ServiceValid(postgres) && ServiceSays(postgres, Get(o, "postgres"))
      ensures var payload := OptionalObject(o, PLAN, "redis");
              payload.Ok? && ServiceOf(payload.value, "SharedRedisServicePlan") == Ok(redis)
              <==> ServiceValid(redis) && ServiceSays(redis, Get(o, "redis"))
      ensures var payload := OptionalObject(o, PLAN, "model_sync");
              payload.Ok? && ServiceOf(payload.value, "SharedModelSyncPlan") == Ok(modelSync)
              <==> ServiceValid(modelSync) && ServiceSays(modelSync, Get(o, "model_sync"))
      ensures var payload := OptionalObject(o, PLAN, "mail_relay");
              payload.Ok? && MailRelayOf(payload.value) == Ok(mailRelay)
              <==> MailRelayValid(mailRelay) && MailRelaySays(mailRelay, Get(o, "mail_relay"))
      ensures var payload := OptionalObject(o, PLAN, "litellm");
              payload.Ok? && LiteLLMOf(payload.value) == Ok(litellm)
              <==> LiteLLMValid(litellm) && LiteLLMSays(litellm, Get(o, "litellm"))
      ensures var items := ListField(o, PLAN, "allocations");
              items.Ok? && AllocationsOf(items.value) == Ok(allocations)
              <==> AllocationsValid(allocations) && Get(o, "allocations").JArr?
                   && AllocationsSay(allocations, Get(o, "allocations").items)
    {
      hide *;
      ServiceReads(o, "postgres", "SharedPostgresServicePlan", postgres);
      ServiceReads(o, "redis", "SharedRedisServicePlan", redis);
      ServiceReads(o, "model_sync", "SharedModelSyncPlan", modelSync);
      MailRelayReads(o, mailRelay);
      LiteLLMReads(o, litellm);
      AllocationsFieldReads(o, allocations);
    }

    lemma ReadsOnlyIf(o: Object)
      requires FromDict(o) == Ok(this)
      ensures Valid() && Says(o)
    {
      PartsRead(o);
      hide ServiceOf, ServiceValid, ServiceSays, MailRelayOf, MailRelayValid, MailRelaySays, PacksSorted;
      hide LiteLLMOf, LiteLLMValid, LiteLLMSays, OptionalObject, ListField;
      hide Get, AllocationsOf, AllocationsValid, AllocationsSay;
    }

    lemma ReadsIf(o: Object)
      requires Valid() && Says(o)
      ensures FromDict(o) == Ok(this)
    {
      PartsRead(o);
      hide ServiceOf, ServiceValid, ServiceSays, MailRelayOf, MailRelayValid, MailRelaySays, PacksSorted;
      hide LiteLLMOf, LiteLLMValid, LiteLLMSays, OptionalObject, ListField;
      hide Get, AllocationsOf, AllocationsValid, AllocationsSay;
    }

    /** Reading gives a plan exactly when the plan is valid and the object says it. */
    lemma Reads(o: Object)
      ensures FromDict(o) == Ok(this) <==> Valid() && Says(o)
    {
      if FromDict(o) == Ok(this) { ReadsOnlyIf(o); }
      if Valid() && Says(o) { ReadsIf(o); }
      hide *;
    }

    lemma SaysWhatItWrites()
      ensures Says(ToDict())
    {
      ServiceReads(map[], "", "", postgres);
      ServiceReads(map[], "", "", redis);
      ServiceReads(map[], "", "", modelSync);
      MailRelayReads(map[], mailRelay);
      LiteLLMReads(map[], litellm);
      AllocationsSayTheirDicts(allocations);
      hide ServiceSays, MailRelaySays, LiteLLMSays, AllocationsSay;
      hide ServiceDict, MailRelayDict, LiteLLMDict, AllocationDicts;
    }

    /** A valid plan, written and read back, is itself. */
    lemma RoundTrip()
      ensures FromDict(ToDict()) == Ok(this) <==> Valid()
    {
      Reads(ToDict());
      SaysWhatItWrites();
      hide *;
    }
  }

  /** Whatever the object, a plan that is read is valid, and writing it reads back as the same plan. */
  lemma ReadPlansAreValid(o: Object)
    ensures var r := SharedCorePlan.FromDict(o);
            r.Ok? ==> r.value.Valid() && SharedCorePlan.FromDict(r.value.ToDict()) == r
  {
    var r := SharedCorePlan.FromDict(o);
    if r.Ok? {
      r.value.Reads(o);
      r.value.RoundTrip();
    }
    hide *;
  }

  function Prefixed(done: seq<PackAllocation>, r: Outcome<seq<PackAllocation>>): Outcome<seq<PackAllocation>> {
    match r
    case Ok(rest) => Ok(done + rest)
    case Err(e) => Err(e)
  }

  lemma PrefixedTwice(a: seq<PackAllocation>, b: seq<PackAllocation>, r: Outcome<seq<PackAllocation>>)
    ensures Prefixed(a, Prefixed(b, r)) == Prefixed(a + b, r)
    ensures Prefixed([], r) == r
  {
    match r
    case Ok(rest) =>
      Regroup(a, b, rest);
      assert [] + rest == rest;
    case Err(e) =>
  }

  /** The loop that collects the decoded allocations. */
  method DecodeAllocations(items: seq<Json>) returns (r: Outcome<seq<PackAllocation>>)
    ensures r == AllocationsOf(items)
  {
    hide PackAllocation.FromDict, Prefixed;
    var allocations: seq<PackAllocation> := [];
    PrefixedTwice([], [], AllocationsOf(items));
    assert items[0..] == items;
    for i := 0 to |items|
      invariant AllocationsOf(items) == Prefixed(allocations, AllocationsOf(items[i..]))
    {
      assert items[i..][0] == items[i] && items[i..][1..] == items[i + 1..];
      FirstDecoded(allocations, items[i..]);
      if !items[i].JObj? { return Err("SharedCorePlan allocation entries must be objects."); }
      var decoded := PackAllocation.FromDict(items[i].fields);
      if decoded.Err? { return Err(decoded.error); }
      allocations := allocations + [decoded.value];
    }
    assert items[|items|..] == [];
    FirstDecoded(allocations, []);
    return Ok(allocations);
  }

  lemma FirstDecoded(done: seq<PackAllocation>, items: seq<Json>)
    ensures Prefixed(done, AllocationsOf(items)) ==
            if items == [] then Ok(done)
            else if !items[0].JObj? then Err("SharedCorePlan allocation entries must be objects.")
            else
              match PackAllocation.FromDict(items[0].fields)
              case Err(e) => Err(e)
              case Ok(first) => Prefixed(done + [first], AllocationsOf(items[1..]))
  {
    hide PackAllocation.FromDict;
    if items == [] {
      assert done + [] == done;
    } else if items[0].JObj? && PackAllocation.FromDict(items[0].fields).Ok? {
      PrefixedTwice(done, [PackAllocation.FromDict(items[0].fields).value], AllocationsOf(items[1..]));
    }
  }
}
