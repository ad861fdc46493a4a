/** Rescan schedules of the advisor workspaces (`_ensure_openclaw_rescan_schedule` in
    `dokploy/nextcloud.py`): one schedule a contract, created or brought up to date. */
module RescanSchedules {
  import opened Text
  import E = ExternalStorage
  import C = ComposeApply

  datatype Fields = Fields(
    service: string, cron: string, timezone: string, shell: string, command: string, enabled: bool)

  datatype Schedule = Schedule(id: string, name: string, fields: Fields)

  function ScheduleName(stack: string, identity: string): string {
    stack + "-" + identity + "-rescan"
  }

  /** Names of one stack tell identities apart. */
  lemma NameIsInjective(stack: string, a: string, b: string)
    ensures ScheduleName(stack, a) == ScheduleName(stack, b) <==> a == b
  {
    var x, y := ScheduleName(stack, a), ScheduleName(stack, b);
    assert x[|stack| + 1..|x| - 7] == a && y[|stack| + 1..|y| - 7] == b;
  }

  datatype Settings = Settings(stack: string, user: string, cron: string, timezone: string)

  /** Where the contract's files show up; the contract's own name when no container can be asked. */
  function ActiveName(ms: seq<E.Mount>, running: bool, c: E.Contract): string {
    if running && E.Existing(ms, c).Some? then E.Existing(ms, c).value.1 else c.name
  }

  function Desired(t: Settings, ms: seq<E.Mount>, running: bool, c: E.Contract): Fields {
    Fields(t.stack + "-nextcloud", t.cron, t.timezone, "bash",
           "php /var/www/html/occ files:scan --path=\"" + t.user + "/files" + ActiveName(ms, running, c) + "\"", true)
  }

  // ---- One contract's turn ----

  function LastNamed(ss: seq<Schedule>, name: string): (r: Option<Schedule>)
    ensures r.Some? ==> r.value in ss && r.value.name == name
    ensures r.None? ==> forall s <- ss :: s.name != name
  {
    if ss == [] then None
    else
      var n := |ss| - 1;
      assert ss == ss[..n] + [ss[n]];
      if ss[n].name == name then Some(ss[n]) else LastNamed(ss[..n], name)
  }

  datatype Target = Target(name: string, fields: Fields)

  predicate Scheduled(ss: seq<Schedule>, t: Target) {
    LastNamed(ss, t.name).Some? && LastNamed(ss, t.name).value.fields == t.fields
  }

  function Ids(ss: seq<Schedule>): seq<string> { seq(|ss|, i requires 0 <= i < |ss| => ss[i].id) }

  function Created(ss: seq<Schedule>, name: string, f: Fields): seq<Schedule> {
    ss + [Schedule(C.NewId(Ids(ss)), name, f)]
  }

  function Set(s: Schedule, id: string, name: string, f: Fields): Schedule {
    if s.id == id then Schedule(id, name, f) else s
  }

  function Updated(ss: seq<Schedule>, id: string, name: string, f: Fields): seq<Schedule> {
    if ss == [] then []
    else Updated(ss[..|ss| - 1], id, name, f) + [Set(ss[|ss| - 1], id, name, f)]
  }

  /** A turn, given what the listing at the start of the pass had for the name. */
  function Turn(ss: seq<Schedule>, listed: Option<Schedule>, name: string, f: Fields): seq<Schedule> {
    match listed
    case None => Created(ss, name, f)
    case Some(e) => if e.fields != f then Updated(ss, e.id, name, f) else ss
  }

  predicate IdsName(ss: seq<Schedule>) { forall s <- ss, s' <- ss :: s.id == s'.id ==> s == s' }

  /** The schedules under none of the names. */
  function Others(ss: seq<Schedule>, names: set<string>): seq<Schedule> {
    if ss == [] then []
    else
      var n := |ss| - 1;
      if ss[n].name in names then Others(ss[..n], names) else Others(ss[..n], names) + [ss[n]]
  }

  lemma CreatedIdIsNew(ss: seq<Schedule>)
    ensures forall s <- ss :: s.id != C.NewId(Ids(ss))
  {
    forall s | s in ss ensures s.id != C.NewId(Ids(ss)) {
      var i :| 0 <= i < |ss| && ss[i] == s;
      assert Ids(ss)[i] in Ids(ss);
    }
  }

  /** A lookup after an update by id, for schedules that only share the id when they share the name. */
  lemma {:induction false} LastOfUpdated(ss: seq<Schedule>, id: string, name: string, f: Fields, asked: string)
    requires forall s <- ss :: s.id == id ==> s.name == name
    ensures LastNamed(Updated(ss, id, name, f), asked)
            == match LastNamed(ss, asked) case None => None case Some(s) => Some(Set(s, id, name, f))
  {
    if ss != [] {
      var n := |ss| - 1;
      assert ss == ss[..n] + [ss[n]];
      LastOfUpdated(ss[..n], id, name, f, asked);
      UpdatedLength(ss[..n], id, name, f);
      assert Updated(ss, id, name, f)[..|ss| - 1] == Updated(ss[..n], id, name, f);
    }
  }

  lemma {:induction false} UpdatedLength(ss: seq<Schedule>, id: string, name: string, f: Fields)
    ensures |Updated(ss, id, name, f)| == |ss|
    ensures forall s' <- Updated(ss, id, name, f) :: exists s <- ss :: s' == Set(s, id, name, f)
  {
    if ss != [] {
      var n := |ss| - 1;
      UpdatedLength(ss[..n], id, name, f);
      assert ss == ss[..n] + [ss[n]];
    }
  }

  lemma {:induction false} OthersOfUpdated(ss: seq<Schedule>, id: string, name: string, f: Fields, names: set<string>)
    requires name in names && forall s <- ss :: s.id == id ==> s.name == name
    ensures Others(Updated(ss, id, name, f), names) == Others(ss, names)
  {
    if ss != [] {
      var n := |ss| - 1;
      assert ss == ss[..n] + [ss[n]];
      OthersOfUpdated(ss[..n], id, name, f, names);
      UpdatedLength(ss[..n], id, name, f);
      assert Updated(ss, id, name, f)[..n] == Updated(ss[..n], id, name, f);
    }
  }

  lemma LastOfCreated(ss: seq<Schedule>, name: string, f: Fields, asked: string)
    ensures LastNamed(Created(ss, name, f), asked)
            == if asked == name then Some(Schedule(C.NewId(Ids(ss)), name, f)) else LastNamed(ss, asked)
    ensures Others(Created(ss, name, f), {name}) == Others(ss, {name})
    ensures IdsName(ss) ==> IdsName(Created(ss, name, f))
  {
    var made := Created(ss, name, f);
    assert made[..|ss|] == ss;
    CreatedIdIsNew(ss);
  }

  lemma UpdatedKeepsIds(ss: seq<Schedule>, id: string, name: string, f: Fields)
    requires IdsName(ss)
    ensures IdsName(Updated(ss, id, name, f))
  {
    hide Updated;
    UpdatedLength(ss, id, name, f);
    var u := Updated(ss, id, name, f);
    forall x, y | x in u && y in u && x.id == y.id ensures x == y {
      var s :| s in ss && x == Set(s, id, name, f);
      var s' :| s' in ss && y == Set(s', id, name, f);
    }
  }

  /** How many schedules bear a name. */
  function Count(ss: seq<Schedule>, name: string): nat {
    if ss == [] then 0 else Count(ss[..|ss| - 1], name) + if ss[|ss| - 1].name == name then 1 else 0
  }

  lemma {:induction false} CountUpdated(ss: seq<Schedule>, id: string, name: string, f: Fields, asked: string)
    requires forall s <- ss :: s.id == id ==> s.name == name
    ensures Count(Updated(ss, id, name, f), asked) == Count(ss, asked)
  {
    if ss != [] {
      var n := |ss| - 1;
      assert ss == ss[..n] + [ss[n]];
      CountUpdated(ss[..n], id, name, f, asked);
      UpdatedLength(ss[..n], id, name, f);
      assert Updated(ss, id, name, f)[..n] == Updated(ss[..n], id, name, f);
    }
  }

  lemma CountCreated(ss: seq<Schedule>, name: string, f: Fields, asked: string)
    ensures Count(Created(ss, name, f), asked) == Count(ss, asked) + if asked == name then 1 else 0
  {
    assert Created(ss, name, f)[..|ss|] == ss;
  }

  /** A name that was listed still has the schedule it was listed with last, perhaps with new fields. */
  ghost predicate Tracks(ss: seq<Schedule>, listed: seq<Schedule>) {
    && IdsName(ss)
    && forall name: string :: LastNamed(listed, name).Some? ==>
         LastNamed(ss, name).Some? && LastNamed(ss, name).value.id == LastNamed(listed, name).value.id
  }

  lemma TracksItself(ss: seq<Schedule>)
    requires IdsName(ss)
    ensures Tracks(ss, ss)
  {
    hide LastNamed, IdsName;
  }

  lemma OneOfTheId(ss: seq<Schedule>, name: string, id: string)
    requires IdsName(ss) && LastNamed(ss, name).Some? && LastNamed(ss, name).value.id == id
    ensures forall s <- ss :: s.id == id ==> s.name == name
  {}

  /** What a turn does: its name has the desired fields, unless it was listed with them; one schedule more
      exactly when none was listed; every other name is left alone. */
  lemma TurnDoes(ss: seq<Schedule>, listed: seq<Schedule>, t: Target, asked: string)
    requires Tracks(ss, listed)
    ensures var l := LastNamed(listed, t.name);
            var s' := Turn(ss, l, t.name, t.fields);
            && (if l.Some? && l.value.fields == t.fields then s' == ss else Scheduled(s', t))
            && (asked != t.name ==> LastNamed(s', asked) == LastNamed(ss, asked))
            && (LastNamed(ss, asked).Some? && (l.Some? || asked != t.name) ==>
                  LastNamed(s', asked).Some? && LastNamed(s', asked).value.id == LastNamed(ss, asked).value.id)
            && Count(s', asked) == Count(ss, asked) + (if l.None? && asked == t.name then 1 else 0)
            && Others(s', {t.name}) == Others(ss, {t.name}) && IdsName(s')
  {
    hide LastNamed, Created, Updated, Others, Count, IdsName;
    var name, f := t.name, t.fields;
    match LastNamed(listed, name)
    case None =>
      LastOfCreated(ss, name, f, name);
      LastOfCreated(ss, name, f, asked);
      CountCreated(ss, name, f, asked);
    case Some(e) =>
      OneOfTheId(ss, name, e.id);
      LastOfUpdated(ss, e.id, name, f, name);
      LastOfUpdated(ss, e.id, name, f, asked);
      OthersOfUpdated(ss, e.id, name, f, {name});
      CountUpdated(ss, e.id, name, f, asked);
      UpdatedKeepsIds(ss, e.id, name, f);
  }

  lemma TurnTracks(ss: seq<Schedule>, listed: seq<Schedule>, t: Target)
    requires Tracks(ss, listed)
    ensures Tracks(Turn(ss, LastNamed(listed, t.name), t.name, t.fields), listed)
  {
    hide LastNamed, Turn, Others, Count, IdsName;
    TurnDoes(ss, listed, t, t.name);
    var s' := Turn(ss, LastNamed(listed, t.name), t.name, t.fields);
    forall name: string | LastNamed(listed, name).Some?
      ensures LastNamed(s', name).Some? && LastNamed(s', name).value.id == LastNamed(listed, name).value.id
    {
      TurnDoes(ss, listed, t, name);
    }
  }

  // ---- The pass ----

  function Targets(t: Settings, ms: seq<E.Mount>, running: bool, cs: seq<E.Contract>): (r: seq<Target>)
    ensures |r| == |cs|
    ensures forall i :: 0 <= i < |cs| ==>
              r[i] == Target(ScheduleName(t.stack, cs[i].identity), Desired(t, ms, running, cs[i]))
  {
    seq(|cs|, i requires 0 <= i < |cs| =>
      Target(ScheduleName(t.stack, cs[i].identity), Desired(t, ms, running, cs[i])))
  }

  function Pass(ss: seq<Schedule>, listed: seq<Schedule>, ts: seq<Target>): seq<Schedule>
    decreases |ts|
  {
    if ts == [] then ss
    else Pass(Turn(ss, LastNamed(listed, ts[0].name), ts[0].name, ts[0].fields), listed, ts[1..])
  }

  predicate DistinctNames(ts: seq<Target>) {
    forall i, j | 0 <= i < |ts| && 0 <= j < |ts| :: ts[i].name == ts[j].name ==> i == j
  }

  predicate DistinctIdentities(cs: seq<E.Contract>) {
    forall i, j | 0 <= i < |cs| && 0 <= j < |cs| :: cs[i].identity == cs[j].identity ==> i == j
  }

  function NamesOf(ts: seq<Target>): set<string> { set t <- ts :: t.name }

  lemma IdentitiesNameTargets(t: Settings, ms: seq<E.Mount>, running: bool, cs: seq<E.Contract>)
    ensures DistinctIdentities(cs) <==> DistinctNames(Targets(t, ms, running, cs))
  {
    var ts := Targets(t, ms, running, cs);
    forall i, j | 0 <= i < |cs| && 0 <= j < |cs|
      ensures ts[i].name == ts[j].name <==> cs[i].identity == cs[j].identity
    {
      NameIsInjective(t.stack, cs[i].identity, cs[j].identity);
    }
    hide Targets, ScheduleName, Desired;
  }

  lemma {:induction false} OthersIn(ss: seq<Schedule>, few: set<string>, names: set<string>)
    requires few <= names
    ensures Others(Others(ss, few), names) == Others(ss, names)
  {
    if ss != [] {
      var n := |ss| - 1;
      OthersIn(ss[..n], few, names);
      var o := Others(ss[..n], few);
      if ss[n].name !in few { assert (o + [ss[n]])[..|o|] == o; }
    }
  }

  function CountTargets(ts: seq<Target>, name: string): nat {
    if ts == [] then 0 else (if ts[0].name == name then 1 else 0) + CountTargets(ts[1..], name)
  }

  /** Along every pass: names outside are untouched, and every target whose name was not listed makes a
      schedule of its own. */
  lemma {:induction false} PassCounts(ss: seq<Schedule>, listed: seq<Schedule>, ts: seq<Target>, asked: string,
                                      names: set<string>)
    requires Tracks(ss, listed) && NamesOf(ts) <= names
    ensures var s' := Pass(ss, listed, ts);
            && Tracks(s', listed) && Others(s', names) == Others(ss, names)
            && Count(s', asked) == Count(ss, asked)
                                   + if LastNamed(listed, asked).None? then CountTargets(ts, asked) else 0
    decreases |ts|
  {
    hide LastNamed, Turn, Tracks, Others, Count, Scheduled;
    if ts != [] {
      var t, rest := ts[0], ts[1..];
      assert ts == [t] + rest && t in ts;
      var next := Turn(ss, LastNamed(listed, t.name), t.name, t.fields);
      TurnDoes(ss, listed, t, asked);
      TurnTracks(ss, listed, t);
      OthersIn(ss, {t.name}, names);
      OthersIn(next, {t.name}, names);
      PassCounts(next, listed, rest, asked, names);
    }
  }

  /** The schedules a pass may update: for each target's name the one listed last. */
  function ListedIds(listed: seq<Schedule>, ts: seq<Target>): set<string> {
    set t <- ts | LastNamed(listed, t.name).Some? :: LastNamed(listed, t.name).value.id
  }

  /** All others, under whatever names, in order. */
  function Spared(ss: seq<Schedule>, ids: set<string>): seq<Schedule> {
    if ss == [] then []
    else Spared(ss[..|ss| - 1], ids) + if ss[|ss| - 1].id in ids then [] else [ss[|ss| - 1]]
  }

  lemma {:induction false} SparedOfUpdated(ss: seq<Schedule>, id: string, name: string, f: Fields, ids: set<string>)
    requires id in ids
    ensures Spared(Updated(ss, id, name, f), ids) == Spared(ss, ids)
  {
    if ss != [] {
      var n := |ss| - 1;
      SparedOfUpdated(ss[..n], id, name, f, ids);
      UpdatedLength(ss[..n], id, name, f);
      assert Updated(ss, id, name, f)[..n] == Updated(ss[..n], id, name, f);
    }
  }

  lemma {:induction false} OthersAre(ss: seq<Schedule>, names: set<string>, ids: set<string>)
    ensures forall s :: s in Others(ss, names) <==> s in ss && s.name !in names
    ensures forall s :: s in Spared(ss, ids) <==> s in ss && s.id !in ids
  {
    if ss != [] {
      OthersAre(ss[..|ss| - 1], names, ids);
      assert ss == ss[..|ss| - 1] + [ss[|ss| - 1]];
    }
  }

  /** A turn leaves them as they are; what it creates comes after them. */
  lemma TurnSpares(ss: seq<Schedule>, listed: seq<Schedule>, t: Target, ids: set<string>)
    requires LastNamed(listed, t.name).Some? ==> LastNamed(listed, t.name).value.id in ids
    ensures Spared(ss, ids) <= Spared(Turn(ss, LastNamed(listed, t.name), t.name, t.fields), ids)
  {
    hide LastNamed, Updated;
    match LastNamed(listed, t.name)
    case None => assert Created(ss, t.name, t.fields)[..|ss|] == ss;
    case Some(e) => SparedOfUpdated(ss, e.id, t.name, t.fields, ids);
  }

  /** A pass touches no schedule but the last one listed under each target's name, not even others of that
      name. */
  lemma {:induction false} PassSpares(ss: seq<Schedule>, listed: seq<Schedule>, ts: seq<Target>, ids: set<string>)
    requires ListedIds(listed, ts) <= ids
    ensures Spared(ss, ids) <= Spared(Pass(ss, listed, ts), ids)
    decreases |ts|
  {
    hide LastNamed, Turn, Spared;
    if ts != [] {
      var t, rest := ts[0], ts[1..];
      assert ts == [t] + rest && t in ts;
      TurnSpares(ss, listed, t, ids);
      PassSpares(Turn(ss, LastNamed(listed, t.name), t.name, t.fields), listed, rest, ids);
    }
  }

  /** Targets of one name want the same. */
  predicate FieldsAgree(ts: seq<Target>) { forall t <- ts, u <- ts :: t.name == u.name ==> t.fields == u.fields }

  /** A scheduled target stays so while no other of its name wants something else. */
  lemma {:induction false} StaysScheduled(ss: seq<Schedule>, listed: seq<Schedule>, ts: seq<Target>, u: Target)
    requires Tracks(ss, listed) && Scheduled(ss, u) && forall t <- ts :: t.name == u.name ==> t.fields == u.fields
    ensures Scheduled(Pass(ss, listed, ts), u)
    decreases |ts|
  {
    hide LastNamed, Turn, Tracks, Others, Count;
    if ts != [] {
      assert ts[0] in ts;
      TurnDoes(ss, listed, ts[0], u.name);
      TurnTracks(ss, listed, ts[0]);
      StaysScheduled(Turn(ss, LastNamed(listed, ts[0].name), ts[0].name, ts[0].fields), listed, ts[1..], u);
    }
  }

  /** Still as listed, or already as wanted. */
  predicate Current(ss: seq<Schedule>, listed: seq<Schedule>, t: Target) {
    LastNamed(ss, t.name) == LastNamed(listed, t.name) || Scheduled(ss, t)
  }

  lemma {:induction false} PassSchedules(ss: seq<Schedule>, listed: seq<Schedule>, ts: seq<Target>)
    requires Tracks(ss, listed) && FieldsAgree(ts) && forall t <- ts :: Current(ss, listed, t)
    ensures forall t <- ts :: Scheduled(Pass(ss, listed, ts), t)
    decreases |ts|
  {
    hide LastNamed, Turn, Tracks, Others, Count;
    if ts != [] {
      var t, rest := ts[0], ts[1..];
      assert ts == [t] + rest && t in ts;
      var next := Turn(ss, LastNamed(listed, t.name), t.name, t.fields);
      TurnDoes(ss, listed, t, t.name);
      TurnTracks(ss, listed, t);
      assert Scheduled(next, t);
      forall u | u in rest ensures Current(next, listed, u) {
        assert Current(ss, listed, u);
        TurnDoes(ss, listed, t, u.name);
      }
      PassSchedules(next, listed, rest);
      StaysScheduled(next, listed, rest, t);
    }
  }

  lemma {:induction false} ScheduledPass(ss: seq<Schedule>, listed: seq<Schedule>, ts: seq<Target>)
    requires forall t <- ts :: Scheduled(listed, t)
    ensures Pass(ss, listed, ts) == ss
    decreases |ts|
  {
    hide LastNamed;
    if ts != [] {
      assert ts[0] in ts;
      ScheduledPass(ss, listed, ts[1..]);
    }
  }

  // ---- Exactly when ----

  ghost predicate AlwaysSchedules(ts: seq<Target>) {
    forall ss: seq<Schedule> :: IdsName(ss) ==> AllScheduled(Pass(ss, ss, ts), ts)
  }

  predicate AllScheduled(ss: seq<Schedule>, ts: seq<Target>) { forall t <- ts :: Scheduled(ss, t) }

  /** Every pass leaves every target scheduled exactly when targets of one name want the same. */
  lemma PassSchedulesExactly(ts: seq<Target>)
    ensures AlwaysSchedules(ts) <==> FieldsAgree(ts)
  {
    hide LastNamed, Pass, IdsName;
    if FieldsAgree(ts) {
      forall ss: seq<Schedule> | IdsName(ss) ensures AllScheduled(Pass(ss, ss, ts), ts) {
        TracksItself(ss);
        PassSchedules(ss, ss, ts);
      }
    }
    if AlwaysSchedules(ts) {
      NoScheduleNoId();
      assert AllScheduled(Pass([], [], ts), ts);
    }
  }

  lemma NoScheduleNoId()
    ensures IdsName([])
  {}

  ghost predicate AddsAtMostOne(ts: seq<Target>) {
    forall ss: seq<Schedule>, name: string :: IdsName(ss) ==> Count(Pass(ss, ss, ts), name) <= Count(ss, name) + 1
  }

  /** Every pass adds at most one schedule of a name exactly when the targets' names are distinct. */
  lemma PassAddsOneExactly(ts: seq<Target>)
    ensures AddsAtMostOne(ts) <==> DistinctNames(ts)
  {
    hide LastNamed, Pass, IdsName, Count, Others, CountTargets, NamesOf, DistinctNames;
    if DistinctNames(ts) {
      forall ss: seq<Schedule>, name: string | IdsName(ss)
        ensures Count(Pass(ss, ss, ts), name) <= Count(ss, name) + 1
      {
        TracksItself(ss);
        PassCounts(ss, ss, ts, name, NamesOf(ts));
        DistinctCounts(ts, name);
      }
    }
    if AddsAtMostOne(ts) {
      forall name: string ensures CountTargets(ts, name) <= 1 {
        NoScheduleNoId();
        TracksItself([]);
        PassCounts([], [], ts, name, NamesOf(ts));
        NothingThere(name);
      }
      CountsDistinct(ts);
    }
  }

  lemma NothingThere(name: string)
    ensures Count([], name) == 0 && LastNamed([], name) == None
  {}

  lemma {:induction false} DistinctCounts(ts: seq<Target>, name: string)
    requires DistinctNames(ts)
    ensures CountTargets(ts, name) <= 1
    ensures (forall t <- ts :: t.name != name) ==> CountTargets(ts, name) == 0
  {
    if ts != [] {
      assert ts == [ts[0]] + ts[1..];
      RestDiffers(ts);
      DistinctCounts(ts[1..], name);
    }
  }

  lemma RestDiffers(ts: seq<Target>)
    requires ts != [] && DistinctNames(ts)
    ensures (forall u <- ts[1..] :: u.name != ts[0].name) && DistinctNames(ts[1..])
  {
    forall u | u in ts[1..] ensures u.name != ts[0].name {
      var i :| 0 <= i < |ts[1..]| && ts[1..][i] == u;
      assert ts[i + 1] == u;
    }
  }

  lemma {:induction false} CountsDistinct(ts: seq<Target>)
    requires forall name: string :: CountTargets(ts, name) <= 1
    ensures DistinctNames(ts)
  {
    if ts != [] {
      forall name: string ensures CountTargets(ts[1..], name) <= 1 {
        assert CountTargets(ts, name) <= 1;
      }
      CountsDistinct(ts[1..]);
      assert CountTargets(ts, ts[0].name) <= 1;
      forall j | 0 < j < |ts| ensures ts[j].name != ts[0].name {
        CountsOne(ts[1..], j - 1);
      }
      forall i, j | 0 <= i < |ts| && 0 <= j < |ts| && ts[i].name == ts[j].name ensures i == j {
        if i > 0 && j > 0 { assert ts[1..][i - 1].name == ts[1..][j - 1].name; }
      }
    }
  }

  lemma {:induction false} CountsOne(ts: seq<Target>, j: nat)
    requires j < |ts|
    ensures CountTargets(ts, ts[j].name) >= 1
  {
    if j > 0 { CountsOne(ts[1..], j - 1); }
  }

  /** Contracts of one identity show their files under one name; then their targets want the same. */
  predicate IdentitiesAgree(ms: seq<E.Mount>, running: bool, cs: seq<E.Contract>) {
    forall c <- cs, d <- cs :: c.identity == d.identity ==> ActiveName(ms, running, c) == ActiveName(ms, running, d)
  }

  lemma DesiredTells(t: Settings, ms: seq<E.Mount>, running: bool, c: E.Contract, d: E.Contract)
    ensures Desired(t, ms, running, c) == Desired(t, ms, running, d)
            <==> ActiveName(ms, running, c) == ActiveName(ms, running, d)
  {
    var head := "php /var/www/html/occ files:scan --path=\"" + t.user + "/files";
    var x, y := ActiveName(ms, running, c), ActiveName(ms, running, d);
    hide ActiveName;
    assert (head + x + "\"")[|head|..|head| + |x|] == x && (head + y + "\"")[|head|..|head| + |y|] == y;
    assert Desired(t, ms, running, c).command == head + x + "\"";
    assert Desired(t, ms, running, d).command == head + y + "\"";
    assert |head + x + "\""| == |head| + |x| + 1 && |head + y + "\""| == |head| + |y| + 1;
  }

  lemma IdentitiesAgreeOnFields(t: Settings, ms: seq<E.Mount>, running: bool, cs: seq<E.Contract>)
    ensures IdentitiesAgree(ms, running, cs) <==> FieldsAgree(Targets(t, ms, running, cs))
  {
    hide Targets, ActiveName;
    var ts := Targets(t, ms, running, cs);
    if FieldsAgree(ts) {
      forall c, d | c in cs && d in cs && c.identity == d.identity
        ensures ActiveName(ms, running, c) == ActiveName(ms, running, d)
      {
        var i :| 0 <= i < |cs| && cs[i] == c;
        var j :| 0 <= j < |cs| && cs[j] == d;
        TargetsTell(t, ms, running, cs, i, j);
        assert ts[i] in ts && ts[j] in ts;
      }
    } else {
      var x, y :| x in ts && y in ts && x.name == y.name && x.fields != y.fields;
      var i :| 0 <= i < |ts| && ts[i] == x;
      var j :| 0 <= j < |ts| && ts[j] == y;
      TargetsTell(t, ms, running, cs, i, j);
      assert cs[i] in cs && cs[j] in cs;
    }
  }

  lemma TargetsTell(t: Settings, ms: seq<E.Mount>, running: bool, cs: seq<E.Contract>, i: nat, j: nat)
    requires i < |cs| && j < |cs|
    ensures var ts := Targets(t, ms, running, cs);
            && (ts[i].name == ts[j].name <==> cs[i].identity == cs[j].identity)
            && (ts[i].fields == ts[j].fields <==> ActiveName(ms, running, cs[i]) == ActiveName(ms, running, cs[j]))
  {
    hide Targets, ScheduleName, Desired, ActiveName;
    NameIsInjective(t.stack, cs[i].identity, cs[j].identity);
    DesiredTells(t, ms, running, cs[i], cs[j]);
  }

  /** One pass over contracts that share an identity only when they show under one name: each gets a
      schedule of the desired fields, schedules under other names stay as they were, and a second pass
      over the same mounts changes nothing. */
  lemma OnePassConverges(ss: seq<Schedule>, t: Settings, ms: seq<E.Mount>, running: bool, cs: seq<E.Contract>)
    requires IdsName(ss) && IdentitiesAgree(ms, running, cs)
    ensures var ts := Targets(t, ms, running, cs);
            var s' := Pass(ss, ss, ts);
            && (forall u <- ts :: Scheduled(s', u))
            && Others(s', NamesOf(ts)) == Others(ss, NamesOf(ts))
            && Pass(s', s', ts) == s'
  {
    var ts := Targets(t, ms, running, cs);
    IdentitiesAgreeOnFields(t, ms, running, cs);
    TracksItself(ss);
    PassCounts(ss, ss, ts, "", NamesOf(ts));
    PassSchedules(ss, ss, ts);
    ScheduledPass(Pass(ss, ss, ts), Pass(ss, ss, ts), ts);
  }

  /** What the schedule of a contract says after a pass: run by the settings' clock, it scans the files the
      contract shows its user. */
  lemma PassSays(ss: seq<Schedule>, t: Settings, ms: seq<E.Mount>, running: bool, cs: seq<E.Contract>, c: E.Contract)
    requires IdsName(ss) && IdentitiesAgree(ms, running, cs) && c in cs
    ensures var l := LastNamed(Pass(ss, ss, Targets(t, ms, running, cs)), t.stack + "-" + c.identity + "-rescan");
            && l.Some?
            && l.value.fields.cron == t.cron && l.value.fields.timezone == t.timezone
            && l.value.fields.service == t.stack + "-nextcloud" && l.value.fields.shell == "bash"
            && l.value.fields.enabled
            && l.value.fields.command
               == "php /var/www/html/occ files:scan --path=\"" + t.user + "/files" + Shows(ms, running, c) + "\""
  {
    hide Pass, LastNamed, IdsName, IdentitiesAgree;
    OnePassConverges(ss, t, ms, running, cs);
    ShowsIs(ms, running, c);
    var i :| 0 <= i < |cs| && cs[i] == c;
    assert Targets(t, ms, running, cs)[i] in Targets(t, ms, running, cs);
    hide ActiveName, Shows, Targets;
  }

  /** The name of the mount in use when it can be asked for: the contract's own if there is a mount of that
      name at its path, else the old one if there is a mount of that. */
  function Shows(ms: seq<E.Mount>, running: bool, c: E.Contract): string {
    if running && (forall m <- ms :: !E.At(m, c.name, c.path)) && c.advisorId == "openclaw"
       && exists m <- ms :: E.At(m, "/OpenClaw", c.path)
    then "/OpenClaw" else c.name
  }

  lemma ShowsIs(ms: seq<E.Mount>, running: bool, c: E.Contract)
    ensures ActiveName(ms, running, c) == Shows(ms, running, c)
  {
    E.InUseIs(ms, c);
    hide E.At, E.Existing;
  }

  // ---- The server and the loop ----

  datatype Failure = ApiError | NoApp

  class Scheduler {
    var schedules: seq<Schedule>
    /** Create and update calls received. */
    ghost var calls: nat
    /** Calls that failed. */
    ghost var failed: nat

    constructor (schedules: seq<Schedule>)
      ensures this.schedules == schedules && calls == 0
    {
      this.schedules, calls, failed := schedules, 0, 0;
    }

    method List() returns (res: Result<seq<Schedule>, Failure>)
      modifies this`failed
      ensures failed == old(failed) + (if res.Err? then 1 else 0)
      ensures res.Ok? ==> res.value == schedules
      ensures res.Err? ==> res.error == ApiError
    {
      if * {
        failed := failed + 1;
        return Err(ApiError);
      }
      return Ok(schedules);
    }

    method Create(name: string, f: Fields) returns (res: Result<(), Failure>)
      modifies this
      ensures calls == old(calls) + 1
      ensures failed == old(failed) + (if res.Err? then 1 else 0)
      ensures schedules == old(schedules) || schedules == Created(old(schedules), name, f)
      ensures res.Ok? ==> schedules == Created(old(schedules), name, f)
    {
      calls := calls + 1;
      if * {
        failed := failed + 1;
        return Err(ApiError);
      }
      schedules := Created(schedules, name, f);
      if * {
        failed := failed + 1;
        return Err(ApiError);
      }
      return Ok(());
    }

    method Update(id: string, name: string, f: Fields) returns (res: Result<(), Failure>)
      modifies this
      ensures calls == old(calls) + 1
      ensures failed == old(failed) + (if res.Err? then 1 else 0)
      ensures schedules == old(schedules) || schedules == Updated(old(schedules), id, name, f)
      ensures res.Ok? ==> schedules == Updated(old(schedules), id, name, f)
    {
      calls := calls + 1;
      if * {
        failed := failed + 1;
        return Err(ApiError);
      }
      schedules := Updated(schedules, id, name, f);
      if * {
        failed := failed + 1;
        return Err(ApiError);
      }
      return Ok(());
    }
  }

  /** Later schedules of a name take its place. */
  method IndexByName(ss: seq<Schedule>) returns (m: map<string, Schedule>)
    ensures forall name: string :: LastNamed(ss, name) == if name in m then Some(m[name]) else None
  {
    m := map[];
    for i := 0 to |ss|
      invariant forall name: string :: LastNamed(ss[..i], name) == if name in m then Some(m[name]) else None
    {
      assert ss[..i + 1][..i] == ss[..i];
      m := m[ss[i].name := ss[i]];
    }
    assert ss[..|ss|] == ss;
  }

  /** Along a pass from `listed`: names outside are untouched. */
  ghost predicate Midway(ss: seq<Schedule>, listed: seq<Schedule>, ts: seq<Target>) {
    Tracks(ss, listed) && Others(ss, NamesOf(ts)) == Others(listed, NamesOf(ts))
  }

  lemma TurnKeepsMidway(ss: seq<Schedule>, listed: seq<Schedule>, ts: seq<Target>, t: Target)
    requires t in ts && Midway(ss, listed, ts)
    ensures Midway(Turn(ss, LastNamed(listed, t.name), t.name, t.fields), listed, ts)
  {
    hide LastNamed, Turn, Tracks, Others, Count, Scheduled;
    TurnDoes(ss, listed, t, "");
    TurnTracks(ss, listed, t);
    OthersIn(ss, {t.name}, NamesOf(ts));
    OthersIn(Turn(ss, LastNamed(listed, t.name), t.name, t.fields), {t.name}, NamesOf(ts));
  }

  /** The pass: one listing, then a turn a contract. Wherever it stops, other names are untouched, and so is
      every schedule but the last one listed under each name. When everything is scheduled already it makes
      no create and no update call. */
  method EnsureRescanSchedules(scheduler: Scheduler, storage: E.Storage, t: Settings, running: bool, located: bool,
                               cs: seq<E.Contract>) returns (res: Result<(), Failure>)
    modifies scheduler, storage`failed
    ensures scheduler.failed + storage.failed
            == old(scheduler.failed + storage.failed) + (if res == Err(ApiError) then 1 else 0)
    ensures res == Err(NoApp) <==> cs != [] && !located
    ensures IdsName(old(scheduler.schedules)) ==>
              var names := NamesOf(Targets(t, storage.mounts, running, cs));
              && IdsName(scheduler.schedules)
              && Others(scheduler.schedules, names) == Others(old(scheduler.schedules), names)
    ensures var ids := ListedIds(old(scheduler.schedules), Targets(t, storage.mounts, running, cs));
            Spared(old(scheduler.schedules), ids) <= Spared(scheduler.schedules, ids)
    ensures res.Ok? ==>
              scheduler.schedules
              == Pass(old(scheduler.schedules), old(scheduler.schedules), Targets(t, storage.mounts, running, cs))
    ensures (forall u <- Targets(t, storage.mounts, running, cs) :: Scheduled(old(scheduler.schedules), u)) ==>
              scheduler.schedules == old(scheduler.schedules) && scheduler.calls == old(scheduler.calls)
  {
    hide *;
    PassOfNothing(scheduler.schedules, scheduler.schedules);
    if cs == [] { return Ok(()); }
    if !located { return Err(NoApp); }
    var listing := scheduler.List();
    if listing.Err? { return Err(ApiError); }
    var listed := listing.value;
    var byName := IndexByName(listed);
    ghost var ts := Targets(t, storage.mounts, running, cs);
    ghost var orderly := IdsName(listed);
    MidwayStarts(listed, ts);
    ghost var ids := ListedIds(listed, ts);
    ghost var scheduled := forall u <- ts :: Scheduled(listed, u);
    for i := 0 to |cs|
      invariant orderly ==> Midway(scheduler.schedules, listed, ts)
      invariant Spared(listed, ids) <= Spared(scheduler.schedules, ids)
      invariant scheduler.failed == old(scheduler.failed) && storage.failed == old(storage.failed)
      invariant Pass(listed, listed, ts) == Pass(scheduler.schedules, listed, ts[i..])
      invariant scheduled ==> scheduler.schedules == listed && scheduler.calls == old(scheduler.calls)
    {
      if orderly { MidwayFrame(scheduler.schedules, listed, ts); }
      var target := TargetOf(storage, t, running, cs[i]);
      if target.Err? { return Err(ApiError); }
      var Target(name, fields) := target.value;
      assert ts[i] == target.value && ts[i] in ts;
      ghost var next := Turn(scheduler.schedules, LastNamed(listed, name), name, fields);
      TurnIs(scheduler.schedules, byName, listed, ts, i);
      ListedIsIn(listed, ts, ts[i]);
      TurnSpares(scheduler.schedules, listed, ts[i], ids);
      if orderly {
        TurnKeepsMidway(scheduler.schedules, listed, ts, ts[i]);
        MidwayFrame(next, listed, ts);
      }
      var turned := TakeTurn(scheduler, byName, name, fields);
      if turned.Err? { return Err(ApiError); }
    }
    assert ts[|cs|..] == [];
    PassOfNothing(scheduler.schedules, listed);
    if orderly { MidwayFrame(scheduler.schedules, listed, ts); }
    return Ok(());
  }

  /** Created when it was not listed, brought up to date when it was with other fields. */
  method TakeTurn(scheduler: Scheduler, byName: map<string, Schedule>, name: string, fields: Fields)
    returns (res: Result<(), Failure>)
    modifies scheduler
    ensures scheduler.failed == old(scheduler.failed) + (if res.Err? then 1 else 0)
    ensures res.Err? ==> res.error == ApiError
    ensures var s := old(scheduler.schedules);
            var next := if name !in byName then Created(s, name, fields)
                        else if byName[name].fields != fields then Updated(s, byName[name].id, name, fields)
                        else s;
            && (scheduler.schedules == s || scheduler.schedules == next)
            && (res.Ok? ==> scheduler.schedules == next)
    ensures name in byName && byName[name].fields == fields ==> scheduler.calls == old(scheduler.calls)
  {
    hide Created, Updated;
    if name !in byName {
      var created := scheduler.Create(name, fields);
      if created.Err? { return Err(ApiError); }
    } else if byName[name].fields != fields {
      var updated := scheduler.Update(byName[name].id, name, fields);
      if updated.Err? { return Err(ApiError); }
    }
    return Ok(());
  }

  lemma ListedIsIn(listed: seq<Schedule>, ts: seq<Target>, t: Target)
    requires t in ts
    ensures LastNamed(listed, t.name).Some? ==> LastNamed(listed, t.name).value.id in ListedIds(listed, ts)
  {}

  method TargetOf(storage: E.Storage, t: Settings, running: bool, c: E.Contract) returns (res: Result<Target, Failure>)
    modifies storage`failed
    ensures storage.failed == old(storage.failed) + (if res.Err? then 1 else 0)
    ensures res.Err? ==> res.error == ApiError
    ensures res.Ok? ==>
              res.value == Target(ScheduleName(t.stack, c.identity), Desired(t, storage.mounts, running, c))
  {
    var active := c.name;
    if running {
      var resolved := E.ResolveExisting(storage, c);
      if resolved.Err? { return Err(ApiError); }
      active := resolved.value.1;
    }
    var command := "php /var/www/html/occ files:scan --path=\"" + t.user + "/files" + active + "\"";
    return Ok(Target(ScheduleName(t.stack, c.identity),
                     Fields(t.stack + "-nextcloud", t.cron, t.timezone, "bash", command, true)));
  }

  lemma PassOfNothing(ss: seq<Schedule>, listed: seq<Schedule>)
    ensures Pass(ss, listed, []) == ss
  {}

  /** The step the loop takes is the target's turn. */
  lemma TurnIs(ss: seq<Schedule>, byName: map<string, Schedule>, listed: seq<Schedule>, ts: seq<Target>, i: nat)
    requires i < |ts|
    requires LastNamed(listed, ts[i].name) == if ts[i].name in byName then Some(byName[ts[i].name]) else None
    ensures var name, f := ts[i].name, ts[i].fields;
            var next := Turn(ss, LastNamed(listed, name), name, f);
            && Pass(ss, listed, ts[i..]) == Pass(next, listed, ts[i + 1..])
            && (name !in byName ==> next == Created(ss, name, f))
            && (name in byName && byName[name].fields != f ==> next == Updated(ss, byName[name].id, name, f))
            && (name in byName && byName[name].fields == f ==> next == ss)
            && (Scheduled(listed, ts[i]) <==> name in byName && byName[name].fields == f)
  {
    hide LastNamed, Created, Updated;
    assert ts[i..][0] == ts[i] && ts[i..][1..] == ts[i + 1..];
  }

  lemma MidwayStarts(ss: seq<Schedule>, ts: seq<Target>)
    ensures IdsName(ss) ==> Midway(ss, ss, ts)
  {
    if IdsName(ss) { TracksItself(ss); }
  }

  lemma MidwayFrame(ss: seq<Schedule>, listed: seq<Schedule>, ts: seq<Target>)
    requires Midway(ss, listed, ts)
    ensures IdsName(ss) && Others(ss, NamesOf(ts)) == Others(listed, NamesOf(ts))
  {}
}
