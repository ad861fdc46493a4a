/** Exactly which lists of normalised contracts one pass settles, whatever the mounts before it
    (`refresh_openclaw_external_storage` in `dokploy/nextcloud.py`). */
module MountConflicts {
  import opened Text
  import opened ExternalStorage

  // ---- What matters about a mount list ----

  /** The first identified mount of a name at a path: missing, or open to the user or not, in a mode. */
  datatype Spot = Absent | Present(open: bool, readonly: bool)

  function First(ms: seq<Mount>, name: string, path: string): (r: Option<Mount>)
    ensures r.Some? ==> r.value in ms && At(r.value, name, path)
  {
    if ms == [] then None
    else
      assert ms == [ms[0]] + ms[1..];
      if At(ms[0], name, path) then Some(ms[0]) else First(ms[1..], name, path)
  }

  function SpotOf(m: Option<Mount>, user: string): Spot {
    match m case None => Absent case Some(v) => Present(user in v.users, v.readonly)
  }

  function SpotAt(ms: seq<Mount>, name: string, path: string, user: string): Spot {
    SpotOf(First(ms, name, path), user)
  }

  lemma {:induction false} FindIsFirst(ms: seq<Mount>, name: string, path: string)
    ensures FindId(ms, name, path) == match First(ms, name, path) case None => None case Some(m) => m.id
  {
    if ms != [] { FindIsFirst(ms[1..], name, path); }
  }

  /** The contract deletes what stands there. */
  predicate Bars(d: Contract, name: string, path: string) {
    d.path != path && name in Names(d) && Owned(d, path)
  }

  lemma StaleThere(c: Contract, m: Mount, name: string, path: string)
    requires At(m, name, path)
    ensures Stale(c, m) <==> Bars(c, name, path)
  {
    hide Names, Owned;
  }

  lemma {:induction false} FirstKept(ms: seq<Mount>, c: Contract, name: string, path: string)
    ensures First(Kept(ms, c), name, path) == if Bars(c, name, path) then None else First(ms, name, path)
  {
    hide Bars, Stale;
    if ms != [] {
      FirstKept(ms[1..], c, name, path);
      if At(ms[0], name, path) { StaleThere(c, ms[0], name, path); }
    }
  }

  lemma {:induction false} FirstAppended(ms: seq<Mount>, m: Mount, name: string, path: string)
    ensures First(ms + [m], name, path) ==
            if First(ms, name, path).Some? then First(ms, name, path)
            else if At(m, name, path) then Some(m) else None
  {
    if ms == [] {
      assert ms + [m] == [m];
    } else {
      FirstAppended(ms[1..], m, name, path);
      assert (ms + [m])[1..] == ms[1..] + [m];
    }
  }

  function DressedMount(m: Mount, id: string, c: Contract, user: string): Mount {
    SetReadonly(AddUser(m, id, user), id, !c.readWrite)
  }

  lemma {:induction false} FirstDressed(ms: seq<Mount>, id: string, c: Contract, user: string, name: string,
                                       path: string)
    ensures First(Dressed(ms, id, c, user), name, path) ==
            match First(ms, name, path) case None => None case Some(m) => Some(DressedMount(m, id, c, user))
  {
    if ms != [] {
      var d := Dressed(ms, id, c, user);
      FirstDressed(ms[1..], id, c, user, name, path);
      assert d[0] == DressedMount(ms[0], id, c, user);
      assert d[1..] == Dressed(ms[1..], id, c, user);
    }
  }

  // ---- A turn ----

  /** Normalised contracts: the OpenClaw one has its fixed name besides the legacy one. */
  predicate Regular(c: Contract) { c.advisorId == OPENCLAW ==> c.name == OPENCLAW_NAME }

  predicate IsOpen(c: Contract) { c.advisorId == OPENCLAW }

  lemma NamesDiffer()
    ensures OPENCLAW_NAME != LEGACY_NAME
  {
    assert |OPENCLAW_NAME| == 10 && |LEGACY_NAME| == 9;
  }

  lemma NamesAre(c: Contract)
    requires Regular(c)
    ensures Names(c) == if IsOpen(c) then [OPENCLAW_NAME, LEGACY_NAME] else [c.name]
    ensures c.name in Names(c)
  {}

  /** The name under which a contract finds or makes its mount. */
  function Uses(ms: seq<Mount>, c: Contract, user: string): string {
    if IsOpen(c) && SpotAt(ms, OPENCLAW_NAME, c.path, user) == Absent && SpotAt(ms, LEGACY_NAME, c.path, user) != Absent
    then LEGACY_NAME
    else c.name
  }

  lemma ExistingUses(ms: seq<Mount>, c: Contract, user: string)
    requires Regular(c)
    ensures Existing(ms, c) == match First(ms, Uses(ms, c, user), c.path)
                               case None => None
                               case Some(m) => Some((m.id.value, Uses(ms, c, user)))
  {
    hide FindId, First;
    NamesAre(c);
    var names := Names(c);
    FindIsFirst(ms, c.name, c.path);
    FindIsFirst(ms, LEGACY_NAME, c.path);
    if IsOpen(c) {
      assert names == [c.name] + [LEGACY_NAME];
      assert [LEGACY_NAME][1..] == [] && names[1..] == [LEGACY_NAME];
      assert Resolve(ms, [LEGACY_NAME], c.path) ==
             match FindId(ms, LEGACY_NAME, c.path) case None => None case Some(id) => Some((id, LEGACY_NAME));
    } else {
      assert names[1..] == [];
    }
  }

  /** What a turn does to every spot. */
  lemma TurnSpots(ms: seq<Mount>, c: Contract, user: string, name: string, path: string)
    requires IdsName(ms) && Regular(c)
    ensures SpotAt(Ensured(ms, c, user), name, path, user) ==
            if Bars(c, name, path) then Absent
            else if name == Uses(ms, c, user) && path == c.path then Present(true, !c.readWrite)
            else SpotAt(ms, name, path, user)
  {
    hide First, Bars, Kept, Existing, Dressed, NewMount, Uses, IdsName;
    var k := Kept(ms, c);
    var w := WithMount(k, c);
    WithMountExists(k, c);
    KeptKeepsIds(ms, c);
    WithMountKeepsIds(k, c);
    FirstKept(ms, c, name, path);
    UsesOfKept(ms, c, user);
    ExistingUses(k, c, user);
    WithMountSpots(k, c, user, name, path);
    var id := Existing(w, c).value.0;
    FirstDressed(w, id, c, user, name, path);
    OnlyTheUsedIsDressed(w, c, user, name, path);
    UsedIsFirst(w, c);
    BarredIsElsewhere(c, name, path);
  }

  lemma BarredIsElsewhere(c: Contract, name: string, path: string)
    ensures Bars(c, name, path) ==> path != c.path
  {}

  lemma KeptKeepsIds(ms: seq<Mount>, c: Contract)
    requires IdsName(ms)
    ensures IdsName(Kept(ms, c))
  {
    hide Stale;
  }

  lemma UsesOfKept(ms: seq<Mount>, c: Contract, user: string)
    requires Regular(c)
    ensures Uses(Kept(ms, c), c, user) == Uses(ms, c, user)
  {
    hide First, Kept;
    FirstKept(ms, c, OPENCLAW_NAME, c.path);
    FirstKept(ms, c, LEGACY_NAME, c.path);
  }

  /** Creation happens at the used name when nothing is there. */
  lemma WithMountSpots(k: seq<Mount>, c: Contract, user: string, name: string, path: string)
    requires Regular(c)
    ensures var w := WithMount(k, c);
            && Existing(w, c).Some? && Existing(w, c).value.1 == Uses(k, c, user)
            && First(w, name, path) ==
               if First(k, name, path).Some? then First(k, name, path)
               else if name == Uses(k, c, user) && path == c.path then Some(NewMount(k, c.name, c.path))
               else None
  {
    hide First, NewMount;
    ExistingUses(k, c, user);
    hide Existing;
    if Existing(k, c).None? {
      var made := NewMount(k, c.name, c.path);
      FirstAppended(k, made, name, path);
      NewMountAt(k, c.name, c.path, name, path);
      assert Uses(k, c, user) == c.name by { NothingUsed(k, c, user); }
      FirstNameResolves(k, c);
    }
  }

  lemma NewMountAt(k: seq<Mount>, n: string, p: string, name: string, path: string)
    ensures At(NewMount(k, n, p), name, path) <==> n == name && p == path
  {}

  lemma NothingUsed(k: seq<Mount>, c: Contract, user: string)
    requires First(k, Uses(k, c, user), c.path) == None
    ensures Uses(k, c, user) == c.name
  {
    hide First;
  }

  lemma OnlyTheUsedIsDressed(w: seq<Mount>, c: Contract, user: string, name: string, path: string)
    requires IdsName(w) && Existing(w, c).Some?
    ensures var e := Existing(w, c).value;
            match First(w, name, path)
            case None => true
            case Some(m) => m.id == Some(e.0) <==> name == e.1 && path == c.path
  {
    hide First, FindId;
    var e := Existing(w, c).value;
    var m := First(w, name, path);
    if m.Some? {
      var used :| used in w && At(used, e.1, c.path) && used.id == Some(e.0);
      if name == e.1 && path == c.path { UsedIsFirst(w, c); }
    }
  }

  lemma UsedIsFirst(w: seq<Mount>, c: Contract)
    requires Existing(w, c).Some?
    ensures var e := Existing(w, c).value;
            First(w, e.1, c.path).Some? && First(w, e.1, c.path).value.id == Some(e.0)
  {
    hide First, FindId;
    ResolvedIsFound(w, Names(c), c.path);
    FindIsFirst(w, Existing(w, c).value.1, c.path);
  }

  lemma {:induction false} ResolvedIsFound(w: seq<Mount>, names: seq<string>, path: string)
    requires Resolve(w, names, path).Some?
    ensures var e := Resolve(w, names, path).value; FindId(w, e.1, path) == Some(e.0)
  {
    hide FindId;
    if FindId(w, names[0], path).None? { ResolvedIsFound(w, names[1..], path); }
  }

  // ---- Settled, by spots ----

  ghost predicate Clean(ms: seq<Mount>, c: Contract, user: string) {
    forall name: string, path: string :: Bars(c, name, path) ==> SpotAt(ms, name, path, user) == Absent
  }

  predicate Served(ms: seq<Mount>, c: Contract, user: string) {
    SpotAt(ms, Uses(ms, c, user), c.path, user) == Present(true, !c.readWrite)
  }

  lemma SettledBySpots(ms: seq<Mount>, c: Contract, user: string)
    requires IdsName(ms) && Regular(c)
    ensures Settled(ms, c, user) <==> Clean(ms, c, user) && Served(ms, c, user)
  {
    NotStaleIsClean(ms, c, user);
    ExistingUses(ms, c, user);
    hide Clean, Stale, First, Existing, Uses;
    var f := First(ms, Uses(ms, c, user), c.path);
    if f.Some? {
      assert forall m <- ms :: m.id == f.value.id ==> m == f.value;
    }
  }

  lemma NotStaleIsClean(ms: seq<Mount>, c: Contract, user: string)
    ensures (forall m <- ms :: !Stale(c, m)) <==> Clean(ms, c, user)
  {
    hide First, Stale, Bars;
    if forall m <- ms :: !Stale(c, m) {
      forall name: string, path: string | Bars(c, name, path) ensures SpotAt(ms, name, path, user) == Absent {
        var f := First(ms, name, path);
        if f.Some? { StaleThere(c, f.value, name, path); }
      }
    } else {
      var m :| m in ms && Stale(c, m);
      StalePlace(c, m);
      StaleThere(c, m, m.name.value, m.datadir.value);
      FoundIfThere(ms, m, m.name.value, m.datadir.value);
    }
  }

  lemma StalePlace(c: Contract, m: Mount)
    requires Stale(c, m)
    ensures m.name.Some? && m.datadir.Some? && At(m, m.name.value, m.datadir.value)
  {
    hide Names, Owned;
  }

  lemma {:induction false} FoundIfThere(ms: seq<Mount>, m: Mount, name: string, path: string)
    requires m in ms && At(m, name, path)
    ensures First(ms, name, path).Some?
  {
    if !At(ms[0], name, path) { FoundIfThere(ms[1..], m, name, path); }
  }

  // ---- A pass, spot by spot ----

  predicate Provides(c: Contract, name: string, path: string) { !IsOpen(c) && c.name == name && c.path == path }

  predicate OpenAt(c: Contract, path: string) { IsOpen(c) && c.path == path }

  function Good(c: Contract): Spot { Present(true, !c.readWrite) }

  /** A spot after a turn, given the spots of the two OpenClaw names at that path before it. */
  function Next(e: Contract, name: string, path: string, here: Spot, current: Spot, legacy: Spot): Spot {
    if Bars(e, name, path) then Absent
    else if Provides(e, name, path) then Good(e)
    else if OpenAt(e, path) && name == (if current == Absent && legacy != Absent then LEGACY_NAME else OPENCLAW_NAME)
    then Good(e)
    else here
  }

  datatype Run = Run(ms: seq<Mount>, cs: seq<Contract>, user: string) {
    predicate Fits() { IdsName(ms) && forall c <- cs :: Regular(c) }

    /** The mounts after the first `i` turns. */
    function Stage(i: nat): seq<Mount>
      requires i <= |cs|
    {
      Pass(ms, cs[..i], user)
    }

    function Spot(i: nat, name: string, path: string): Spot
      requires i <= |cs|
    {
      SpotAt(Stage(i), name, path, user)
    }

    lemma StageSteps(i: nat)
      requires Fits() && i < |cs|
      ensures Stage(i + 1) == Ensured(Stage(i), cs[i], user) && IdsName(Stage(i))
    {
      hide IdsName, Ensured;
      PassSnoc(ms, cs, i, user);
      PassKeepsIds(ms, cs[..i], user);
    }

    lemma Steps(i: nat, name: string, path: string)
      requires Fits() && i < |cs|
      ensures Spot(i + 1, name, path) ==
              Next(cs[i], name, path, Spot(i, name, path), Spot(i, OPENCLAW_NAME, path), Spot(i, LEGACY_NAME, path))
    {
      StageSteps(i);
      var e := cs[i];
      assert e in cs;
      hide Ensured, SpotAt, Bars, IdsName, Stage;
      TurnSpots(Stage(i), e, user, name, path);
      assert Good(e) == Present(true, !e.readWrite);
    }

    lemma EndIs()
      requires Fits()
      ensures Stage(|cs|) == Pass(ms, cs, user) && IdsName(Stage(|cs|))
    {
      hide IdsName, Ensured;
      assert cs[..|cs|] == cs;
      PassKeepsIds(ms, cs, user);
    }
  }

  lemma {:induction false} PassSnoc(ms: seq<Mount>, cs: seq<Contract>, i: nat, user: string)
    requires i < |cs|
    ensures Pass(ms, cs[..i + 1], user) == Ensured(Pass(ms, cs[..i], user), cs[i], user)
    decreases i
  {
    hide Ensured;
    if i == 0 {
      assert cs[..1] == [cs[0]] && cs[..1][1..] == [];
    } else {
      PassSnoc(Ensured(ms, cs[0], user), cs[1..], i - 1, user);
      assert cs[..i + 1][1..] == cs[1..][..i] && cs[..i][1..] == cs[1..][..i - 1];
    }
  }

  lemma {:induction false} PassKeepsIds(ms: seq<Mount>, cs: seq<Contract>, user: string)
    requires IdsName(ms)
    ensures IdsName(Pass(ms, cs, user))
    decreases |cs|
  {
    hide Ensured, IdsName;
    if cs != [] {
      EnsuredKeepsIds(ms, cs[0], user);
      PassKeepsIds(Ensured(ms, cs[0], user), cs[1..], user);
    }
  }

  // ---- The condition ----

  /** Two contracts that can never both be settled: wherever the first could stand the second deletes,
      or both use one mount in different modes. */
  predicate Clash(c: Contract, d: Contract) {
    || (forall n <- Names(c) :: Bars(d, n, c.path))
    || (c.path == d.path && c.readWrite != d.readWrite && c.name in Names(d) && d.name in Names(c))
  }

  predicate NoClash(cs: seq<Contract>) { forall c <- cs, d <- cs :: !Clash(c, d) }

  predicate Provided(cs: seq<Contract>, name: string, path: string) { exists c <- cs :: Provides(c, name, path) }

  predicate Barred(cs: seq<Contract>, name: string, path: string) { exists c <- cs :: Bars(c, name, path) }

  /** If someone deletes what stands at the path under the current name, another contract has to keep a
      mount there under the legacy one, and has to come before every OpenClaw contract of the path that
      is not followed by such a deletion. */
  predicate CurrentNameFree(cs: seq<Contract>, path: string) {
    Barred(cs, OPENCLAW_NAME, path) ==>
      && Provided(cs, LEGACY_NAME, path)
      && forall i | 0 <= i < |cs| && OpenAt(cs[i], path) ::
           Barred(cs[i + 1..], OPENCLAW_NAME, path) || Provided(cs[..i], LEGACY_NAME, path)
  }

  /** If someone deletes what stands at the path under the legacy name, another contract keeps a mount
      there under the current one, or an OpenClaw contract of the path comes after such a deletion. */
  predicate LegacyNameFree(cs: seq<Contract>, path: string) {
    Barred(cs, LEGACY_NAME, path) ==>
      || Provided(cs, OPENCLAW_NAME, path)
      || exists i :: 0 <= i < |cs| && OpenAt(cs[i], path) && Barred(cs[..i], LEGACY_NAME, path)
  }

  /** A contract under the legacy name wants the mount of the path in another mode than OpenClaw. */
  predicate Disputed(cs: seq<Contract>, path: string) {
    exists c <- cs, d <- cs :: OpenAt(c, path) && Provides(d, LEGACY_NAME, path) && c.readWrite != d.readWrite
  }

  /** Then another contract has to keep a mount under the current name, and each OpenClaw contract of
      the path has to come after that one or before one of the legacy name. */
  predicate DisputeResolved(cs: seq<Contract>, path: string) {
    Disputed(cs, path) ==>
      && Provided(cs, OPENCLAW_NAME, path)
      && forall i | 0 <= i < |cs| && OpenAt(cs[i], path) ::
           Provided(cs[..i], OPENCLAW_NAME, path) || Provided(cs[i + 1..], LEGACY_NAME, path)
  }

  /** About names, paths, roots, modes and order alone. */
  predicate Compatible(cs: seq<Contract>) {
    && NoClash(cs)
    && forall c <- cs :: IsOpen(c) ==>
         CurrentNameFree(cs, c.path) && LegacyNameFree(cs, c.path) && DisputeResolved(cs, c.path)
  }

  // ---- What clashes exclude ----

  lemma ProviderNotBarred(cs: seq<Contract>, c: Contract, e: Contract, name: string, path: string)
    requires NoClash(cs) && c in cs && e in cs && Provides(c, name, path) && Regular(c)
    ensures !Bars(e, name, path)
  {
    NamesAre(c);
    hide Bars;
    assert !Clash(c, e);
  }

  lemma ProvidersAgree(cs: seq<Contract>, c: Contract, e: Contract, name: string, path: string)
    requires NoClash(cs) && c in cs && e in cs && Regular(c) && Regular(e)
    requires Provides(c, name, path) && Provides(e, name, path)
    ensures c.readWrite == e.readWrite
  {
    NamesAre(c);
    NamesAre(e);
    assert !Clash(c, e);
  }

  lemma OpensAgree(cs: seq<Contract>, c: Contract, e: Contract, path: string)
    requires NoClash(cs) && c in cs && e in cs && Regular(c) && Regular(e)
    requires OpenAt(c, path) && (OpenAt(e, path) || Provides(e, OPENCLAW_NAME, path))
    ensures c.readWrite == e.readWrite
  {
    NamesAre(c);
    NamesAre(e);
    assert !Clash(c, e);
  }

  // ---- Sufficient ----

  /** A provider's mount is never lost, and unless disputed stays as it wants it. */
  lemma {:induction false} ProviderStands(r: Run, i: nat, j: nat)
    requires r.Fits() && NoClash(r.cs) && i < j <= |r.cs| && !IsOpen(r.cs[i])
    ensures var c := r.cs[i];
            && r.Spot(j, c.name, c.path) != Absent
            && ((c.name == LEGACY_NAME && Disputed(r.cs, c.path)) || r.Spot(j, c.name, c.path) == Good(c))
    decreases j
  {
    hide Run.Spot, NoClash, Bars;
    var c, e := r.cs[i], r.cs[j - 1];
    assert c in r.cs && e in r.cs;
    r.Steps(j - 1, c.name, c.path);
    ProviderNotBarred(r.cs, c, e, c.name, c.path);
    if i < j - 1 {
      ProviderStands(r, i, j - 1);
      if Provides(e, c.name, c.path) { ProvidersAgree(r.cs, c, e, c.name, c.path); }
      if OpenAt(e, c.path) && c.name == OPENCLAW_NAME { OpensAgree(r.cs, e, c, c.path); }
    }
  }

  lemma ProvidedStands(r: Run, j: nat, name: string, path: string)
    requires r.Fits() && NoClash(r.cs) && j <= |r.cs| && Provided(r.cs[..j], name, path)
    ensures r.Spot(j, name, path) != Absent
  {
    hide Run.Spot, NoClash;
    var i :| 0 <= i < j && Provides(r.cs[..j][i], name, path);
    ProviderStands(r, i, j);
  }

  /** Beside an OpenClaw contract of the path, the mount stands in that contract's mode. */
  lemma ProvidedServes(r: Run, name: string, c: Contract)
    requires r.Fits() && NoClash(r.cs) && c in r.cs && IsOpen(c) && Provided(r.cs, name, c.path)
    requires name == OPENCLAW_NAME || (name == LEGACY_NAME && !Disputed(r.cs, c.path))
    ensures r.Spot(|r.cs|, name, c.path) == Good(c)
  {
    hide Run.Spot, NoClash;
    NamesDiffer();
    var i :| 0 <= i < |r.cs| && Provides(r.cs[i], name, c.path);
    var d := r.cs[i];
    assert d in r.cs;
    ProviderStands(r, i, |r.cs|);
    if name == OPENCLAW_NAME { OpensAgree(r.cs, c, d, c.path); }
  }

  lemma ProvidedFrom(cs: seq<Contract>, k: nat, name: string, path: string)
    requires k < |cs|
    ensures Provided(cs[k..], name, path) <==> Provides(cs[k], name, path) || Provided(cs[k + 1..], name, path)
  {
    hide Provides;
    assert cs[k..] == [cs[k]] + cs[k + 1..];
  }

  lemma {:induction false} DisputeEnds(r: Run, i: nat, j: nat)
    requires r.Fits() && NoClash(r.cs) && i < j <= |r.cs| && Provides(r.cs[i], LEGACY_NAME, r.cs[i].path)
    requires DisputeResolved(r.cs, r.cs[i].path) && Disputed(r.cs, r.cs[i].path)
    ensures var c := r.cs[i]; r.Spot(j, LEGACY_NAME, c.path) == Good(c) || Provided(r.cs[j..], LEGACY_NAME, c.path)
    decreases j
  {
    hide Run.Spot, NoClash, Bars, Disputed, Provided, Provides;
    var c, e, k := r.cs[i], r.cs[j - 1], j - 1;
    var p := c.path;
    assert c in r.cs && e in r.cs;
    r.Steps(k, LEGACY_NAME, p);
    ProviderNotBarred(r.cs, c, e, LEGACY_NAME, p);
    ProvidedFrom(r.cs, k, LEGACY_NAME, p);
    if Provides(e, LEGACY_NAME, p) { ProvidersAgree(r.cs, c, e, LEGACY_NAME, p); }
    if i < k {
      DisputeEnds(r, i, k);
      if OpenAt(e, p) && Provided(r.cs[..k], OPENCLAW_NAME, p) {
        NamesDiffer();
        ProvidedStands(r, k, OPENCLAW_NAME, p);
      }
    }
  }

  /** Once the current name is barred for good, OpenClaw lives under the legacy one. */
  lemma {:induction false} CurrentNameEmpties(r: Run, j: nat, path: string)
    requires r.Fits() && NoClash(r.cs) && CurrentNameFree(r.cs, path) && j <= |r.cs|
    requires Barred(r.cs, OPENCLAW_NAME, path)
    ensures Barred(r.cs[j..], OPENCLAW_NAME, path) || r.Spot(j, OPENCLAW_NAME, path) == Absent
    decreases j
  {
    hide Run.Spot, NoClash, Bars, Provides, Provided, Barred;
    if j == 0 {
      assert r.cs[0..] == r.cs;
    } else {
      var k, e := j - 1, r.cs[j - 1];
      assert e in r.cs;
      BarredFrom(r.cs, k, OPENCLAW_NAME, path);
      CurrentNameEmpties(r, k, path);
      r.Steps(k, OPENCLAW_NAME, path);
      NamesDiffer();
      if Provides(e, OPENCLAW_NAME, path) { NotProvidedIfBarred(r.cs, e, OPENCLAW_NAME, path); }
      if OpenAt(e, path) && Provided(r.cs[..k], LEGACY_NAME, path) { ProvidedStands(r, k, LEGACY_NAME, path); }
    }
  }

  lemma BarredFrom(cs: seq<Contract>, k: nat, name: string, path: string)
    requires k < |cs|
    ensures Barred(cs[k..], name, path) <==> Bars(cs[k], name, path) || Barred(cs[k + 1..], name, path)
  {
    hide Bars;
    assert cs[k..] == [cs[k]] + cs[k + 1..];
  }

  lemma NotProvidedIfBarred(cs: seq<Contract>, e: Contract, name: string, path: string)
    requires NoClash(cs) && e in cs && Regular(e) && Barred(cs, name, path)
    ensures !Provides(e, name, path)
  {
    hide Bars, NoClash;
    var d :| d in cs && Bars(d, name, path);
    if Provides(e, name, path) { ProviderNotBarred(cs, e, d, name, path); }
  }

  lemma CurrentNameEmpty(r: Run, path: string)
    requires r.Fits() && NoClash(r.cs) && CurrentNameFree(r.cs, path) && Barred(r.cs, OPENCLAW_NAME, path)
    ensures r.Spot(|r.cs|, OPENCLAW_NAME, path) == Absent
  {
    hide Run.Spot, NoClash, CurrentNameFree;
    CurrentNameEmpties(r, |r.cs|, path);
    assert r.cs[|r.cs|..] == [];
  }

  /** What nobody makes again stays away. */
  lemma {:induction false} StaysAway(r: Run, i: nat, j: nat, name: string, path: string)
    requires r.Fits() && NoClash(r.cs) && i < j <= |r.cs| && Bars(r.cs[i], name, path)
    requires name == OPENCLAW_NAME ==> forall c <- r.cs :: !OpenAt(c, path)
    ensures r.Spot(j, name, path) == Absent
    decreases j
  {
    hide Run.Spot, NoClash, Bars;
    var k, e := j - 1, r.cs[j - 1];
    assert e in r.cs && r.cs[i] in r.cs;
    r.Steps(k, name, path);
    if Provides(e, name, path) { ProviderNotBarred(r.cs, e, r.cs[i], name, path); }
    if i < k { StaysAway(r, i, k, name, path); }
  }

  lemma EndIsClean(r: Run, c: Contract, name: string, path: string)
    requires r.Fits() && Compatible(r.cs) && c in r.cs && Bars(c, name, path)
    ensures r.Spot(|r.cs|, name, path) == Absent
  {
    hide Run.Spot, NoClash, Bars, CurrentNameFree, LegacyNameFree, DisputeResolved;
    var i :| 0 <= i < |r.cs| && r.cs[i] == c;
    if name == OPENCLAW_NAME && exists d <- r.cs :: OpenAt(d, path) {
      assert Barred(r.cs, name, path);
      CurrentNameEmpty(r, path);
    } else {
      StaysAway(r, i, |r.cs|, name, path);
    }
  }

  lemma OtherIsServed(r: Run, c: Contract)
    requires r.Fits() && Compatible(r.cs) && c in r.cs && !IsOpen(c)
    ensures Served(r.Stage(|r.cs|), c, r.user)
  {
    hide Run.Stage, SpotAt, NoClash, Disputed, CurrentNameFree, LegacyNameFree;
    var i :| 0 <= i < |r.cs| && r.cs[i] == c;
    var n := |r.cs|;
    ProviderStands(r, i, n);
    if c.name == LEGACY_NAME && Disputed(r.cs, c.path) {
      DisputeHasOpen(r.cs, c.path);
      DisputeEnds(r, i, n);
      assert r.cs[n..] == [];
    }
    assert r.Spot(n, c.name, c.path) == Good(c);
  }

  lemma DisputeHasOpen(cs: seq<Contract>, path: string)
    requires Disputed(cs, path)
    ensures exists c <- cs :: OpenAt(c, path)
  {}

  /** Without a mount kept by others and with nobody deleting under the current name, some turn of an
      OpenClaw contract leaves one of the two mounts, and it stays. */
  lemma {:induction false} OpenStands(r: Run, i: nat, j: nat)
    requires r.Fits() && NoClash(r.cs) && i < j <= |r.cs| && IsOpen(r.cs[i])
    requires !Provided(r.cs, OPENCLAW_NAME, r.cs[i].path) && !Barred(r.cs, OPENCLAW_NAME, r.cs[i].path)
    requires !Disputed(r.cs, r.cs[i].path)
    ensures var c := r.cs[i];
            var current, legacy := r.Spot(j, OPENCLAW_NAME, c.path), r.Spot(j, LEGACY_NAME, c.path);
            && (|| current == Good(c)
                || (current == Absent && (legacy == Good(c) || Barred(r.cs[i + 1..j], LEGACY_NAME, c.path))))
            && (r.Spot(i, LEGACY_NAME, c.path) == Absent ==> current == Good(c))
    decreases j
  {
    hide Run.Spot, NoClash, Bars, Disputed;
    var c, e, k := r.cs[i], r.cs[j - 1], j - 1;
    var p := c.path;
    assert c in r.cs && e in r.cs;
    NamesDiffer();
    r.Steps(k, OPENCLAW_NAME, p);
    r.Steps(k, LEGACY_NAME, p);
    if Provides(e, LEGACY_NAME, p) { Undisputed(r.cs, c, e); }
    if OpenAt(e, p) { OpensAgree(r.cs, c, e, p); }
    if i < k {
      OpenStands(r, i, k);
      assert r.cs[i + 1..j] == r.cs[i + 1..k] + [e];
    } else {
      NotBarredByItself(c);
    }
  }

  lemma NotBarredByItself(c: Contract)
    ensures !Bars(c, OPENCLAW_NAME, c.path) && !Bars(c, LEGACY_NAME, c.path)
  {}

  lemma Undisputed(cs: seq<Contract>, c: Contract, d: Contract)
    requires !Disputed(cs, c.path) && c in cs && d in cs && IsOpen(c) && Provides(d, LEGACY_NAME, c.path)
    ensures c.readWrite == d.readWrite
  {
    assert OpenAt(c, c.path);
  }

  lemma OpenIsServed(r: Run, c: Contract)
    requires r.Fits() && Compatible(r.cs) && c in r.cs && IsOpen(c)
    ensures Served(r.Stage(|r.cs|), c, r.user)
  {
    var n, p := |r.cs|, c.path;
    hide Run.Stage, SpotAt, NoClash, Disputed, Provided, Barred;
    NamesDiffer();
    assert c.name == OPENCLAW_NAME;
    if Provided(r.cs, OPENCLAW_NAME, p) {
      ProvidedServes(r, OPENCLAW_NAME, c);
    } else if Barred(r.cs, OPENCLAW_NAME, p) {
      CurrentNameEmpty(r, p);
      ProvidedServes(r, LEGACY_NAME, c);
    } else {
      OwnMountServes(r, c);
    }
    assert r.Spot(n, OPENCLAW_NAME, p) == Good(c)
           || (r.Spot(n, OPENCLAW_NAME, p) == Absent && r.Spot(n, LEGACY_NAME, p) == Good(c));
  }

  lemma OwnMountServes(r: Run, c: Contract)
    requires r.Fits() && NoClash(r.cs) && c in r.cs && IsOpen(c) && LegacyNameFree(r.cs, c.path)
    requires !Provided(r.cs, OPENCLAW_NAME, c.path) && !Barred(r.cs, OPENCLAW_NAME, c.path) && !Disputed(r.cs, c.path)
    ensures var n := |r.cs|;
            || r.Spot(n, OPENCLAW_NAME, c.path) == Good(c)
            || (r.Spot(n, OPENCLAW_NAME, c.path) == Absent && r.Spot(n, LEGACY_NAME, c.path) == Good(c))
  {
    hide Run.Spot, NoClash, Disputed, Bars, Provided;
    var n, p := |r.cs|, c.path;
    if Barred(r.cs, LEGACY_NAME, p) {
      var i :| 0 <= i < n && OpenAt(r.cs[i], p) && Barred(r.cs[..i], LEGACY_NAME, p);
      var j :| 0 <= j < i && Bars(r.cs[..i][j], LEGACY_NAME, p);
      NamesDiffer();
      StaysAway(r, j, i, LEGACY_NAME, p);
      OpenStands(r, i, n);
      assert r.cs[i] in r.cs;
      OpensAgree(r.cs, c, r.cs[i], p);
    } else {
      var i :| 0 <= i < n && r.cs[i] == c;
      OpenStands(r, i, n);
      assert forall d <- r.cs[i + 1..n] :: d in r.cs;
    }
  }

  lemma CompatibleSettles(ms: seq<Mount>, cs: seq<Contract>, user: string)
    requires IdsName(ms) && (forall c <- cs :: Regular(c)) && Compatible(cs)
    ensures AllSettled(Pass(ms, cs, user), cs, user)
  {
    hide Settled, Regular, Compatible, Pass, IdsName, Served, Bars;
    var r := Run(ms, cs, user);
    r.EndIs();
    forall c | c in cs ensures Settled(Pass(ms, cs, user), c, user) {
      forall name: string, path: string | Bars(c, name, path)
        ensures SpotAt(Pass(ms, cs, user), name, path, user) == Absent
      {
        EndIsClean(r, c, name, path);
      }
      if IsOpen(c) { OpenIsServed(r, c); } else { OtherIsServed(r, c); }
      SettledBySpots(Pass(ms, cs, user), c, user);
    }
  }

  // ---- Necessary ----

  /** Every contract of the run is settled at its end. */
  ghost predicate Ends(r: Run) {
    forall c <- r.cs :: Clean(r.Stage(|r.cs|), c, r.user) && Served(r.Stage(|r.cs|), c, r.user)
  }

  lemma SettledEnds(ms: seq<Mount>, cs: seq<Contract>, user: string)
    requires IdsName(ms) && (forall c <- cs :: Regular(c)) && AllSettled(Pass(ms, cs, user), cs, user)
    ensures Run(ms, cs, user).Fits() && Ends(Run(ms, cs, user))
  {
    hide Settled, Regular, Pass, IdsName, Clean, Served;
    var r := Run(ms, cs, user);
    r.EndIs();
    forall c | c in cs ensures Clean(r.Stage(|cs|), c, user) && Served(r.Stage(|cs|), c, user) {
      SettledBySpots(Pass(ms, cs, user), c, user);
    }
  }

  lemma EndsClean(r: Run, c: Contract, name: string, path: string)
    requires Ends(r) && c in r.cs && Bars(c, name, path)
    ensures r.Spot(|r.cs|, name, path) == Absent
  {
    hide Served, Bars, SpotAt, Run.Stage;
  }

  /** Where a settled contract lives at the end. */
  function Home(r: Run, c: Contract): string { Uses(r.Stage(|r.cs|), c, r.user) }

  lemma EndsServed(r: Run, c: Contract)
    requires Ends(r) && c in r.cs
    ensures r.Spot(|r.cs|, Home(r, c), c.path) == Good(c)
    ensures Home(r, c) == if IsOpen(c) && r.Spot(|r.cs|, OPENCLAW_NAME, c.path) == Absent
                             && r.Spot(|r.cs|, LEGACY_NAME, c.path) != Absent then LEGACY_NAME else c.name
  {
    hide Clean, SpotAt, Run.Stage;
  }

  lemma EndsHaveNoClash(r: Run)
    requires r.Fits() && Ends(r)
    ensures NoClash(r.cs)
  {
    hide Ends, Run.Spot, Bars, Home;
    NamesDiffer();
    forall c, d | c in r.cs && d in r.cs ensures !Clash(c, d) {
      NamesAre(c);
      NamesAre(d);
      EndsServed(r, c);
      EndsServed(r, d);
      if Bars(d, Home(r, c), c.path) { EndsClean(r, d, Home(r, c), c.path); }
      assert Home(r, c) in Names(c);
    }
  }

  /** Nobody but a provider, or OpenClaw when it lacks the legacy mount, makes a mount. */
  lemma {:induction false} NothingMade(r: Run, j: nat, path: string)
    requires r.Fits() && j <= |r.cs| && r.ms == [] && !Provided(r.cs[..j], LEGACY_NAME, path)
    ensures r.Spot(j, LEGACY_NAME, path) == Absent
    decreases j
  {
    hide Run.Spot, Bars;
    if j == 0 {
      StartIs(r, LEGACY_NAME, path);
    } else {
      var k := j - 1;
      assert r.cs[..j] == r.cs[..k] + [r.cs[k]];
      NothingMade(r, k, path);
      r.Steps(k, LEGACY_NAME, path);
    }
  }

  lemma StartIs(r: Run, name: string, path: string)
    ensures r.Spot(0, name, path) == SpotAt(r.ms, name, path, r.user)
    ensures r.ms == [] ==> r.Spot(0, name, path) == Absent
  {
    assert r.cs[..0] == [];
  }

  /** A mount nobody deletes stays. */
  lemma {:induction false} Remains(r: Run, i: nat, j: nat, name: string, path: string)
    requires r.Fits() && i <= j <= |r.cs| && r.Spot(i, name, path) != Absent && !Barred(r.cs[i..j], name, path)
    ensures r.Spot(j, name, path) != Absent
    decreases j
  {
    hide Run.Spot, Bars;
    if i < j {
      assert r.cs[i..j] == r.cs[i..j - 1] + [r.cs[j - 1]];
      Remains(r, i, j - 1, name, path);
      r.Steps(j - 1, name, path);
    }
  }

  lemma CurrentNameHasToBeFree(r: Run, c: Contract)
    requires r.Fits() && Ends(r) && r.ms == [] && c in r.cs && IsOpen(c)
    ensures CurrentNameFree(r.cs, c.path)
  {
    hide Ends, Run.Spot, Bars, Home, Provided;
    var n, p := |r.cs|, c.path;
    if Barred(r.cs, OPENCLAW_NAME, p) {
      NamesDiffer();
      var d :| d in r.cs && Bars(d, OPENCLAW_NAME, p);
      EndsClean(r, d, OPENCLAW_NAME, p);
      EndsServed(r, c);
      assert r.cs[..n] == r.cs;
      if !Provided(r.cs, LEGACY_NAME, p) { NothingMade(r, n, p); }
      forall i | 0 <= i < n && OpenAt(r.cs[i], p)
        ensures Barred(r.cs[i + 1..], OPENCLAW_NAME, p) || Provided(r.cs[..i], LEGACY_NAME, p)
      {
        hide Barred;
        if !Provided(r.cs[..i], LEGACY_NAME, p) && !Barred(r.cs[i + 1..], OPENCLAW_NAME, p) {
          NothingMade(r, i, p);
          OpenMakes(r, i);
          assert r.cs[i + 1..n] == r.cs[i + 1..];
          Remains(r, i + 1, n, OPENCLAW_NAME, p);
        }
      }
    }
  }

  /** Without the legacy mount the turn leaves one under the current name. */
  lemma OpenMakes(r: Run, i: nat)
    requires r.Fits() && i < |r.cs| && IsOpen(r.cs[i]) && r.Spot(i, LEGACY_NAME, r.cs[i].path) == Absent
    ensures r.Spot(i + 1, OPENCLAW_NAME, r.cs[i].path) == Good(r.cs[i])
  {
    hide Run.Spot;
    NotBarredByItself(r.cs[i]);
    r.Steps(i, OPENCLAW_NAME, r.cs[i].path);
  }

  /** A list with one mount, under the legacy name. */
  function LegacyOnly(path: string): seq<Mount> { [Mount(Some("legacy"), Some(LEGACY_NAME), Some(path), {}, false)] }

  lemma LegacyStart(r: Run, path: string)
    requires r.ms == LegacyOnly(path)
    ensures IdsName(r.ms)
    ensures r.Spot(0, LEGACY_NAME, path) != Absent && r.Spot(0, OPENCLAW_NAME, path) == Absent
  {
    NamesDiffer();
    StartIs(r, LEGACY_NAME, path);
    StartIs(r, OPENCLAW_NAME, path);
    assert At(r.ms[0], LEGACY_NAME, path);
  }

  /** From there OpenClaw keeps to the legacy mount while it stands and nobody makes the other one. */
  lemma {:induction false} KeepsToLegacy(r: Run, j: nat, path: string)
    requires r.Fits() && j <= |r.cs| && r.ms == LegacyOnly(path) && !Provided(r.cs[..j], OPENCLAW_NAME, path)
    requires forall i | 0 <= i < j && OpenAt(r.cs[i], path) :: !Barred(r.cs[..i], LEGACY_NAME, path)
    ensures r.Spot(j, OPENCLAW_NAME, path) == Absent
    ensures !Barred(r.cs[..j], LEGACY_NAME, path) ==> r.Spot(j, LEGACY_NAME, path) != Absent
    decreases j
  {
    hide Run.Spot, Bars;
    if j == 0 {
      LegacyStart(r, path);
    } else {
      var k := j - 1;
      assert r.cs[..j] == r.cs[..k] + [r.cs[k]];
      KeepsToLegacy(r, k, path);
      NamesDiffer();
      r.Steps(k, OPENCLAW_NAME, path);
      r.Steps(k, LEGACY_NAME, path);
    }
  }

  lemma LegacyNameHasToBeFree(r: Run, c: Contract)
    requires r.Fits() && Ends(r) && c in r.cs && IsOpen(c) && r.ms == LegacyOnly(c.path)
    ensures LegacyNameFree(r.cs, c.path)
  {
    hide Ends, Run.Spot, Bars, Home, Provided;
    var n, p := |r.cs|, c.path;
    if Barred(r.cs, LEGACY_NAME, p) && !Provided(r.cs, OPENCLAW_NAME, p)
       && forall i | 0 <= i < n && OpenAt(r.cs[i], p) :: !Barred(r.cs[..i], LEGACY_NAME, p) {
      NamesDiffer();
      assert r.cs[..n] == r.cs;
      KeepsToLegacy(r, n, p);
      var d :| d in r.cs && Bars(d, LEGACY_NAME, p);
      EndsClean(r, d, LEGACY_NAME, p);
      EndsServed(r, c);
    }
  }

  /** A disputed mount is nobody's to delete. */
  lemma DisputedIsNotBarred(r: Run, path: string, i: nat, j: nat)
    requires r.Fits() && NoClash(r.cs) && Disputed(r.cs, path) && i <= j <= |r.cs|
    ensures !Barred(r.cs[i..j], LEGACY_NAME, path)
  {
    hide NoClash, Bars;
    var c, d :| c in r.cs && d in r.cs && OpenAt(c, path) && Provides(d, LEGACY_NAME, path)
                && c.readWrite != d.readWrite;
    forall e | e in r.cs[i..j] ensures !Bars(e, LEGACY_NAME, path) {
      assert e in r.cs;
      ProviderNotBarred(r.cs, d, e, LEGACY_NAME, path);
    }
  }

  /** After OpenClaw has dressed the legacy mount, only a contract of that name dresses it otherwise. */
  lemma {:induction false} StaysOpen(r: Run, c: Contract, i: nat, j: nat)
    requires r.Fits() && NoClash(r.cs) && i <= j <= |r.cs| && c in r.cs && IsOpen(c)
    requires r.Spot(i, LEGACY_NAME, c.path) == Good(c)
    requires !Barred(r.cs[i..j], LEGACY_NAME, c.path) && !Provided(r.cs[i..j], LEGACY_NAME, c.path)
    ensures r.Spot(j, LEGACY_NAME, c.path) == Good(c)
    decreases j
  {
    hide Run.Spot, Bars, NoClash;
    if i < j {
      var e := r.cs[j - 1];
      assert e in r.cs && r.cs[i..j] == r.cs[i..j - 1] + [e];
      StaysOpen(r, c, i, j - 1);
      r.Steps(j - 1, LEGACY_NAME, c.path);
      if OpenAt(e, c.path) { OpensAgree(r.cs, c, e, c.path); }
    }
  }

  lemma DisputeHasToBeResolved(r: Run, o: Contract)
    requires r.Fits() && Ends(r) && NoClash(r.cs) && o in r.cs && IsOpen(o) && r.ms == LegacyOnly(o.path)
    ensures DisputeResolved(r.cs, o.path)
  {
    hide Ends, Run.Spot, Bars, Home, NoClash, Barred, Provided;
    var n, p := |r.cs|, o.path;
    if Disputed(r.cs, p) {
      var c, d :| c in r.cs && d in r.cs && OpenAt(c, p) && Provides(d, LEGACY_NAME, p) && c.readWrite != d.readWrite;
      NamesDiffer();
      assert r.cs[..n] == r.cs;
      forall j | 0 <= j <= n ensures !Barred(r.cs[..j], LEGACY_NAME, p) {
        DisputedIsNotBarred(r, p, 0, j);
        assert r.cs[0..j] == r.cs[..j];
      }
      EndsServed(r, c);
      EndsServed(r, d);
      if !Provided(r.cs, OPENCLAW_NAME, p) { KeepsToLegacy(r, n, p); }
      forall i | 0 <= i < n && OpenAt(r.cs[i], p)
        ensures Provided(r.cs[..i], OPENCLAW_NAME, p) || Provided(r.cs[i + 1..], LEGACY_NAME, p)
      {
        if !Provided(r.cs[..i], OPENCLAW_NAME, p) && !Provided(r.cs[i + 1..], LEGACY_NAME, p) {
          LastDresser(r, c, d, i);
        }
      }
    }
  }

  lemma LastDresser(r: Run, c: Contract, d: Contract, i: nat)
    requires r.Fits() && NoClash(r.cs) && r.ms == LegacyOnly(c.path) && c in r.cs && d in r.cs && i < |r.cs|
    requires IsOpen(c) && Provides(d, LEGACY_NAME, c.path) && c.readWrite != d.readWrite && OpenAt(r.cs[i], c.path)
    requires !Provided(r.cs[..i], OPENCLAW_NAME, c.path) && !Provided(r.cs[i + 1..], LEGACY_NAME, c.path)
    ensures r.Spot(|r.cs|, LEGACY_NAME, c.path) == Good(c)
  {
    hide Run.Spot, Bars, NoClash, Barred, Provided;
    var n, p := |r.cs|, c.path;
    assert OpenAt(c, p);
    assert Disputed(r.cs, p);
    forall j | 0 <= j <= i ensures !Barred(r.cs[..j], LEGACY_NAME, p) {
      DisputedIsNotBarred(r, p, 0, j);
      assert r.cs[0..j] == r.cs[..j];
    }
    KeepsToLegacy(r, i, p);
    NotBarredByItself(r.cs[i]);
    r.Steps(i, LEGACY_NAME, p);
    OpensAgree(r.cs, c, r.cs[i], p);
    DisputedIsNotBarred(r, p, i + 1, n);
    assert r.cs[i + 1..n] == r.cs[i + 1..];
    StaysOpen(r, c, i + 1, n);
  }

  // ---- The theorem ----

  ghost predicate AlwaysSettles(cs: seq<Contract>, user: string) {
    forall ms: seq<Mount> :: IdsName(ms) ==> AllSettled(Pass(ms, cs, user), cs, user)
  }

  /** One pass over normalised contracts settles all of them, from every mount list, exactly when they
      are compatible. */
  lemma PassSettlesExactly(cs: seq<Contract>, user: string)
    requires forall c <- cs :: Regular(c)
    ensures AlwaysSettles(cs, user) <==> Compatible(cs)
  {
    hide Compatible, AllSettled, Pass, IdsName, Regular;
    if Compatible(cs) {
      forall ms: seq<Mount> | IdsName(ms) ensures AllSettled(Pass(ms, cs, user), cs, user) {
        CompatibleSettles(ms, cs, user);
      }
    }
    if AlwaysSettles(cs, user) { SettlingIsCompatible(cs, user); }
  }

  lemma SettlingIsCompatible(cs: seq<Contract>, user: string)
    requires (forall c <- cs :: Regular(c)) && AlwaysSettles(cs, user)
    ensures Compatible(cs)
  {
    hide AllSettled, Pass, Regular, NoClash, CurrentNameFree, LegacyNameFree, DisputeResolved, Ends, Run.Fits;
    assert IdsName([]);
    SettledEnds([], cs, user);
    EndsHaveNoClash(Run([], cs, user));
    forall c | c in cs && IsOpen(c)
      ensures CurrentNameFree(cs, c.path) && LegacyNameFree(cs, c.path) && DisputeResolved(cs, c.path)
    {
      CurrentNameHasToBeFree(Run([], cs, user), c);
      var r := Run(LegacyOnly(c.path), cs, user);
      LegacyStart(r, c.path);
      SettledEnds(LegacyOnly(c.path), cs, user);
      LegacyNameHasToBeFree(r, c);
      DisputeHasToBeResolved(r, c);
    }
  }

  function AllNormalized(cs: seq<Contract>): (r: seq<Contract>)
    ensures |r| == |cs| && forall c <- r :: Regular(c)
  {
    seq(|cs|, i requires 0 <= i < |cs| => Normalize(cs[i]))
  }

  /** The backend only passes over normalised contracts, so nothing else is asked of them. */
  lemma NormalizedPassSettlesExactly(cs: seq<Contract>, user: string)
    ensures AlwaysSettles(AllNormalized(cs), user) <==> Compatible(AllNormalized(cs))
  {
    hide Compatible, AlwaysSettles, Regular, Normalize;
    PassSettlesExactly(AllNormalized(cs), user);
  }

  /** One pass over compatible contracts, or over any whose names are disjoint, settles every one of
      them, leaves all mounts that are none of their business as they were, and a second pass changes
      nothing. */
  lemma OnePassConverges(ms: seq<Mount>, cs: seq<Contract>, user: string)
    requires IdsName(ms) && (PairwiseDisjoint(cs) || ((forall c <- cs :: Regular(c)) && Compatible(cs)))
    ensures var ms' := Pass(ms, cs, user);
            AllSettled(ms', cs, user) && Untouched(ms', cs) == Untouched(ms, cs) && Pass(ms', cs, user) == ms'
  {
    hide Compatible, Regular, Untouched, Settled, PairwiseDisjoint, IdsName;
    if PairwiseDisjoint(cs) { PassSettles(ms, cs, user); } else { CompatibleSettles(ms, cs, user); }
    SettledPass(Pass(ms, cs, user), cs, user);
    PassIsLocal(ms, cs, user, cs);
  }

  /** Disjoint names are one way to be compatible. */
  lemma DisjointIsCompatible(cs: seq<Contract>, user: string)
    requires PairwiseDisjoint(cs) && forall c <- cs :: Regular(c)
    ensures Compatible(cs)
  {
    hide Compatible, Regular, Settled, PairwiseDisjoint, IdsName, Pass;
    forall ms: seq<Mount> | IdsName(ms) ensures AllSettled(Pass(ms, cs, user), cs, user) {
      PassSettles(ms, cs, user);
    }
    PassSettlesExactly(cs, user);
  }
}
