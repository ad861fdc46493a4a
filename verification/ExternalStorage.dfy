/** External-storage mounts of the advisor workspaces (`dokploy/nextcloud.py`): contract normalisation
    and the pass that deletes stale mounts, reuses legacy ones and creates missing ones. The mounts
    live on a server whose commands may each fail, before or after taking effect. */
module ExternalStorage {
  import opened Text
  import C = ComposeApply

  datatype Contract = Contract(
    advisorId: string, root: string, name: string, path: string, visibleRoot: string,
    contractPath: Option<string>, readWrite: bool, identity: string)

  // ---- Normalisation ----

  const ADVISORS := "/mnt/advisors/"
  const OPENCLAW := "openclaw"
  const OPENCLAW_NAME := "/Nexa Claw"
  const LEGACY_NAME := "/OpenClaw"

  function TargetRoot(advisorId: string): string { ADVISORS + advisorId }

  predicate Under(path: string, root: string) { path == root || root + "/" <= path }

  function NormalizePath(path: string, from: string, to: string): string {
    if Under(path, from) then to + path[|from|..] else path
  }

  function Normalize(c: Contract): Contract {
    var to := TargetRoot(c.advisorId);
    c.(root := to,
       name := if c.advisorId == OPENCLAW then OPENCLAW_NAME else c.name,
       path := NormalizePath(c.path, c.root, to),
       visibleRoot := NormalizePath(c.visibleRoot, c.root, to),
       contractPath := match c.contractPath case None => None case Some(p) => Some(NormalizePath(p, c.root, to)))
  }

  /** A path moves with its root, keeping what follows; other paths stay, and a path that is already
      in place stays too. */
  lemma NormalizePathMoves(path: string, from: string, to: string)
    ensures Under(path, from) ==>
              && Under(NormalizePath(path, from, to), to)
              && NormalizePath(path, from, to)[|to|..] == path[|from|..]
    ensures NormalizePath(path, to, to) == path
  {
    if Under(path, from) {
      var p, tail := NormalizePath(path, from, to), path[|from|..];
      assert p == to + tail && p[|to|..] == tail;
      if path != from {
        assert tail[0] == path[|from|] == (from + "/")[|from|];
        assert tail == ['/'] + tail[1..];
        Regroup(to, ['/'], tail[1..]);
        assert p == (to + "/") + tail[1..];
      } else {
        assert tail == [] && p == to;
      }
    }
    if Under(path, to) { SplitBack(path, |to|); }
  }

  lemma SplitBack(path: string, n: nat)
    requires n <= |path|
    ensures path[..n] + path[n..] == path
  {}

  /** Where a contract ends up, in full. */
  lemma NormalizeIs(c: Contract)
    ensures var d := Normalize(c);
            && d.root == "/mnt/advisors/" + c.advisorId
            && d.name == (if c.advisorId == "openclaw" then "/Nexa Claw" else c.name)
            && Moved(c.path, c.root, d.path, d.root) && Moved(c.visibleRoot, c.root, d.visibleRoot, d.root)
            && (c.contractPath.None? <==> d.contractPath.None?)
            && (c.contractPath.Some? ==> Moved(c.contractPath.value, c.root, d.contractPath.value, d.root))
            && d.advisorId == c.advisorId && d.readWrite == c.readWrite && d.identity == c.identity
  {}

  /** A path at or below the old root is at the same place at or below the new one; others stay. */
  predicate Moved(path: string, from: string, path': string, to: string) {
    if path == from then path' == to
    else if from + "/" <= path then path' == to + path[|from|..]
    else path' == path
  }

  lemma NormalizeIdempotent(c: Contract)
    ensures Normalize(Normalize(c)) == Normalize(c)
    ensures Under(c.path, c.root) ==> Under(Normalize(c).path, Normalize(c).root)
    ensures Under(c.visibleRoot, c.root) ==> Under(Normalize(c).visibleRoot, Normalize(c).root)
    ensures c.contractPath.Some? ==>
              && Normalize(c).contractPath.Some?
              && (Under(c.contractPath.value, c.root) ==> Under(Normalize(c).contractPath.value, Normalize(c).root))
  {
    var d, to := Normalize(c), TargetRoot(c.advisorId);
    NormalizePathMoves(c.path, c.root, to);
    NormalizePathMoves(c.visibleRoot, c.root, to);
    NormalizePathMoves(d.path, to, to);
    NormalizePathMoves(d.visibleRoot, to, to);
    if c.contractPath.Some? {
      NormalizePathMoves(c.contractPath.value, c.root, to);
      NormalizePathMoves(d.contractPath.value, to, to);
    }
    hide Under, NormalizePath, TargetRoot;
  }

  // ---- Mounts ----

  datatype Mount = Mount(
    id: Option<string>, name: Option<string>, datadir: Option<string>, users: set<string>, readonly: bool)

  function LegacyNames(c: Contract): seq<string> { if c.advisorId == OPENCLAW then [LEGACY_NAME] else [] }

  function Names(c: Contract): seq<string> { [c.name] + LegacyNames(c) }

  function VolumeRoots(c: Contract): seq<string> {
    var legacy := "/mnt/" + c.advisorId;
    if legacy == c.root then [c.root] else [c.root, legacy]
  }

  predicate Owned(c: Contract, datadir: string) { exists root <- VolumeRoots(c) :: Under(datadir, root) }

  predicate Named(c: Contract, m: Mount) { m.name.Some? && m.name.value in Names(c) }

  /** Wizard-owned, under one of the contract's names, and not at its path. */
  predicate Stale(c: Contract, m: Mount) {
    && Named(c, m) && m.id.Some?
    && m.datadir.Some? && m.datadir.value != c.path && Owned(c, m.datadir.value)
  }

  /** What the contract's turns may delete, dress or create: a mount of one of its names, at its path
      or in a wizard-owned place. A user's own mount of that name elsewhere is none. */
  predicate Touchable(c: Contract, m: Mount) {
    Named(c, m) && m.id.Some? && m.datadir.Some? && (m.datadir.value == c.path || Owned(c, m.datadir.value))
  }

  /** Identified mounts that share an id are one. */
  predicate IdsName(ms: seq<Mount>) {
    forall m <- ms, m' <- ms :: m.id.Some? && m.id == m'.id ==> m == m'
  }

  /** What a mount made before the contract's volume moved becomes: stale, so that it is replaced. */
  lemma OldPlaceIsStale(c: Contract, m: Mount)
    requires c.root == "/mnt/" + c.advisorId && Under(c.path, c.root)
    requires m.id.Some? && m.datadir == Some(c.path) && Named(Normalize(c), m)
    ensures Stale(Normalize(c), m)
  {
    var d := Normalize(c);
    var id := c.advisorId;
    assert d.root == "/mnt/advisors/" + id && c.root == "/mnt/" + id;
    assert c.root in VolumeRoots(d) by {
      assert |d.root| == 14 + |id| && |c.root| == 5 + |id|;
    }
    assert |d.path| == |d.root| + |c.path| - |c.root|;
    assert d.path != c.path;
  }

  // ---- What one contract does to the mounts ----

  function Kept(ms: seq<Mount>, c: Contract): (r: seq<Mount>)
    ensures forall m :: m in r <==> m in ms && !Stale(c, m)
  {
    if ms == [] then []
    else
      assert ms == [ms[0]] + ms[1..];
      if Stale(c, ms[0]) then Kept(ms[1..], c) else [ms[0]] + Kept(ms[1..], c)
  }

  predicate At(m: Mount, name: string, path: string) {
    m.id.Some? && m.name == Some(name) && m.datadir == Some(path)
  }

  /** `_find_external_storage_mount_id`: the first identified mount of that name at that path. */
  function FindId(ms: seq<Mount>, name: string, path: string): (r: Option<string>)
    ensures r.Some? ==> exists m <- ms :: At(m, name, path) && m.id == r
    ensures r.None? ==> forall m <- ms :: !At(m, name, path)
  {
    if ms == [] then None
    else
      assert ms == [ms[0]] + ms[1..];
      if At(ms[0], name, path) then ms[0].id else FindId(ms[1..], name, path)
  }

  /** The id and name of the mount in use, trying the names in order. */
  function Resolve(ms: seq<Mount>, names: seq<string>, path: string): (r: Option<(string, string)>)
    ensures r.Some? ==> r.value.1 in names && exists m <- ms :: At(m, r.value.1, path) && m.id == Some(r.value.0)
    ensures r.None? ==> forall n <- names :: FindId(ms, n, path) == None
  {
    if names == [] then None
    else if FindId(ms, names[0], path).Some? then Some((FindId(ms, names[0], path).value, names[0]))
    else Resolve(ms, names[1..], path)
  }

  function Existing(ms: seq<Mount>, c: Contract): Option<(string, string)> { Resolve(ms, Names(c), c.path) }

  function Ids(ms: seq<Mount>): seq<string> {
    seq(|ms|, i requires 0 <= i < |ms| => if ms[i].id.Some? then ms[i].id.value else "")
  }

  function NewMount(ms: seq<Mount>, name: string, path: string): Mount {
    Mount(Some(C.NewId(Ids(ms))), Some(name), Some(path), {}, false)
  }

  function WithMount(ms: seq<Mount>, c: Contract): seq<Mount> {
    if Existing(ms, c).Some? then ms else ms + [NewMount(ms, c.name, c.path)]
  }

  function AddUser(m: Mount, id: string, user: string): Mount {
    if m.id == Some(id) then m.(users := m.users + {user}) else m
  }

  function SetReadonly(m: Mount, id: string, readonly: bool): Mount {
    if m.id == Some(id) then m.(readonly := readonly) else m
  }

  function WithUser(ms: seq<Mount>, id: string, user: string): seq<Mount> {
    seq(|ms|, i requires 0 <= i < |ms| => AddUser(ms[i], id, user))
  }

  function WithReadonly(ms: seq<Mount>, id: string, readonly: bool): seq<Mount> {
    seq(|ms|, i requires 0 <= i < |ms| => SetReadonly(ms[i], id, readonly))
  }

  function Dressed(ms: seq<Mount>, id: string, c: Contract, user: string): seq<Mount> {
    WithReadonly(WithUser(ms, id, user), id, !c.readWrite)
  }

  lemma NewMountIsNew(ms: seq<Mount>, name: string, path: string)
    ensures forall m <- ms :: m.id != NewMount(ms, name, path).id
  {
    forall m | m in ms && m.id.Some? ensures m.id.value != C.NewId(Ids(ms)) {
      var i :| 0 <= i < |ms| && ms[i] == m;
      assert Ids(ms)[i] == m.id.value && Ids(ms)[i] in Ids(ms);
    }
  }

  lemma WithMountExists(ms: seq<Mount>, c: Contract)
    ensures Existing(WithMount(ms, c), c).Some?
  {
    if Existing(ms, c).None? {
      var made := NewMount(ms, c.name, c.path);
      assert made in ms + [made] && At(made, c.name, c.path);
      assert FindId(ms + [made], c.name, c.path).Some?;
      assert c.name == Names(c)[0];
    }
  }

  /** The mounts after one contract's turn. */
  function Ensured(ms: seq<Mount>, c: Contract, user: string): seq<Mount> {
    var w := WithMount(Kept(ms, c), c);
    WithMountExists(Kept(ms, c), c);
    Dressed(w, Existing(w, c).value.0, c, user)
  }

  // ---- Which mounts a turn takes away ----

  /** Identified, under one of the contract's names, not at its path, and in its volume, be it the present
      one or that of older versions. */
  predicate Goes(c: Contract, m: Mount) {
    && m.id.Some? && m.datadir.Some? && m.datadir.value != c.path
    && (m.name == Some(c.name) || (c.advisorId == "openclaw" && m.name == Some("/OpenClaw")))
    && (|| m.datadir.value == c.root || c.root + "/" <= m.datadir.value
        || m.datadir.value == "/mnt/" + c.advisorId || "/mnt/" + c.advisorId + "/" <= m.datadir.value)
  }

  function Staying(ms: seq<Mount>, c: Contract): seq<Mount> {
    if ms == [] then []
    else if Goes(c, ms[0]) then Staying(ms[1..], c)
    else [ms[0]] + Staying(ms[1..], c)
  }

  lemma StaleGoes(c: Contract, m: Mount)
    ensures Stale(c, m) <==> Goes(c, m)
  {
    var legacy := "/mnt/" + c.advisorId;
    assert Named(c, m) <==> m.name == Some(c.name) || (c.advisorId == "openclaw" && m.name == Some("/OpenClaw"));
    if m.datadir.Some? {
      var d := m.datadir.value;
      assert Owned(c, d) <==> Under(d, c.root) || Under(d, legacy) by {
        assert c.root in VolumeRoots(c) && legacy in VolumeRoots(c);
      }
    }
  }

  /** What a contract may touch at all: what goes, and what stands at its path under its names. */
  lemma TouchableIs(c: Contract, m: Mount)
    ensures Touchable(c, m) <==>
            Goes(c, m) || At(m, c.name, c.path) || (c.advisorId == "openclaw" && At(m, "/OpenClaw", c.path))
  {
    StaleGoes(c, m);
    hide Owned;
  }

  lemma {:induction false} KeptIsStaying(ms: seq<Mount>, c: Contract)
    ensures Kept(ms, c) == Staying(ms, c)
  {
    hide Stale, Goes;
    if ms != [] {
      StaleGoes(c, ms[0]);
      KeptIsStaying(ms[1..], c);
    }
  }

  /** What a contract's turn leaves: every mount that does not go, in order and in its place, and one new
      mount of the contract's name at its path when none of its names had one there. */
  lemma TurnLeaves(ms: seq<Mount>, c: Contract, user: string)
    ensures var s, e := Staying(ms, c), Ensured(ms, c, user);
            && |s| <= |e| && SamePlaces(s, e[..|s|])
            && (if exists m <- s :: At(m, c.name, c.path) || (c.advisorId == "openclaw" && At(m, "/OpenClaw", c.path))
                then |e| == |s|
                else |e| == |s| + 1 && At(e[|s|], c.name, c.path))
  {
    KeptIsStaying(ms, c);
    var s := Staying(ms, c);
    var w := WithMount(s, c);
    WithMountExists(s, c);
    DressedPlaces(w, Existing(w, c).value.0, c, user);
    ExistingMeans(s, c);
    hide Dressed, Existing, Staying, Kept, At, SamePlaces, NewMount;
    PlacesOfPart(s, w, Ensured(ms, c, user), c);
  }

  lemma PlacesOfPart(s: seq<Mount>, w: seq<Mount>, e: seq<Mount>, c: Contract)
    requires SamePlaces(w, e) && (w == s || w == s + [NewMount(s, c.name, c.path)])
    ensures |s| <= |e| && SamePlaces(s, e[..|s|]) && (|w| == |s| + 1 ==> At(e[|s|], c.name, c.path))
  {
    assert forall i :: 0 <= i < |s| ==> w[i] == s[i];
    if |w| == |s| + 1 { assert SameButOptions(w[|s|], e[|s|]); }
  }

  lemma ExistingMeans(ms: seq<Mount>, c: Contract)
    ensures Existing(ms, c).Some? <==>
            exists m <- ms :: At(m, c.name, c.path) || (c.advisorId == "openclaw" && At(m, "/OpenClaw", c.path))
  {
    InUseIs(ms, c);
    hide Existing, At;
  }

  /** Which of them is in use: the first of its own name, else the first of the old one. */
  lemma InUseIs(ms: seq<Mount>, c: Contract)
    ensures var own, former := FindId(ms, c.name, c.path), FindId(ms, "/OpenClaw", c.path);
            Existing(ms, c) ==
            if own.Some? then Some((own.value, c.name))
            else if c.advisorId == "openclaw" && former.Some? then Some((former.value, "/OpenClaw"))
            else None
  {
    var names := Names(c);
    assert names[0] == c.name && names[1..] == LegacyNames(c);
    var former := FindId(ms, "/OpenClaw", c.path);
    hide FindId;
    if c.advisorId == "openclaw" {
      assert names[1..] == ["/OpenClaw"] && ["/OpenClaw"][1..] == [];
      assert Resolve(ms, ["/OpenClaw"], c.path) == if former.Some? then Some((former.value, "/OpenClaw")) else None;
    }
  }

  /** The contract has what it asks for: no stale mount, a mount at its path, open to the user. */
  predicate Settled(ms: seq<Mount>, c: Contract, user: string) {
    && (forall m <- ms :: !Stale(c, m))
    && Existing(ms, c).Some?
    && forall m <- ms :: m.id == Some(Existing(ms, c).value.0) ==> user in m.users && m.readonly == !c.readWrite
  }

  // ---- The same mounts up to users and options ----

  predicate SameButOptions(m: Mount, m': Mount) {
    m.id == m'.id && m.name == m'.name && m.datadir == m'.datadir
  }

  predicate SamePlaces(a: seq<Mount>, b: seq<Mount>) {
    |a| == |b| && forall i :: 0 <= i < |a| ==> SameButOptions(a[i], b[i])
  }

  lemma {:induction false} SamePlacesFind(a: seq<Mount>, b: seq<Mount>, name: string, path: string)
    requires SamePlaces(a, b)
    ensures FindId(a, name, path) == FindId(b, name, path)
  {
    if a != [] { SamePlacesFind(a[1..], b[1..], name, path); }
  }

  lemma {:induction false} ResolveCongruent(a: seq<Mount>, b: seq<Mount>, names: seq<string>, path: string)
    requires forall n <- names :: FindId(a, n, path) == FindId(b, n, path)
    ensures Resolve(a, names, path) == Resolve(b, names, path)
  {
    hide FindId;
    if names != [] {
      assert names[0] in names;
      ResolveCongruent(a, b, names[1..], path);
    }
  }

  lemma DressedPlaces(ms: seq<Mount>, id: string, c: Contract, user: string)
    ensures SamePlaces(ms, Dressed(ms, id, c, user))
    ensures forall m' <- Dressed(ms, id, c, user) ::
              && (m'.id == Some(id) ==> user in m'.users && m'.readonly == !c.readWrite)
              && exists m <- ms :: SameButOptions(m, m') && (m'.id != Some(id) ==> m' == m)
    ensures Existing(Dressed(ms, id, c, user), c) == Existing(ms, c)
  {
    var d := Dressed(ms, id, c, user);
    forall m' | m' in d
      ensures m'.id == Some(id) ==> user in m'.users && m'.readonly == !c.readWrite
      ensures exists m <- ms :: SameButOptions(m, m') && (m'.id != Some(id) ==> m' == m)
    {
      var i :| 0 <= i < |d| && d[i] == m';
      assert ms[i] in ms && SameButOptions(ms[i], m');
    }
    forall n | n in Names(c) ensures FindId(ms, n, c.path) == FindId(d, n, c.path) {
      SamePlacesFind(ms, d, n, c.path);
    }
    ResolveCongruent(ms, d, Names(c), c.path);
  }

  // ---- One contract settles ----

  lemma WithMountKeepsIds(ms: seq<Mount>, c: Contract)
    requires IdsName(ms)
    ensures IdsName(WithMount(ms, c))
  {
    NewMountIsNew(ms, c.name, c.path);
    hide Existing;
  }

  lemma DressedKeepsIds(ms: seq<Mount>, id: string, c: Contract, user: string)
    requires IdsName(ms)
    ensures IdsName(Dressed(ms, id, c, user))
  {
    var d := Dressed(ms, id, c, user);
    forall m, m' | m in d && m' in d && m.id.Some? && m.id == m'.id ensures m == m' {
      var i :| 0 <= i < |d| && d[i] == m;
      var j :| 0 <= j < |d| && d[j] == m';
      assert ms[i] in ms && ms[j] in ms;
    }
  }

  lemma EnsuredKeepsIds(ms: seq<Mount>, c: Contract, user: string)
    requires IdsName(ms)
    ensures IdsName(Ensured(ms, c, user))
  {
    var w := WithMount(Kept(ms, c), c);
    WithMountExists(Kept(ms, c), c);
    WithMountKeepsIds(Kept(ms, c), c);
    DressedKeepsIds(w, Existing(w, c).value.0, c, user);
    hide WithMount, Dressed, Kept, Existing;
  }

  lemma StaleOfSame(c: Contract, m: Mount, m': Mount)
    requires SameButOptions(m, m')
    ensures Stale(c, m) <==> Stale(c, m')
  {}

  lemma WithMountNotStale(ms: seq<Mount>, c: Contract)
    requires forall m <- ms :: !Stale(c, m)
    ensures forall m <- WithMount(ms, c) :: !Stale(c, m)
  {
    hide Existing;
    assert !Stale(c, NewMount(ms, c.name, c.path));
  }

  lemma EnsuredSettles(ms: seq<Mount>, c: Contract, user: string)
    ensures Settled(Ensured(ms, c, user), c, user)
  {
    hide WithMount, Dressed, Kept, Existing, Stale;
    var k := Kept(ms, c);
    var w := WithMount(k, c);
    WithMountExists(k, c);
    WithMountNotStale(k, c);
    var id := Existing(w, c).value.0;
    DressedPlaces(w, id, c, user);
    var d := Dressed(w, id, c, user);
    forall m' | m' in d ensures !Stale(c, m') {
      var m :| m in w && SameButOptions(m, m');
      StaleOfSame(c, m, m');
    }
  }

  lemma {:induction false} KeptAll(ms: seq<Mount>, c: Contract)
    requires forall m <- ms :: !Stale(c, m)
    ensures Kept(ms, c) == ms
  {
    hide Stale;
    if ms != [] { KeptAll(ms[1..], c); }
  }

  /** A settled contract's turn changes nothing. */
  lemma SettledStays(ms: seq<Mount>, c: Contract, user: string)
    requires Settled(ms, c, user)
    ensures Ensured(ms, c, user) == ms
  {
    KeptAll(ms, c);
    var id := Existing(ms, c).value.0;
    var d := Dressed(ms, id, c, user);
    forall i | 0 <= i < |ms| ensures d[i] == ms[i] {
      assert ms[i] in ms;
      if ms[i].id == Some(id) { assert ms[i].users + {user} == ms[i].users; }
    }
  }

  // ---- Contracts do not interfere ----

  predicate Disjoint(c: Contract, d: Contract) { forall n <- Names(c) :: n !in Names(d) }

  lemma {:induction false} KeptFind(ms: seq<Mount>, c: Contract, name: string, path: string)
    requires name !in Names(c)
    ensures FindId(Kept(ms, c), name, path) == FindId(ms, name, path)
  {
    hide Names, Owned;
    if ms != [] { KeptFind(ms[1..], c, name, path); }
  }

  lemma {:induction false} AppendFind(ms: seq<Mount>, m: Mount, name: string, path: string)
    requires m.name != Some(name)
    ensures FindId(ms + [m], name, path) == FindId(ms, name, path)
  {
    if ms == [] {
      assert ms + [m] == [m];
    } else {
      AppendFind(ms[1..], m, name, path);
      assert (ms + [m])[1..] == ms[1..] + [m];
    }
  }

  lemma EnsuredFind(ms: seq<Mount>, c: Contract, user: string, name: string, path: string)
    requires name !in Names(c)
    ensures FindId(Ensured(ms, c, user), name, path) == FindId(ms, name, path)
  {
    var k := Kept(ms, c);
    var w := WithMount(k, c);
    WithMountExists(k, c);
    KeptFind(ms, c, name, path);
    assert FindId(w, name, path) == FindId(k, name, path) by {
      assert c.name == Names(c)[0];
      AppendFind(k, NewMount(k, c.name, c.path), name, path);
    }
    var id := Existing(w, c).value.0;
    DressedPlaces(w, id, c, user);
    SamePlacesFind(w, Dressed(w, id, c, user), name, path);
  }

  lemma WithMountMembers(ms: seq<Mount>, c: Contract)
    ensures forall m <- WithMount(ms, c) :: m in ms || Named(c, m)
  {
    hide Existing;
    assert c.name == Names(c)[0];
  }

  lemma ExistingIsNamed(ms: seq<Mount>, c: Contract)
    requires Existing(ms, c).Some?
    ensures exists m <- ms :: Named(c, m) && Touchable(c, m) && m.id == Some(Existing(ms, c).value.0)
  {
    hide FindId, Names;
    var e := Existing(ms, c).value;
    var used :| used in ms && At(used, e.1, c.path) && used.id == Some(e.0);
    assert Named(c, used) && Touchable(c, used);
  }

  /** A mount after a turn bears one of the contract's names or was there before, unchanged. */
  lemma EnsuredOrigin(ms: seq<Mount>, c: Contract, user: string, m': Mount)
    requires IdsName(ms) && m' in Ensured(ms, c, user)
    ensures Named(c, m') || m' in ms
  {
    hide Dressed, Kept, WithMount, Existing, Stale, Names;
    var k := Kept(ms, c);
    var w := WithMount(k, c);
    WithMountExists(k, c);
    WithMountKeepsIds(k, c);
    WithMountMembers(k, c);
    ExistingIsNamed(w, c);
    var id := Existing(w, c).value.0;
    DressedPlaces(w, id, c, user);
    var m :| m in w && SameButOptions(m, m') && (m'.id != Some(id) ==> m' == m);
    assert m'.id == Some(id) ==> Named(c, m);
  }

  /** After another contract's turn, the mounts under this contract's names are those before it. */
  lemma EnsuredLeavesAlone(ms: seq<Mount>, c: Contract, d: Contract, user: string, m: Mount)
    requires IdsName(ms) && Disjoint(d, c) && m in Ensured(ms, c, user) && Named(d, m)
    ensures m in ms
  {
    EnsuredOrigin(ms, c, user, m);
    hide Ensured, Names;
  }

  lemma SettledCarriesOver(ms: seq<Mount>, s: seq<Mount>, d: Contract, user: string)
    requires Settled(ms, d, user) && Existing(s, d) == Existing(ms, d) && IdsName(s)
    requires forall m <- s :: Named(d, m) ==> m in ms
    ensures Settled(s, d, user)
  {
    hide Existing, Owned, Names;
    ExistingIsNamed(s, d);
  }

  lemma EnsuredKeepsSettled(ms: seq<Mount>, c: Contract, d: Contract, user: string)
    requires IdsName(ms) && Settled(ms, d, user) && Disjoint(d, c)
    ensures Settled(Ensured(ms, c, user), d, user)
  {
    var s := Ensured(ms, c, user);
    forall n | n in Names(d) ensures FindId(s, n, d.path) == FindId(ms, n, d.path) {
      EnsuredFind(ms, c, user, n, d.path);
    }
    hide Ensured, FindId, Names, Disjoint, Resolve, Settled;
    ResolveCongruent(s, ms, Names(d), d.path);
    EnsuredKeepsIds(ms, c, user);
    forall m | m in s && Named(d, m) ensures m in ms {
      EnsuredLeavesAlone(ms, c, d, user, m);
    }
    SettledCarriesOver(ms, s, d, user);
  }

  // ---- The pass ----

  function Pass(ms: seq<Mount>, cs: seq<Contract>, user: string): seq<Mount>
    decreases |cs|
  {
    if cs == [] then ms else Pass(Ensured(ms, cs[0], user), cs[1..], user)
  }

  predicate PairwiseDisjoint(cs: seq<Contract>) {
    forall i, j | 0 <= i < |cs| && 0 <= j < |cs| && i != j :: Disjoint(cs[i], cs[j])
  }

  predicate AllSettled(ms: seq<Mount>, cs: seq<Contract>, user: string) {
    forall c <- cs :: Settled(ms, c, user)
  }

  predicate TouchableBy(cs: seq<Contract>, m: Mount) { exists c <- cs :: Touchable(c, m) }

  /** The mounts that are none of the contracts' business, in order. */
  function Untouched(ms: seq<Mount>, cs: seq<Contract>): seq<Mount> {
    if ms == [] then []
    else if TouchableBy(cs, ms[0]) then Untouched(ms[1..], cs)
    else [ms[0]] + Untouched(ms[1..], cs)
  }

  lemma {:induction false} PassKeepsSettled(ms: seq<Mount>, cs: seq<Contract>, d: Contract, user: string)
    requires IdsName(ms) && Settled(ms, d, user) && forall c <- cs :: Disjoint(d, c)
    ensures Settled(Pass(ms, cs, user), d, user)
    decreases |cs|
  {
    hide Ensured, IdsName, Settled, Disjoint;
    if cs != [] {
      assert cs[0] in cs;
      EnsuredKeepsSettled(ms, cs[0], d, user);
      EnsuredKeepsIds(ms, cs[0], user);
      PassKeepsSettled(Ensured(ms, cs[0], user), cs[1..], d, user);
    }
  }

  lemma {:induction false} PassSettles(ms: seq<Mount>, cs: seq<Contract>, user: string)
    requires IdsName(ms) && PairwiseDisjoint(cs)
    ensures AllSettled(Pass(ms, cs, user), cs, user) && IdsName(Pass(ms, cs, user))
    decreases |cs|
  {
    hide Ensured, IdsName, Settled, Disjoint;
    if cs != [] {
      var next := Ensured(ms, cs[0], user);
      EnsuredSettles(ms, cs[0], user);
      EnsuredKeepsIds(ms, cs[0], user);
      PassSettles(next, cs[1..], user);
      forall c | c in cs[1..] ensures Disjoint(cs[0], c) {
        var i :| 0 <= i < |cs[1..]| && cs[1..][i] == c;
        assert cs[i + 1] == c;
      }
      PassKeepsSettled(next, cs[1..], cs[0], user);
      assert cs == [cs[0]] + cs[1..];
    }
  }

  lemma {:induction false} SettledPass(ms: seq<Mount>, cs: seq<Contract>, user: string)
    requires AllSettled(ms, cs, user)
    ensures Pass(ms, cs, user) == ms
  {
    hide Ensured, Settled;
    if cs != [] {
      assert cs[0] in cs;
      SettledStays(ms, cs[0], user);
      SettledPass(ms, cs[1..], user);
    }
  }

  lemma {:induction false} UntouchedKept(ms: seq<Mount>, c: Contract)
    ensures Untouched(Kept(ms, c), [c]) == Untouched(ms, [c])
  {
    hide Stale, Touchable;
    if ms != [] {
      StaleIsTouchable(c, ms[0]);
      assert c in [c];
      UntouchedKept(ms[1..], c);
    }
  }

  lemma StaleIsTouchable(c: Contract, m: Mount)
    ensures Stale(c, m) ==> m.id.Some? && Named(c, m) && Touchable(c, m)
  {
    hide Named, Owned;
  }

  lemma {:induction false} UntouchedAppend(ms: seq<Mount>, m: Mount, cs: seq<Contract>)
    requires TouchableBy(cs, m)
    ensures Untouched(ms + [m], cs) == Untouched(ms, cs)
  {
    hide TouchableBy;
    if ms == [] {
      assert ms + [m] == [m];
    } else {
      UntouchedAppend(ms[1..], m, cs);
      assert (ms + [m])[1..] == ms[1..] + [m];
    }
  }

  predicate AgreeOutside(m: Mount, m': Mount, c: Contract) {
    m == m' || (SameButOptions(m, m') && Touchable(c, m))
  }

  lemma TouchableBoth(m: Mount, m': Mount, c: Contract)
    requires AgreeOutside(m, m', c)
    ensures m == m' || (TouchableBy([c], m) && TouchableBy([c], m'))
  {
    hide Owned, Names;
    assert c in [c];
    assert SameButOptions(m, m') && Touchable(c, m) ==> Touchable(c, m');
  }

  lemma {:induction false} UntouchedAgree(a: seq<Mount>, b: seq<Mount>, c: Contract)
    requires |a| == |b| && forall i :: 0 <= i < |a| ==> AgreeOutside(a[i], b[i], c)
    ensures Untouched(a, [c]) == Untouched(b, [c])
  {
    hide TouchableBy, Touchable;
    if a != [] {
      assert AgreeOutside(a[0], b[0], c);
      TouchableBoth(a[0], b[0], c);
      hide AgreeOutside;
      UntouchedAgree(a[1..], b[1..], c);
    }
  }

  /** The id is one of the contract's mounts. */
  predicate IdOf(ms: seq<Mount>, c: Contract, id: string) {
    exists m <- ms :: Touchable(c, m) && m.id == Some(id)
  }

  lemma UserIsLocal(ms: seq<Mount>, c: Contract, id: string, user: string)
    requires IdsName(ms) && IdOf(ms, c, id)
    ensures Untouched(WithUser(ms, id, user), [c]) == Untouched(ms, [c])
    ensures IdsName(WithUser(ms, id, user)) && IdOf(WithUser(ms, id, user), c, id)
  {
    hide Named, Owned, Untouched;
    var m :| m in ms && Touchable(c, m) && m.id == Some(id);
    var i :| 0 <= i < |ms| && ms[i] == m;
    var d := WithUser(ms, id, user);
    assert d[i] in d && Touchable(c, d[i]) by { TouchableKept(c, m, d[i]); }
    forall j | 0 <= j < |ms| ensures AgreeOutside(ms[j], d[j], c) {
      assert ms[j] in ms;
    }
    UntouchedAgree(ms, d, c);
  }

  lemma TouchableKept(c: Contract, m: Mount, m': Mount)
    requires Touchable(c, m) && SameButOptions(m, m')
    ensures Touchable(c, m')
  {
    hide Owned, Names;
  }

  lemma ReadonlyIsLocal(ms: seq<Mount>, c: Contract, id: string, readonly: bool)
    requires IdsName(ms) && IdOf(ms, c, id)
    ensures Untouched(WithReadonly(ms, id, readonly), [c]) == Untouched(ms, [c])
    ensures IdsName(WithReadonly(ms, id, readonly))
  {
    hide Touchable, Untouched;
    var m :| m in ms && Touchable(c, m) && m.id == Some(id);
    var d := WithReadonly(ms, id, readonly);
    forall j | 0 <= j < |ms| ensures AgreeOutside(ms[j], d[j], c) {
      assert ms[j] in ms;
    }
    UntouchedAgree(ms, d, c);
  }

  lemma {:induction false} UntouchedIn(ms: seq<Mount>, few: seq<Contract>, cs: seq<Contract>)
    requires forall c <- few :: c in cs
    ensures Untouched(Untouched(ms, few), cs) == Untouched(ms, cs)
  {
    hide Touchable;
    if ms != [] { UntouchedIn(ms[1..], few, cs); }
  }

  lemma WithMountIsLocal(ms: seq<Mount>, c: Contract)
    ensures Untouched(WithMount(ms, c), [c]) == Untouched(ms, [c])
    ensures Untouched(ms + [NewMount(ms, c.name, c.path)], [c]) == Untouched(ms, [c])
  {
    hide Existing, Untouched;
    assert c.name == Names(c)[0] && c in [c];
    UntouchedAppend(ms, NewMount(ms, c.name, c.path), [c]);
  }

  lemma EnsuredIsLocal(ms: seq<Mount>, c: Contract, user: string)
    requires IdsName(ms)
    ensures Untouched(Ensured(ms, c, user), [c]) == Untouched(ms, [c])
  {
    hide Untouched, Kept, WithMount, Existing, WithUser, WithReadonly;
    var k := Kept(ms, c);
    var w := WithMount(k, c);
    UntouchedKept(ms, c);
    WithMountIsLocal(k, c);
    WithMountExists(k, c);
    WithMountKeepsIds(k, c);
    ExistingIsNamed(w, c);
    var id := Existing(w, c).value.0;
    UserIsLocal(w, c, id, user);
    ReadonlyIsLocal(WithUser(w, id, user), c, id, !c.readWrite);
  }

  lemma {:induction false} PassIsLocal(ms: seq<Mount>, cs: seq<Contract>, user: string, all: seq<Contract>)
    requires IdsName(ms) && forall c <- cs :: c in all
    ensures Untouched(Pass(ms, cs, user), all) == Untouched(ms, all)
    decreases |cs|
  {
    hide Untouched, Ensured;
    if cs != [] {
      var c, next := cs[0], Ensured(ms, cs[0], user);
      assert c in cs;
      EnsuredIsLocal(ms, c, user);
      EnsuredKeepsIds(ms, c, user);
      UntouchedIn(ms, [c], all);
      UntouchedIn(next, [c], all);
      PassIsLocal(next, cs[1..], user, all);
    }
  }

  /** A settled contract has a mount at its path, of one of its names, for the user, with its mode. */
  lemma SettledHasMount(ms: seq<Mount>, c: Contract, user: string)
    requires Settled(ms, c, user)
    ensures exists m <- ms ::
              && Named(c, m) && m.id.Some? && m.datadir == Some(c.path)
              && user in m.users && m.readonly == !c.readWrite
  {
    hide FindId, Names, Owned;
    var e := Existing(ms, c).value;
    var m :| m in ms && At(m, e.1, c.path) && m.id == Some(e.0);
    assert Named(c, m);
  }

  /** When another contract shares all names of one and owns its path, but has another path itself, the
      two undo each other for ever. */
  lemma SharedNamesNeverSettle(ms: seq<Mount>, c: Contract, d: Contract, user: string)
    requires (forall n <- Names(c) :: n in Names(d)) && c.path != d.path && Owned(d, c.path)
    ensures !(Settled(ms, c, user) && Settled(ms, d, user))
  {
    if Settled(ms, c, user) {
      SettledHasMount(ms, c, user);
      var m :| m in ms && Named(c, m) && m.id.Some? && m.datadir == Some(c.path);
      assert Stale(d, m);
    }
  }

  // ---- The server ----

  datatype Failure = CommandFailed | NotCreated

  function Without(ms: seq<Mount>, gone: set<string>): (r: seq<Mount>)
    ensures forall m :: m in r <==> m in ms && !(m.id.Some? && m.id.value in gone)
  {
    if ms == [] then []
    else
      assert ms == [ms[0]] + ms[1..];
      if ms[0].id.Some? && ms[0].id.value in gone then Without(ms[1..], gone) else [ms[0]] + Without(ms[1..], gone)
  }

  lemma {:induction false} WithoutTwice(ms: seq<Mount>, gone: set<string>, id: string)
    ensures Without(Without(ms, gone), {id}) == Without(ms, gone + {id})
  {
    if ms != [] { WithoutTwice(ms[1..], gone, id); }
  }

  /** The ids are those of the contract's stale mounts. */
  predicate StaleIds(ms: seq<Mount>, c: Contract, gone: set<string>) {
    forall m <- ms :: m.id.Some? && m.id.value in gone ==> Stale(c, m)
  }

  lemma {:induction false} WithoutStale(ms: seq<Mount>, c: Contract, gone: set<string>)
    requires StaleIds(ms, c, gone) && forall m <- ms :: Stale(c, m) ==> m.id.value in gone
    ensures Without(ms, gone) == Kept(ms, c)
  {
    hide Stale;
    if ms != [] {
      assert ms[0] in ms;
      StaleIsTouchable(c, ms[0]);
      WithoutStale(ms[1..], c, gone);
    }
  }

  lemma {:induction false} WithoutIsLocal(ms: seq<Mount>, c: Contract, gone: set<string>)
    requires StaleIds(ms, c, gone)
    ensures Untouched(Without(ms, gone), [c]) == Untouched(ms, [c])
  {
    hide Stale, Names;
    if ms != [] {
      assert ms[0] in ms;
      StaleIsTouchable(c, ms[0]);
      WithoutIsLocal(ms[1..], c, gone);
    }
  }

  lemma {:induction false} WithoutNothing(ms: seq<Mount>)
    ensures Without(ms, {}) == ms
  {
    if ms != [] { WithoutNothing(ms[1..]); }
  }

  class Storage {
    var mounts: seq<Mount>
    /** Create and delete commands received. */
    ghost var commands: nat
    /** Commands that failed. */
    ghost var failed: nat

    constructor (mounts: seq<Mount>)
      ensures this.mounts == mounts && commands == 0
    {
      this.mounts, commands, failed := mounts, 0, 0;
    }

    method List() returns (res: Result<seq<Mount>, Failure>)
      modifies this`failed
      ensures failed == old(failed) + (if res.Err? then 1 else 0)
      ensures res.Ok? ==> res.value == mounts
      ensures res.Err? ==> res.error == CommandFailed
    {
      if * {
        failed := failed + 1;
        return Err(CommandFailed);
      }
      return Ok(mounts);
    }

    method Delete(id: string) returns (res: Result<(), Failure>)
      modifies this
      ensures commands == old(commands) + 1
      ensures failed == old(failed) + (if res.Err? then 1 else 0)
      ensures mounts == old(mounts) || mounts == Without(old(mounts), {id})
      ensures res.Ok? ==> mounts == Without(old(mounts), {id})
      ensures res.Err? ==> res.error == CommandFailed
    {
      commands := commands + 1;
      if * {
        failed := failed + 1;
        return Err(CommandFailed);
      }
      mounts := Without(mounts, {id});
      if * {
        failed := failed + 1;
        return Err(CommandFailed);
      }
      return Ok(());
    }

    method Create(name: string, path: string) returns (res: Result<(), Failure>)
      modifies this
      ensures commands == old(commands) + 1
      ensures failed == old(failed) + (if res.Err? then 1 else 0)
      ensures mounts == old(mounts) || mounts == old(mounts) + [NewMount(old(mounts), name, path)]
      ensures res.Ok? ==> mounts == old(mounts) + [NewMount(old(mounts), name, path)]
      ensures res.Err? ==> res.error == CommandFailed
    {
      commands := commands + 1;
      if * {
        failed := failed + 1;
        return Err(CommandFailed);
      }
      mounts := mounts + [NewMount(mounts, name, path)];
      if * {
        failed := failed + 1;
        return Err(CommandFailed);
      }
      return Ok(());
    }

    method Applicable(id: string, user: string) returns (res: Result<(), Failure>)
      modifies this`mounts, this`failed
      ensures failed == old(failed) + (if res.Err? then 1 else 0)
      ensures mounts == old(mounts) || mounts == WithUser(old(mounts), id, user)
      ensures res.Ok? ==> mounts == WithUser(old(mounts), id, user)
      ensures res.Err? ==> res.error == CommandFailed
    {
      if * {
        failed := failed + 1;
        return Err(CommandFailed);
      }
      mounts := WithUser(mounts, id, user);
      if * {
        failed := failed + 1;
        return Err(CommandFailed);
      }
      return Ok(());
    }

    method OptionReadonly(id: string, readonly: bool) returns (res: Result<(), Failure>)
      modifies this`mounts, this`failed
      ensures failed == old(failed) + (if res.Err? then 1 else 0)
      ensures mounts == old(mounts) || mounts == WithReadonly(old(mounts), id, readonly)
      ensures res.Ok? ==> mounts == WithReadonly(old(mounts), id, readonly)
      ensures res.Err? ==> res.error == CommandFailed
    {
      if * {
        failed := failed + 1;
        return Err(CommandFailed);
      }
      mounts := WithReadonly(mounts, id, readonly);
      if * {
        failed := failed + 1;
        return Err(CommandFailed);
      }
      return Ok(());
    }
  }

  // ---- The reconciliation ----

  method FindMountId(storage: Storage, name: string, path: string) returns (res: Result<Option<string>, Failure>)
    modifies storage`failed
    ensures storage.failed == old(storage.failed) + (if res.Err? then 1 else 0)
    ensures res.Ok? ==> res.value == FindId(storage.mounts, name, path)
    ensures res.Err? ==> res.error == CommandFailed
  {
    var listed := storage.List();
    if listed.Err? { return Err(listed.error); }
    var ms := listed.value;
    for i := 0 to |ms|
      invariant FindId(ms, name, path) == FindId(ms[i..], name, path)
      invariant storage.failed == old(storage.failed)
    {
      if ms[i].name == Some(name) && ms[i].datadir == Some(path) {
        if ms[i].id.Some? { return Ok(ms[i].id); }
      }
    }
    return Ok(None);
  }

  method ResolveExisting(storage: Storage, c: Contract) returns (res: Result<(Option<string>, string), Failure>)
    modifies storage`failed
    ensures storage.failed == old(storage.failed) + (if res.Err? then 1 else 0)
    ensures res.Ok? ==> res.value == match Existing(storage.mounts, c)
                                     case Some((id, name)) => (Some(id), name)
                                     case None => (None, c.name)
    ensures res.Err? ==> res.error == CommandFailed
  {
    hide FindId;
    var names := Names(c);
    for i := 0 to |names|
      invariant Existing(storage.mounts, c) == Resolve(storage.mounts, names[i..], c.path)
      invariant storage.failed == old(storage.failed)
    {
      var found := FindMountId(storage, names[i], c.path);
      if found.Err? { return Err(found.error); }
      if found.value.Some? { return Ok((found.value, names[i])); }
    }
    return Ok((None, c.name));
  }

  /** Deletes over a snapshot of the list. */
  method DeleteStale(storage: Storage, c: Contract) returns (res: Result<(), Failure>)
    requires IdsName(storage.mounts)
    modifies storage
    ensures storage.failed == old(storage.failed) + (if res.Err? then 1 else 0)
    ensures IdsName(storage.mounts)
    ensures Untouched(storage.mounts, [c]) == Untouched(old(storage.mounts), [c])
    ensures res.Ok? ==> storage.mounts == Kept(old(storage.mounts), c)
    ensures res.Err? ==> res.error == CommandFailed
    ensures (forall m <- old(storage.mounts) :: !Stale(c, m)) ==>
              storage.mounts == old(storage.mounts) && storage.commands == old(storage.commands)
  {
    hide *;
    var listed := storage.List();
    if listed.Err? { return Err(listed.error); }
    var ms := listed.value;
    ghost var gone: set<string> := {};
    WithoutNothing(ms);
    ClearingStarts(ms, c);
    for i := 0 to |ms|
      invariant storage.mounts == Without(ms, gone)
      invariant Clearing(ms, c, gone, i)
      invariant storage.failed == old(storage.failed)
      invariant (forall m <- ms :: !Stale(c, m)) ==> storage.mounts == ms && storage.commands == old(storage.commands)
    {
      ClearingStep(ms, c, gone, i);
      if Stale(c, ms[i]) {
        assert ms[i] in ms;
        var id := ms[i].id.value;
        WithoutTwice(ms, gone, id);
        var deleted := storage.Delete(id);
        if deleted.Err? { return Err(deleted.error); }
        gone := gone + {id};
      }
    }
    ClearingEnds(ms, c, gone);
    return Ok(());
  }

  /** The ids in `gone` are stale ones, among them those of the first `i` mounts. */
  predicate Clearing(ms: seq<Mount>, c: Contract, gone: set<string>, i: nat)
    requires i <= |ms|
  {
    StaleIds(ms, c, gone) && forall m <- ms[..i] :: Stale(c, m) ==> m.id.Some? && m.id.value in gone
  }

  lemma ClearingStarts(ms: seq<Mount>, c: Contract)
    ensures Clearing(ms, c, {}, 0)
    ensures IdsName(ms) ==> IdsName(Without(ms, {})) && Untouched(Without(ms, {}), [c]) == Untouched(ms, [c])
  {
    hide Untouched;
    WithoutNothing(ms);
  }

  lemma ClearingStep(ms: seq<Mount>, c: Contract, gone: set<string>, i: nat)
    requires IdsName(ms) && i < |ms| && Clearing(ms, c, gone, i)
    ensures IdsName(Without(ms, gone)) && Untouched(Without(ms, gone), [c]) == Untouched(ms, [c])
    ensures !Stale(c, ms[i]) ==> Clearing(ms, c, gone, i + 1)
    ensures Stale(c, ms[i]) ==>
              && ms[i].id.Some? && Clearing(ms, c, gone + {ms[i].id.value}, i + 1)
              && IdsName(Without(ms, gone + {ms[i].id.value}))
              && Untouched(Without(ms, gone + {ms[i].id.value}), [c]) == Untouched(ms, [c])
  {
    hide Stale, Untouched, IdsName;
    assert ms[..i + 1] == ms[..i] + [ms[i]] && ms[i] in ms;
    StaleIsTouchable(c, ms[i]);
    WithoutStaleIs(ms, c, gone);
    if Stale(c, ms[i]) { OneMoreStale(ms, c, gone, ms[i], ms[i].id.value); }
  }

  lemma ClearingEnds(ms: seq<Mount>, c: Contract, gone: set<string>)
    requires IdsName(ms) && Clearing(ms, c, gone, |ms|)
    ensures Without(ms, gone) == Kept(ms, c)
    ensures IdsName(Without(ms, gone)) && Untouched(Without(ms, gone), [c]) == Untouched(ms, [c])
  {
    hide Stale, Untouched, IdsName, Kept;
    assert ms[..|ms|] == ms;
    WithoutStaleIs(ms, c, gone);
    WithoutStale(ms, c, gone);
  }

  lemma WithoutStaleIs(ms: seq<Mount>, c: Contract, gone: set<string>)
    requires IdsName(ms) && StaleIds(ms, c, gone)
    ensures Untouched(Without(ms, gone), [c]) == Untouched(ms, [c]) && IdsName(Without(ms, gone))
  {
    hide Stale, Untouched;
    WithoutIsLocal(ms, c, gone);
  }

  lemma OneMoreStale(ms: seq<Mount>, c: Contract, gone: set<string>, m: Mount, id: string)
    requires IdsName(ms) && StaleIds(ms, c, gone) && m in ms && Stale(c, m) && m.id == Some(id)
    ensures StaleIds(ms, c, gone + {id}) && Without(Without(ms, gone), {id}) == Without(ms, gone + {id})
    ensures forall g | g == gone || g == gone + {id} ::
              Untouched(Without(ms, g), [c]) == Untouched(ms, [c]) && IdsName(Without(ms, g))
  {
    hide Stale, Untouched;
    WithoutTwice(ms, gone, id);
    WithoutStaleIs(ms, c, gone);
    WithoutStaleIs(ms, c, gone + {id});
  }

  /** The mount in use, created when there is none; one that was created is always found again. */
  method PlaceMount(storage: Storage, c: Contract) returns (res: Result<(string, string), Failure>)
    requires IdsName(storage.mounts)
    modifies storage
    ensures storage.failed == old(storage.failed) + (if res.Err? then 1 else 0)
    ensures IdsName(storage.mounts)
    ensures Untouched(storage.mounts, [c]) == Untouched(old(storage.mounts), [c])
    ensures res.Ok? ==>
              storage.mounts == WithMount(old(storage.mounts), c) && Existing(storage.mounts, c) == Some(res.value)
    ensures res.Err? ==> res.error == CommandFailed
    ensures Existing(old(storage.mounts), c).Some? ==>
              storage.mounts == old(storage.mounts) && storage.commands == old(storage.commands)
  {
    hide Untouched, Existing, NewMount;
    WithMountIsLocal(storage.mounts, c);
    var resolved := ResolveExisting(storage, c);
    if resolved.Err? { return Err(resolved.error); }
    var (mountId, active) := resolved.value;
    if mountId.None? {
      FirstNameResolves(storage.mounts, c);
      var created := storage.Create(c.name, c.path);
      if created.Err? { return Err(created.error); }
      var found := FindMountId(storage, c.name, c.path);
      if found.Err? { return Err(found.error); }
      if found.value.None? { return Err(NotCreated); }
      mountId := found.value;
    }
    return Ok((mountId.value, active));
  }

  /** One contract's turn. Wherever it stops, the mounts that are not its business are untouched; a
      settled contract costs no create and no delete. */
  method EnsureAdvisorStorage(storage: Storage, c: Contract, user: string) returns (res: Result<string, Failure>)
    requires IdsName(storage.mounts)
    modifies storage
    ensures storage.failed == old(storage.failed) + (if res.Err? then 1 else 0)
    ensures IdsName(storage.mounts)
    ensures Untouched(storage.mounts, [c]) == Untouched(old(storage.mounts), [c])
    ensures res.Ok? ==>
              && storage.mounts == Ensured(old(storage.mounts), c, user) && Existing(storage.mounts, c).Some?
              && res.value == Existing(storage.mounts, c).value.1
    ensures res.Err? ==> res.error == CommandFailed
    ensures Settled(old(storage.mounts), c, user) ==>
              storage.mounts == old(storage.mounts) && storage.commands == old(storage.commands)
  {
    hide *;
    ghost var start := storage.mounts;
    if Settled(start, c, user) { SettledFacts(start, c, user); }
    var cleared := DeleteStale(storage, c);
    if cleared.Err? { return Err(cleared.error); }
    var placed := PlaceMount(storage, c);
    if placed.Err? { return Err(placed.error); }
    var (id, active) := placed.value;
    OpeningIs(start, c, user, id, active);
    var applicable := storage.Applicable(id, user);
    if applicable.Err? { return Err(applicable.error); }
    var optioned := storage.OptionReadonly(id, !c.readWrite);
    if optioned.Err? { return Err(optioned.error); }
    return Ok(active);
  }

  /** The last two commands finish the turn and stay with the contract's own mounts. */
  lemma OpeningIs(ms: seq<Mount>, c: Contract, user: string, id: string, name: string)
    requires IdsName(WithMount(Kept(ms, c), c)) && Existing(WithMount(Kept(ms, c), c), c) == Some((id, name))
    ensures var w := WithMount(Kept(ms, c), c);
            var u := WithUser(w, id, user);
            && WithReadonly(u, id, !c.readWrite) == Ensured(ms, c, user)
            && Existing(Ensured(ms, c, user), c) == Some((id, name))
            && Untouched(u, [c]) == Untouched(Ensured(ms, c, user), [c]) == Untouched(w, [c])
            && IdsName(u) && IdsName(Ensured(ms, c, user))
  {
    hide Untouched, Kept, Existing, WithMount, IdsName, WithUser, WithReadonly;
    var w := WithMount(Kept(ms, c), c);
    ExistingIsNamed(w, c);
    UserIsLocal(w, c, id, user);
    ReadonlyIsLocal(WithUser(w, id, user), c, id, !c.readWrite);
    DressedPlaces(w, id, c, user);
  }

  /** When the contract has no mount, the one created under its name is the one resolved. */
  lemma FirstNameResolves(ms: seq<Mount>, c: Contract)
    requires Existing(ms, c).None?
    ensures var w := ms + [NewMount(ms, c.name, c.path)];
            FindId(w, c.name, c.path).Some? && Existing(w, c) == Some((FindId(w, c.name, c.path).value, c.name))
    ensures IdsName(ms) ==> IdsName(ms + [NewMount(ms, c.name, c.path)])
  {
    hide FindId, LegacyNames, IdsName, Existing;
    CreatedIsFound(ms, c);
    var w := ms + [NewMount(ms, c.name, c.path)];
    assert Names(c) != [] && Names(c)[0] == c.name;
    ExistingStarts(w, c);
    if IdsName(ms) { WithMountKeepsIds(ms, c); }
  }

  lemma CreatedIsFound(ms: seq<Mount>, c: Contract)
    ensures FindId(ms + [NewMount(ms, c.name, c.path)], c.name, c.path).Some?
  {
    hide FindId;
    var made := NewMount(ms, c.name, c.path);
    assert made in ms + [made] && At(made, c.name, c.path);
  }

  lemma ExistingStarts(w: seq<Mount>, c: Contract)
    requires FindId(w, c.name, c.path).Some?
    ensures Existing(w, c) == Some((FindId(w, c.name, c.path).value, c.name))
  {
    hide FindId;
    assert Names(c)[0] == c.name;
  }

  lemma SettledFacts(ms: seq<Mount>, c: Contract, user: string)
    requires Settled(ms, c, user)
    ensures (forall m <- ms :: !Stale(c, m)) && Existing(ms, c).Some? && Kept(ms, c) == ms
    ensures var id := Existing(ms, c).value.0;
            WithUser(ms, id, user) == ms && WithReadonly(ms, id, !c.readWrite) == ms
  {
    KeptAll(ms, c);
    var id := Existing(ms, c).value.0;
    hide Existing, Kept, Stale, Named;
    forall i | 0 <= i < |ms|
      ensures WithUser(ms, id, user)[i] == ms[i] && WithReadonly(ms, id, !c.readWrite)[i] == ms[i]
    {
      assert ms[i] in ms;
      if ms[i].id == Some(id) { assert ms[i].users + {user} == ms[i].users; }
    }
  }

  method RefreshAll(storage: Storage, cs: seq<Contract>, user: string) returns (res: Result<(), Failure>)
    requires IdsName(storage.mounts)
    modifies storage
    ensures storage.failed == old(storage.failed) + (if res.Err? then 1 else 0)
    ensures IdsName(storage.mounts)
    ensures Untouched(storage.mounts, cs) == Untouched(old(storage.mounts), cs)
    ensures res.Ok? ==> storage.mounts == Pass(old(storage.mounts), cs, user)
    ensures res.Err? ==> res.error == CommandFailed
    ensures AllSettled(old(storage.mounts), cs, user) ==>
              storage.mounts == old(storage.mounts) && storage.commands == old(storage.commands)
  {
    hide Untouched, Ensured, Settled, Existing;
    for i := 0 to |cs|
      invariant IdsName(storage.mounts)
      invariant Pass(old(storage.mounts), cs, user) == Pass(storage.mounts, cs[i..], user)
      invariant storage.failed == old(storage.failed)
      invariant Untouched(storage.mounts, cs) == Untouched(old(storage.mounts), cs)
      invariant AllSettled(old(storage.mounts), cs, user) ==>
                  storage.mounts == old(storage.mounts) && storage.commands == old(storage.commands)
    {
      var c := cs[i];
      assert c in cs && cs[i..][0] == c && cs[i..][1..] == cs[i + 1..];
      ghost var before := storage.mounts;
      var ensured := EnsureAdvisorStorage(storage, c, user);
      UntouchedIn(before, [c], cs);
      UntouchedIn(storage.mounts, [c], cs);
      if ensured.Err? { return Err(ensured.error); }
    }
    return Ok(());
  }
}
