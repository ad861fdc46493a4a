/** Validation of a rendered compose text against its env specs, and the payload built from them
    (`DokployEnvReconciler` in `dokploy/env_spec.py`). */
module ComposeValidation {
  import opened Text
  import opened EnvFormat
  import opened EnvMerge
  import opened EnvReader

  datatype Rendered = Rendered(file: string, specs: seq<EnvSpec>)

  datatype ServiceRange = ServiceRange(name: string, start: nat, end: nat)

  datatype Occurrence = Occurrence(name: string, service: Option<string>)

  datatype Error =
    | RawSensitiveValue(name: string, service: Option<string>)
    | SpecCount(name: string, service: Option<string>, count: nat)
    | Exposure(name: string, service: Option<string>)
    | Unreferenced(name: string)

  // ---- Service headers ----

  predicate IsServiceChar(c: char) { IsLetter(c) || IsDigit(c) || c == '.' || c == '-' }

  function ServiceRun(s: string): (n: nat)
    ensures n <= |s|
  {
    if s == "" || !IsServiceChar(s[0]) then 0 else 1 + ServiceRun(s[1..])
  }

  /** The name in `  name:  # comment`, the whole line being of that form. */
  function ServiceLine(line: string): Option<string> {
    var t := LStrip(line);
    var n := ServiceRun(t);
    if 0 < n < |t| && t[n] == ':' then
      var rest := LStrip(t[n + 1..]);
      if rest == "" || rest[0] == '#' then Some(t[..n]) else None
    else None
  }

  function Indent(line: string): int { |line| - |LStrip(line)| }

  /** The indent of the open `services:` section after a line, given the one before it. */
  function SectionAfter(open: Option<int>, line: string): Option<int> {
    var stripped := Strip(line);
    if stripped == "services:" then Some(Indent(line))
    else if open.None? || stripped == "" || "#" <= stripped then open
    else if Indent(line) <= open.value then None
    else open
  }

  /** The section open above line `i`. */
  function SectionAt(ls: seq<string>, i: nat): Option<int>
    requires i <= |ls|
  {
    if i == 0 then None else SectionAfter(SectionAt(ls, i - 1), ls[i - 1])
  }

  /** The service that line `i` starts: a header two columns into the open section. */
  function HeaderAt(ls: seq<string>, i: nat): Option<string>
    requires i < |ls|
  {
    var open, stripped := SectionAt(ls, i), Strip(ls[i]);
    if stripped == "services:" || open.None? || stripped == "" || "#" <= stripped then None
    else if Indent(ls[i]) == open.value + 2 then ServiceLine(ls[i])
    else None
  }

  /** Per line, the service it starts. */
  function HeaderMarks(ls: seq<string>): seq<Option<string>> {
    seq(|ls|, i requires 0 <= i < |ls| => HeaderAt(ls, i))
  }

  /** The last service header at or above line `i`. */
  function ServiceOf(hs: seq<Option<string>>, i: nat): Option<string>
    requires i < |hs|
  {
    if hs[i].Some? then hs[i] else if i == 0 then None else ServiceOf(hs, i - 1)
  }

  /** The lines strictly between two positions start no service. */
  predicate Quiet(hs: seq<Option<string>>, from: int, to: int) {
    forall i :: from < i < to && 0 <= i < |hs| ==> hs[i] == None
  }

  /** Ordered, adjacent, each opened by a header and holding no other, the last one running to the
      end of the file, and nothing but non-headers above the first. */
  predicate Tiles(hs: seq<Option<string>>, rs: seq<ServiceRange>) {
    && (forall k :: 0 <= k < |rs| ==>
         && rs[k].start < rs[k].end <= |hs|
         && hs[rs[k].start] == Some(rs[k].name)
         && Quiet(hs, rs[k].start, rs[k].end))
    && (forall k :: 0 < k < |rs| ==> rs[k - 1].end == rs[k].start)
    && (rs != [] ==> rs[|rs| - 1].end == |hs|)
    && Quiet(hs, -1, if rs == [] then |hs| else rs[0].start)
  }

  /** The headers among the first `n` lines, in order. */
  predicate Headers(hs: seq<Option<string>>, entries: seq<(string, nat)>, n: nat)
    requires n <= |hs|
  {
    && (forall k :: 0 <= k < |entries| ==> entries[k].1 < n && hs[entries[k].1] == Some(entries[k].0))
    && (forall k :: 0 < k < |entries| ==>
         entries[k - 1].1 < entries[k].1 && Quiet(hs, entries[k - 1].1, entries[k].1))
    && (entries != [] ==> Quiet(hs, entries[|entries| - 1].1, n))
    && Quiet(hs, -1, if entries == [] then n else entries[0].1)
  }

  lemma QuietStep(hs: seq<Option<string>>, from: int, n: nat)
    requires n < |hs| && Quiet(hs, from, n) && hs[n] == None
    ensures Quiet(hs, from, n + 1)
  {}

  lemma NoHeaderStep(hs: seq<Option<string>>, entries: seq<(string, nat)>, n: nat)
    requires n < |hs| && Headers(hs, entries, n) && hs[n] == None
    ensures Headers(hs, entries, n + 1)
  {
    QuietStep(hs, if entries == [] then -1 else entries[|entries| - 1].1, n);
    hide Quiet;
  }

  lemma HeaderStep(hs: seq<Option<string>>, entries: seq<(string, nat)>, n: nat)
    requires n < |hs| && Headers(hs, entries, n) && hs[n].Some?
    ensures Headers(hs, entries + [(hs[n].value, n)], n + 1)
  {
    assert Quiet(hs, n, n + 1);
    hide Quiet;
  }

  lemma NoHeadersYet(hs: seq<Option<string>>)
    ensures Headers(hs, [], 0)
  {}

  method ServiceEntries(lines: seq<string>) returns (entries: seq<(string, nat)>)
    ensures Headers(HeaderMarks(lines), entries, |lines|)
  {
    hide Strip, ServiceLine, Indent, Headers;
    assert Headers(HeaderMarks(lines), [], 0) by { NoHeadersYet(HeaderMarks(lines)); }
    ghost var marks := HeaderMarks(lines);
    var servicesIndent: Option<int> := None;
    entries := [];
    for i := 0 to |lines|
      invariant servicesIndent == SectionAt(lines, i)
      invariant Headers(marks, entries, i)
    {
      if marks[i].Some? { HeaderStep(marks, entries, i); } else { NoHeaderStep(marks, entries, i); }
      var line := lines[i];
      var stripped := Strip(line);
      if stripped == "services:" {
        servicesIndent := Some(Indent(line));
        continue;
      }
      if servicesIndent.None? || stripped == "" || "#" <= stripped {
        continue;
      }
      var indent := Indent(line);
      if indent <= servicesIndent.value {
        servicesIndent := None;
        continue;
      }
      if indent == servicesIndent.value + 2 {
        var name := ServiceLine(line);
        if name.Some? {
          entries := entries + [(name.value, i)];
        }
      }
    }
  }

  /** Every header's range runs to the next header, the last one's to the end of the file. */
  predicate Closed(entries: seq<(string, nat)>, ranges: seq<ServiceRange>, count: nat, total: nat)
    requires count <= |entries|
  {
    && |ranges| == count
    && forall k :: 0 <= k < count ==> ranges[k] == RangeOf(entries, k, total)
  }

  function RangeOf(entries: seq<(string, nat)>, k: nat, total: nat): ServiceRange
    requires k < |entries|
  {
    ServiceRange(entries[k].0, entries[k].1, if k + 1 < |entries| then entries[k + 1].1 else total)
  }

  lemma ClosedHeadersTile(hs: seq<Option<string>>, entries: seq<(string, nat)>, ranges: seq<ServiceRange>)
    requires Headers(hs, entries, |hs|) && Closed(entries, ranges, |entries|, |hs|)
    ensures Tiles(hs, ranges)
  {
    var n := |entries|;
    forall k | 0 <= k < n
      ensures ranges[k].start < ranges[k].end <= |hs| && hs[ranges[k].start] == Some(ranges[k].name)
      ensures Quiet(hs, ranges[k].start, ranges[k].end)
    {
      assert entries[k].1 < |hs| && hs[entries[k].1] == Some(entries[k].0);
      if k + 1 < n { assert entries[k + 1 - 1].1 < entries[k + 1].1; }
    }
    forall k | 0 < k < n ensures ranges[k - 1].end == ranges[k].start {
      assert ranges[k - 1] == RangeOf(entries, k - 1, |hs|) && ranges[k] == RangeOf(entries, k, |hs|);
    }
  }

  method ServiceRanges(file: string) returns (ranges: seq<ServiceRange>)
    ensures Tiles(HeaderMarks(Lines(file)), ranges)
  {
    hide Lines, HeaderAt, Headers, Tiles;
    var lines := Lines(file);
    var entries := ServiceEntries(lines);
    ranges := [];
    for k := 0 to |entries|
      invariant Closed(entries, ranges, k, |lines|)
    {
      var end := if k + 1 < |entries| then entries[k + 1].1 else |lines|;
      ranges := ranges + [ServiceRange(entries[k].0, entries[k].1, end)];
    }
    ClosedHeadersTile(HeaderMarks(lines), entries, ranges);
  }

  /** Between two headers the last header stays the same. */
  lemma {:induction false} ServiceOfInside(hs: seq<Option<string>>, from: nat, i: nat)
    requires from <= i < |hs| && Quiet(hs, from, i + 1)
    ensures hs[from].Some? || from == 0 ==> ServiceOf(hs, i) == hs[from]
  {
    if from < i { ServiceOfInside(hs, from, i - 1); }
  }

  /** The first range around a line names the last service header at or above it. */
  method ServiceForLine(line: nat, ranges: seq<ServiceRange>, ghost hs: seq<Option<string>>)
    returns (service: Option<string>)
    requires Tiles(hs, ranges)
    ensures service == if line < |hs| then ServiceOf(hs, line) else None
  {
    for k := 0 to |ranges|
      invariant forall j :: 0 <= j < k ==> !(ranges[j].start <= line < ranges[j].end)
    {
      if ranges[k].start <= line < ranges[k].end {
        ServiceOfInside(hs, ranges[k].start, line);
        return Some(ranges[k].name);
      }
    }
    if line < |hs| {
      OutsideTiles(hs, ranges, line, |ranges|);
      ServiceOfInside(hs, 0, line);
    }
    return None;
  }

  lemma {:induction false} OutsideTiles(hs: seq<Option<string>>, rs: seq<ServiceRange>, line: nat, k: nat)
    requires Tiles(hs, rs) && line < |hs| && k <= |rs|
    requires forall j :: 0 <= j < |rs| ==> !(rs[j].start <= line < rs[j].end)
    requires k < |rs| ==> line < rs[k].start
    ensures Quiet(hs, -1, line + 1)
  {
    if k > 0 { OutsideTiles(hs, rs, line, k - 1); }
  }

  // ---- Required placeholders ----

  function IdentifierRun(s: string): (n: nat)
    ensures n <= |s|
  {
    if s == "" || !(IsLetter(s[0]) || IsDigit(s[0])) then 0 else 1 + IdentifierRun(s[1..])
  }

  /** `${NAME:?...}` or `${NAME?...}` at the start of `s`: the name and the length matched. */
  function PlaceholderPrefix(s: string): (r: Option<(string, nat)>)
    ensures r.Some? ==> 0 < r.value.1 <= |s|
  {
    if !("${" <= s) then None
    else
      var t := s[2..];
      var n := IdentifierRun(t);
      if n == 0 || IsDigit(t[0]) then None
      else
        var u := if n < |t| && t[n] == ':' then t[n + 1..] else t[n..];
        if u == "" || u[0] != '?' then None
        else
          var close := IndexOf(u, '}');
          if close == |u| then None else Some((t[..n], |s| - |u| + close + 1))
  }

  /** Leftmost, non-overlapping matches in one line. */
  function PlaceholdersIn(s: string): seq<string>
    decreases |s|
  {
    if s == "" then []
    else
      match PlaceholderPrefix(s)
      case Some((name, len)) => [name] + PlaceholdersIn(s[len..])
      case None => PlaceholdersIn(s[1..])
  }

  function InService(names: seq<string>, service: Option<string>): seq<Occurrence> {
    seq(|names|, i requires 0 <= i < |names| => Occurrence(names[i], service))
  }

  function OccurrencesUpTo(ls: seq<string>, hs: seq<Option<string>>, n: nat): seq<Occurrence>
    requires n <= |ls| == |hs|
  {
    if n == 0 then []
    else OccurrencesUpTo(ls, hs, n - 1) + InService(PlaceholdersIn(ls[n - 1]), ServiceOf(hs, n - 1))
  }

  function Occurrences(file: string): seq<Occurrence> {
    var ls := Lines(file);
    OccurrencesUpTo(ls, HeaderMarks(ls), |ls|)
  }

  method OccurrencesInLines(lines: seq<string>, ranges: seq<ServiceRange>, ghost hs: seq<Option<string>>)
    returns (found: seq<Occurrence>)
    requires |hs| == |lines| && Tiles(hs, ranges)
    ensures found == OccurrencesUpTo(lines, hs, |lines|)
  {
    hide PlaceholdersIn, ServiceOf, Tiles;
    found := [];
    for i := 0 to |lines|
      invariant found == OccurrencesUpTo(lines, hs, i)
    {
      var names := PlaceholdersIn(lines[i]);
      var service := ServiceForLine(i, ranges, hs);
      ghost var before := found;
      for j := 0 to |names|
        invariant found == before + InService(names, service)[..j]
      {
        found := found + [Occurrence(names[j], service)];
      }
      assert InService(names, service)[..|names|] == InService(names, service);
    }
  }

  method RequiredPlaceholderOccurrences(file: string, ranges: seq<ServiceRange>)
    returns (found: seq<Occurrence>)
    requires Tiles(HeaderMarks(Lines(file)), ranges)
    ensures found == Occurrences(file)
  {
    found := OccurrencesInLines(Lines(file), ranges, HeaderMarks(Lines(file)));
  }

  // ---- Validation ----

  function Matching(specs: seq<EnvSpec>, name: string): seq<EnvSpec> {
    if specs == [] then []
    else
      var n := |specs| - 1;
      Matching(specs[..n], name) + if specs[n].name == name then [specs[n]] else []
  }

  method IndexSpecsByName(specs: seq<EnvSpec>) returns (grouped: map<string, seq<EnvSpec>>)
    ensures forall name :: Get(grouped, name) == Matching(specs, name)
  {
    grouped := map[];
    for i := 0 to |specs|
      invariant forall name :: Get(grouped, name) == Matching(specs[..i], name)
    {
      assert specs[..i + 1][..i] == specs[..i];
      var s := specs[i];
      grouped := grouped[s.name := Get(grouped, s.name) + [s]];
    }
    assert specs[..|specs|] == specs;
  }

  function Get(grouped: map<string, seq<EnvSpec>>, name: string): seq<EnvSpec> {
    if name in grouped then grouped[name] else []
  }

  /** No sensitive value stands raw in the file. */
  predicate NoRawSecret(file: string, specs: seq<EnvSpec>) {
    forall s <- specs :: !Leaks(file, s)
  }

  predicate Leaks(file: string, s: EnvSpec) {
    s.sensitive && s.value != "" && Find(file, s.value, 0).Some?
  }

  /** The service of the line reached by counting newlines up to an offset. */
  function ServiceAt(file: string, offset: nat): Option<string>
    requires offset <= |file|
  {
    var line, hs := CountNewlines(file[..offset]), HeaderMarks(Lines(file));
    if line < |hs| then ServiceOf(hs, line) else None
  }

  predicate Allowed(o: Occurrence, s: EnvSpec) {
    s.targets == [] || (o.service.Some? && o.service.value in s.targets)
  }

  predicate Resolved(o: Occurrence, specs: seq<EnvSpec>) {
    |Matching(specs, o.name)| == 1 && Allowed(o, Matching(specs, o.name)[0])
  }

  predicate ResolvedIn(found: seq<Occurrence>, specs: seq<EnvSpec>) {
    forall o <- found :: Resolved(o, specs)
  }

  /** Every placeholder has exactly one spec, and that spec admits the service it stands in. */
  predicate AllResolved(file: string, specs: seq<EnvSpec>) {
    ResolvedIn(Occurrences(file), specs)
  }

  predicate Referenced(file: string, name: string) { exists o <- Occurrences(file) :: o.name == name }

  predicate AllReferenced(file: string, specs: seq<EnvSpec>) {
    forall s <- specs :: s.required ==> Referenced(file, s.name)
  }

  predicate Accepted(r: Rendered) {
    NoRawSecret(r.file, r.specs) && AllResolved(r.file, r.specs) && AllReferenced(r.file, r.specs)
  }

  predicate PlaceholderError(found: seq<Occurrence>, specs: seq<EnvSpec>, e: Error) {
    match e
    case SpecCount(name, service, count) =>
      Occurrence(name, service) in found && count == |Matching(specs, name)| != 1
    case Exposure(name, service) =>
      && Occurrence(name, service) in found
      && |Matching(specs, name)| == 1 && !Allowed(Occurrence(name, service), Matching(specs, name)[0])
    case _ => false
  }

  /** The error found: the three checks run in this order, and each names a real offender. */
  predicate Explains(r: Rendered, e: Error) {
    match e
    case RawSensitiveValue(name, service) =>
      exists s <- r.specs ::
        s.name == name && Leaks(r.file, s) && service == ServiceAt(r.file, Find(r.file, s.value, 0).value)
    case SpecCount(_, _, _) =>
      NoRawSecret(r.file, r.specs) && PlaceholderError(Occurrences(r.file), r.specs, e)
    case Exposure(_, _) =>
      NoRawSecret(r.file, r.specs) && PlaceholderError(Occurrences(r.file), r.specs, e)
    case Unreferenced(name) =>
      && NoRawSecret(r.file, r.specs) && AllResolved(r.file, r.specs) && !Referenced(r.file, name)
      && exists s <- r.specs :: s.name == name && s.required
  }

  method RejectRawSensitiveValues(r: Rendered, ranges: seq<ServiceRange>) returns (result: Result<(), Error>)
    requires Tiles(HeaderMarks(Lines(r.file)), ranges)
    ensures result.Ok? <==> NoRawSecret(r.file, r.specs)
    ensures result.Err? ==> Explains(r, result.error)
  {
    hide Lines, HeaderAt, ServiceOf, Tiles;
    for i := 0 to |r.specs|
      invariant NoRawSecret(r.file, r.specs[..i])
    {
      var s := r.specs[i];
      var at := Find(r.file, s.value, 0);
      if s.sensitive && s.value != "" && at.Some? {
        var service := ServiceForLine(CountNewlines(r.file[..at.value]), ranges, HeaderMarks(Lines(r.file)));
        assert s in r.specs && Leaks(r.file, s);
        return Err(RawSensitiveValue(s.name, service));
      }
      assert r.specs[..i + 1] == r.specs[..i] + [s];
    }
    assert r.specs[..|r.specs|] == r.specs;
    return Ok(());
  }

  method CheckPlaceholders(specs: seq<EnvSpec>, found: seq<Occurrence>, specsByName: map<string, seq<EnvSpec>>)
    returns (result: Result<set<string>, Error>)
    requires forall name :: Get(specsByName, name) == Matching(specs, name)
    ensures result.Ok? <==> ResolvedIn(found, specs)
    ensures result.Ok? ==> result.value == set o <- found :: o.name
    ensures result.Err? ==> PlaceholderError(found, specs, result.error)
  {
    hide Matching;
    var placeholderNames: set<string> := {};
    for i := 0 to |found|
      invariant placeholderNames == set o <- found[..i] :: o.name
      invariant ResolvedIn(found[..i], specs)
    {
      var o := found[i];
      placeholderNames := placeholderNames + {o.name};
      var matching := Get(specsByName, o.name);
      if |matching| != 1 {
        assert !Resolved(o, specs);
        return Err(SpecCount(o.name, o.service, |matching|));
      }
      if matching[0].targets != [] && !(o.service.Some? && o.service.value in matching[0].targets) {
        assert !Resolved(o, specs);
        return Err(Exposure(o.name, o.service));
      }
      assert found[..i + 1] == found[..i] + [o];
    }
    assert found[..|found|] == found;
    return Ok(placeholderNames);
  }

  method CheckReferences(r: Rendered, placeholderNames: set<string>) returns (result: Result<(), Error>)
    requires NoRawSecret(r.file, r.specs) && AllResolved(r.file, r.specs)
    requires placeholderNames == set o <- Occurrences(r.file) :: o.name
    ensures result.Ok? <==> AllReferenced(r.file, r.specs)
    ensures result.Err? ==> Explains(r, result.error)
  {
    for i := 0 to |r.specs|
      invariant AllReferenced(r.file, r.specs[..i])
    {
      var s := r.specs[i];
      assert Referenced(r.file, s.name) <==> s.name in placeholderNames;
      if s.required && s.name !in placeholderNames {
        assert s in r.specs;
        return Err(Unreferenced(s.name));
      }
      assert r.specs[..i + 1] == r.specs[..i] + [s];
    }
    assert r.specs[..|r.specs|] == r.specs;
    return Ok(());
  }

  /** Validation succeeds exactly when the three conditions hold. */
  method ValidateRenderedCompose(r: Rendered) returns (result: Result<(), Error>)
    ensures result.Ok? <==> Accepted(r)
    ensures result.Err? ==> Explains(r, result.error)
  {
    var specsByName := IndexSpecsByName(r.specs);
    var ranges := ServiceRanges(r.file);
    result := RejectRawSensitiveValues(r, ranges);
    if result.Err? { return; }
    var found := RequiredPlaceholderOccurrences(r.file, ranges);
    var names := CheckPlaceholders(r.specs, found, specsByName);
    if names.Err? { return Err(names.error); }
    result := CheckReferences(r, names.value);
  }

  method BuildEnvPayload(r: Rendered, existing: Option<string>) returns (payload: Result<string, Error>)
    ensures payload.Ok? <==> Accepted(r)
    ensures payload.Ok? ==> payload.value == Merge(if existing.Some? then existing.value else "", r.specs)
    ensures payload.Err? ==> Explains(r, payload.error)
  {
    var valid := ValidateRenderedCompose(r);
    if valid.Err? {
      return Err(valid.error);
    }
    var text := MergeEnvText(if existing.Some? then existing.value else "", r.specs);
    return Ok(text);
  }

  // ---- What an accepted compose resolves to ----

  lemma {:induction false} OnlyMatchIsLast(specs: seq<EnvSpec>, name: string)
    ensures Matching(specs, name) == [] ==> LastSpec(specs, name) == None
    ensures var m := Matching(specs, name); m != [] ==> LastSpec(specs, name) == Some(m[|m| - 1])
    ensures forall s :: s in Matching(specs, name) <==> s in specs && s.name == name
  {
    if specs != [] {
      OnlyMatchIsLast(specs[..|specs| - 1], name);
      assert specs == specs[..|specs| - 1] + [specs[|specs| - 1]];
    }
  }

  lemma AcceptedOccurrence(r: Rendered, o: Occurrence)
    requires Accepted(r) && o in Occurrences(r.file)
    ensures Resolved(o, r.specs)
  {
    hide Resolved, Occurrences, NoRawSecret, AllReferenced;
  }

  /** The placeholder, read from the payload built over existing text, yields the value of its one spec, in
      a service that spec allows. */
  predicate Resolves(r: Rendered, existing: string, o: Occurrence) {
    exists s <- r.specs ::
      && s.name == o.name && Allowed(o, s)
      && (forall t <- r.specs :: t.name == o.name ==> t == s)
      && LastAssignment(Lines(Merge(existing, r.specs)), o.name) == Some(s.value)
  }

  lemma PlaceholdersResolve(r: Rendered, existing: string, o: Occurrence)
    requires Accepted(r) && AllWellFormed(r.specs) && AllAdmissible(r.specs)
    requires o in Occurrences(r.file)
    ensures Resolves(r, existing, o)
  {
    AcceptedOccurrence(r, o);
    OnlyMatchIsLast(r.specs, o.name);
    MergedValue(existing, r.specs, o.name);
    hide Accepted, Lines, Merge, Occurrences, LastAssignment, WellFormed, Admissible, Allowed, Matching, Resolved;
    var s := OnlyMatch(r.specs, o);
    assert s in r.specs && s.name == o.name && Allowed(o, s);
  }

  ghost predicate AlwaysResolve(r: Rendered) {
    forall existing: string, o: Occurrence :: o in Occurrences(r.file) ==> Resolves(r, existing, o)
  }

  /** When every spec of an accepted compose is referenced, as all required ones are, its placeholders
      resolve over every existing text exactly when every value encodes to one line. */
  lemma PlaceholdersResolveExactly(r: Rendered)
    requires Accepted(r) && AllWellFormed(r.specs) && forall s <- r.specs :: Referenced(r.file, s.name)
    ensures AlwaysResolve(r) <==> AllAdmissible(r.specs)
  {
    hide Accepted, Occurrences, Resolves, WellFormed, Admissible;
    if AllAdmissible(r.specs) {
      forall existing: string, o: Occurrence | o in Occurrences(r.file) ensures Resolves(r, existing, o) {
        PlaceholdersResolve(r, existing, o);
      }
    } else {
      var o := Unresolved(r);
      assert !Resolves(r, "", o);
    }
  }

  /** A placeholder that does not resolve over the empty text. */
  lemma Unresolved(r: Rendered) returns (o: Occurrence)
    requires Accepted(r) && AllWellFormed(r.specs) && forall s <- r.specs :: Referenced(r.file, s.name)
    requires !AllAdmissible(r.specs)
    ensures o in Occurrences(r.file) && !Resolves(r, "", o)
  {
    hide Accepted, Lines, Merge, Occurrences, LastAssignment, WellFormed, Allowed, Matching, Resolved, Admissible;
    var s := Offender(r.specs);
    o :| o in Occurrences(r.file) && o.name == s.name;
    AcceptedOccurrence(r, o);
    var t := OnlyMatch(r.specs, o);
    assert t == s;
    MergedValue("", r.specs, o.name);
    if forall u <- r.specs :: OnlyNewlineBreaks(u.value) {
      LastSpecReadsBack(r.specs, o.name);
      ClosedReadsOtherwise(s.value);
    }
  }

  lemma ClosedReadsOtherwise(v: string)
    requires OnlyNewlineBreaks(v) && !Admissible(v)
    ensures ReadAs(v) != v
  {}

  /** A value with another raw break if there is one, else one that loses its newline. */
  lemma Offender(specs: seq<EnvSpec>) returns (s: EnvSpec)
    requires !AllAdmissible(specs)
    ensures s in specs && !Admissible(s.value)
    ensures OnlyNewlineBreaks(s.value) ==> forall t <- specs :: OnlyNewlineBreaks(t.value)
  {
    hide OnlyNewlineBreaks, SafeThenNewline;
    if t :| t in specs && !OnlyNewlineBreaks(t.value) { return t; }
    s :| s in specs && !Admissible(s.value);
  }

  lemma OnlyMatch(specs: seq<EnvSpec>, o: Occurrence) returns (s: EnvSpec)
    requires Resolved(o, specs)
    ensures s in specs && s.name == o.name && Allowed(o, s) && LastSpec(specs, o.name) == Some(s)
    ensures forall t <- specs :: t.name == o.name ==> t == s
  {
    OnlyMatchIsLast(specs, o.name);
    s := Matching(specs, o.name)[0];
    hide Matching, Allowed;
    assert s in Matching(specs, o.name);
    forall t | t in specs && t.name == o.name ensures t == s {
      assert t in Matching(specs, o.name);
    }
  }

  lemma {:induction false} TwoMatches(specs: seq<EnvSpec>, i: nat, j: nat)
    requires i < j < |specs| && specs[i].name == specs[j].name
    ensures |Matching(specs, specs[i].name)| >= 2
  {
    var n := |specs| - 1;
    if j < n {
      TwoMatches(specs[..n], i, j);
    } else {
      OnlyMatchIsLast(specs[..n], specs[i].name);
      assert specs[..n][i] in specs[..n];
      assert specs[i] in Matching(specs[..n], specs[i].name);
    }
  }

  /** The names of an accepted compose's required specs occur once among all its specs. */
  lemma RequiredNamesAreDistinct(r: Rendered, i: nat, j: nat)
    requires Accepted(r) && i < |r.specs| && j < |r.specs| && i != j && r.specs[i].required
    ensures r.specs[i].name != r.specs[j].name
  {
    hide Occurrences, NoRawSecret, Allowed;
    assert r.specs[i] in r.specs;
    var o :| o in Occurrences(r.file) && o.name == r.specs[i].name;
    assert Resolved(o, r.specs);
    if r.specs[i].name == r.specs[j].name {
      TwoMatches(r.specs, if i < j then i else j, if i < j then j else i);
    }
  }
}
