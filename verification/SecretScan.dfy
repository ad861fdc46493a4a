/** The artifact leak scan (`artifact_secret_scan.py`): greedy occurrence search, candidate
    deduplication and the pass/fail verdict. */
module SecretScan {
  import opened Text

  datatype Candidate = Candidate(name: string, value: string)

  /** The fingerprint stands for the hash of the value, an arbitrary function of it. */
  datatype Finding = Finding(path: string, name: string, fingerprint: string, line: nat)

  // ---- One value in one text ----

  /** Positions, left to right, of occurrences no two of which overlap. */
  ghost predicate DisjointOccurrences(text: string, v: string, at: seq<nat>) {
    && (forall k :: 0 <= k < |at| ==> OccursAt(text, v, at[k]))
    && (forall j, k :: 0 <= j < k < |at| ==> at[j] + |v| <= at[k])
  }

  /** Each position is the first occurrence from the end of the one before. */
  ghost predicate Greedy(text: string, v: string, at: seq<nat>) {
    && DisjointOccurrences(text, v, at)
    && forall k, i :: 0 <= k < |at| && EndBefore(v, at, k) <= i < at[k] ==> !OccursAt(text, v, i)
  }

  /** Where the search for position `k` starts. */
  function EndBefore(v: string, at: seq<nat>, k: nat): nat
    requires k <= |at|
  {
    if k == 0 then 0 else at[k - 1] + |v|
  }

  ghost predicate Exhausted(text: string, v: string, at: seq<nat>) {
    forall i :: EndBefore(v, at, |at|) <= i ==> !OccursAt(text, v, i)
  }

  lemma GreedyStep(text: string, v: string, at: seq<nat>, i: nat)
    requires Greedy(text, v, at) && OccursAt(text, v, i) && EndBefore(v, at, |at|) <= i
    requires forall j :: EndBefore(v, at, |at|) <= j < i ==> !OccursAt(text, v, j)
    ensures Greedy(text, v, at + [i]) && EndBefore(v, at + [i], |at| + 1) == i + |v|
  {
    hide OccursAt;
    var next := at + [i];
    EndsAreOrdered(text, v, at);
    assert forall k :: 0 <= k <= |at| ==> EndBefore(v, next, k) == EndBefore(v, at, k);
  }

  lemma EndsAreOrdered(text: string, v: string, at: seq<nat>)
    requires DisjointOccurrences(text, v, at)
    ensures forall k :: 0 <= k < |at| ==> at[k] + |v| <= EndBefore(v, at, |at|)
  {}

  /** The greedy scan stays ahead of every other choice of disjoint occurrences. */
  lemma {:induction false} GreedyStaysAhead(text: string, v: string, at: seq<nat>, other: seq<nat>, k: nat)
    requires Greedy(text, v, at) && DisjointOccurrences(text, v, other)
    requires k < |at| && k < |other|
    ensures at[k] <= other[k]
  {
    if k > 0 {
      GreedyStaysAhead(text, v, at, other, k - 1);
      assert other[k - 1] + |v| <= other[k];
      assert EndBefore(v, at, k) <= other[k];
    }
    assert EndBefore(v, at, k) <= other[k];
    assert OccursAt(text, v, other[k]);
  }

  /** No choice of pairwise disjoint occurrences is larger than the greedy one. */
  lemma GreedyIsMaximum(text: string, v: string, at: seq<nat>, other: seq<nat>)
    requires v != "" && Greedy(text, v, at) && Exhausted(text, v, at)
    requires DisjointOccurrences(text, v, other)
    ensures |other| <= |at|
  {
    if |other| > |at| { OtherStartsLater(text, v, at, other, |at|); }
  }

  lemma OtherStartsLater(text: string, v: string, at: seq<nat>, other: seq<nat>, k: nat)
    requires Greedy(text, v, at) && DisjointOccurrences(text, v, other) && k <= |at| && k < |other|
    ensures EndBefore(v, at, k) <= other[k] && OccursAt(text, v, other[k])
  {
    if k > 0 {
      var j := k - 1;
      GreedyStaysAhead(text, v, at, other, j);
      assert other[j] + |v| <= other[k];
    }
  }

  /** The greedy positions are determined by the text and the value. */
  lemma {:induction false} GreedyIsUnique(text: string, v: string, a: seq<nat>, b: seq<nat>)
    requires v != "" && Greedy(text, v, a) && Exhausted(text, v, a) && Greedy(text, v, b) && Exhausted(text, v, b)
    ensures a == b
  {
    GreedyIsMaximum(text, v, a, b);
    GreedyIsMaximum(text, v, b, a);
    forall k | 0 <= k < |a| ensures a[k] == b[k] {
      GreedyStaysAhead(text, v, a, b, k);
      GreedyStaysAhead(text, v, b, a, k);
    }
  }

  ghost predicate Occurs(text: string, v: string) { exists i: nat :: OccursAt(text, v, i) }

  lemma NothingFoundExactly(text: string, v: string, at: seq<nat>)
    requires v != "" && Greedy(text, v, at) && Exhausted(text, v, at)
    ensures at == [] <==> !Occurs(text, v)
  {
    if at != [] { assert OccursAt(text, v, at[0]); }
    if i: nat :| OccursAt(text, v, i) {
      assert DisjointOccurrences(text, v, [i]);
      GreedyIsMaximum(text, v, at, [i]);
    }
  }

  // ---- Line numbers ----

  /** `s` as lines joined by newlines; there is exactly one way to read it so. */
  ghost predicate ReadsAs(s: string, ls: seq<string>) {
    ls != [] && JoinLines(ls) == s && forall l <- ls :: !Contains(l, '\n')
  }

  /** The offset falls in that line, counted from one, the newline that ends it included. */
  ghost predicate FallsIn(text: string, ls: seq<string>, i: nat, line: nat) {
    && 1 <= line <= |ls|
    && var start := |Terminated(ls[..line - 1])|;
       && start <= i <= start + |ls[line - 1]| <= |text|
       && text[start..start + |ls[line - 1]|] == ls[line - 1]
  }

  /** One more than the newlines before an offset is the number of the line the offset falls in. */
  lemma {:induction false} LineNumberIsRight(text: string, ls: seq<string>, i: nat)
    requires ReadsAs(text, ls) && i <= |text|
    ensures FallsIn(text, ls, i, CountNewlines(text[..i]) + 1)
    decreases |ls|
  {
    var first := ls[0];
    assert first in ls;
    if i <= |first| {
      FirstLineStarts(text, ls);
      assert text[..i] == first[..i];
      assert !Contains(first[..i], '\n') by {
        assert forall k :: 0 <= k < i ==> first[..i][k] == first[k];
      }
      NoNewlineCount(text[..i]);
      assert ls[..0] == [];
    } else {
      FirstLineStarts(text, ls);
      var rest, k := JoinLines(ls[1..]), i - |first| - 1;
      LineNumberIsRight(rest, ls[1..], k);
      assert text[..i] == first + "\n" + rest[..k];
      NoNewlineCount(first);
      CountAppend(first + "\n", rest[..k]);
      CountAppend(first, "\n");
      assert "\n"[1..] == "";
      ShiftedLine(text, ls, rest, k, CountNewlines(rest[..k]) + 1);
    }
  }

  lemma FirstLineStarts(text: string, ls: seq<string>)
    requires ReadsAs(text, ls)
    ensures |ls[0]| <= |text| && text[..|ls[0]|] == ls[0]
    ensures if |ls| == 1 then text == ls[0]
            else text == ls[0] + "\n" + JoinLines(ls[1..]) && ReadsAs(JoinLines(ls[1..]), ls[1..])
  {
    hide Contains;
  }

  lemma ShiftedLine(text: string, ls: seq<string>, rest: string, k: nat, line: nat)
    requires |ls| > 1 && text == ls[0] + "\n" + rest && FallsIn(rest, ls[1..], k, line)
    ensures FallsIn(text, ls, |ls[0]| + 1 + k, line + 1)
  {
    var tail := ls[1..];
    assert ls[..line] == [ls[0]] + tail[..line - 1];
    var start, n := |Terminated(tail[..line - 1])|, |tail[line - 1]|;
    assert Terminated(ls[..line]) == ls[0] + "\n" + Terminated(tail[..line - 1]) by {
      assert ls[..line][1..] == tail[..line - 1];
    }
    assert ls[line] == tail[line - 1];
    var m := |ls[0]| + 1;
    assert text[m + start..m + start + n] == rest[start..start + n];
  }

  lemma {:induction false} EveryTextReadsAsLines(s: string) returns (ls: seq<string>)
    ensures ReadsAs(s, ls)
    decreases |s|
  {
    var i := IndexOf(s, '\n');
    if i == |s| {
      ls := [s];
    } else {
      var rest := EveryTextReadsAsLines(s[i + 1..]);
      ls := [s[..i]] + rest;
      assert ls[1..] == rest && s == s[..i] + "\n" + s[i + 1..];
    }
  }

  // ---- A scan over candidates and files ----

  predicate InText(text: string, at: seq<nat>) { forall k :: 0 <= k < |at| ==> at[k] <= |text| }

  lemma GreedyInText(text: string, v: string, at: seq<nat>)
    requires Greedy(text, v, at)
    ensures InText(text, at)
  {}

  function Report(path: string, text: string, c: Candidate, hash: string -> string, at: seq<nat>): seq<Finding>
    requires InText(text, at)
  {
    seq(|at|, k requires 0 <= k < |at| =>
      Finding(path, c.name, hash(c.value), CountNewlines(text[..at[k]]) + 1))
  }

  /** Read as lines, the text has every reported occurrence in the line reported for it. */
  lemma LeaksAreInTheirLines(path: string, text: string, c: Candidate, hash: string -> string, at: seq<nat>)
    returns (ls: seq<string>)
    requires Greedy(text, c.value, at)
    ensures InText(text, at) && ReadsAs(text, ls)
    ensures forall k :: 0 <= k < |at| ==> FallsIn(text, ls, at[k], Report(path, text, c, hash, at)[k].line)
  {
    GreedyInText(text, c.value, at);
    ls := EveryTextReadsAsLines(text);
    hide ReadsAs, Greedy, FallsIn, CountNewlines;
    forall k | 0 <= k < |at| ensures FallsIn(text, ls, at[k], Report(path, text, c, hash, at)[k].line) {
      LineNumberIsRight(text, ls, at[k]);
    }
  }

  ghost predicate Scanworthy(cs: seq<Candidate>) { forall c <- cs :: c.value != "" }

  lemma NothingFoundYet(text: string, v: string)
    ensures Greedy(text, v, [])
  {}

  lemma SearchIsOver(text: string, v: string, at: seq<nat>)
    requires forall i :: EndBefore(v, at, |at|) <= i ==> !OccursAt(text, v, i)
    ensures Exhausted(text, v, at)
  {}

  lemma OccurrenceFits(text: string, v: string, i: nat)
    requires OccursAt(text, v, i)
    ensures i + |v| <= |text|
  {}

  /** One candidate: its greedy occurrences, each reported with its line. */
  method LeaksOf(path: string, text: string, c: Candidate, hash: string -> string)
    returns (found: seq<Finding>, ghost at: seq<nat>)
    requires c.value != ""
    ensures Greedy(text, c.value, at) && Exhausted(text, c.value, at)
    ensures InText(text, at) && found == Report(path, text, c, hash, at)
    ensures found == [] <==> !Occurs(text, c.value)
  {
    hide Greedy, CountNewlines, OccursAt, Exhausted;
    found, at := [], [];
    var start := 0;
    NothingFoundYet(text, c.value);
    while true
      invariant Greedy(text, c.value, at) && start == EndBefore(c.value, at, |at|)
      invariant InText(text, at) && found == Report(path, text, c, hash, at)
      decreases |text| - start
    {
      var index := Find(text, c.value, start);
      if index.None? {
        SearchIsOver(text, c.value, at);
        NothingReportedExactly(path, text, c, hash, at);
        break;
      }
      GreedyStep(text, c.value, at, index.value);
      hide Report;
      OccurrenceFits(text, c.value, index.value);
      ReportSnoc(path, text, c, hash, at, index.value);
      var line := CountNewlines(text[..index.value]) + 1;
      found := found + [Finding(path, c.name, hash(c.value), line)];
      at := at + [index.value];
      start := index.value + |c.value|;
    }
  }

  lemma ReportSnoc(path: string, text: string, c: Candidate, hash: string -> string, at: seq<nat>, i: nat)
    requires i <= |text| && InText(text, at)
    ensures Report(path, text, c, hash, at + [i])
            == Report(path, text, c, hash, at) + [Finding(path, c.name, hash(c.value), CountNewlines(text[..i]) + 1)]
  {
    hide CountNewlines;
  }

  /** The findings of a text: those of each candidate, in turn. */
  ghost predicate FindingsOf(path: string, text: string, cs: seq<Candidate>,
                             hash: string -> string, found: seq<Finding>) {
    if cs == [] then found == []
    else
      var c := cs[|cs| - 1];
      exists m: nat, at ::
        && m <= |found| && FindingsOf(path, text, cs[..|cs| - 1], hash, found[..m])
        && Greedy(text, c.value, at) && Exhausted(text, c.value, at)
        && InText(text, at) && found[m..] == Report(path, text, c, hash, at)
  }

  method FindLeaks(path: string, text: string, cs: seq<Candidate>, hash: string -> string)
    returns (found: seq<Finding>)
    requires Scanworthy(cs)
    ensures FindingsOf(path, text, cs, hash, found)
    ensures found == [] <==> Clean(text, cs)
  {
    found := [];
    for i := 0 to |cs|
      invariant FindingsOf(path, text, cs[..i], hash, found)
      invariant found == [] <==> Clean(text, cs[..i])
    {
      hide Greedy, Exhausted, Report, Occurs;
      var c := cs[i];
      var more, at := LeaksOf(path, text, c, hash);
      AppendFindings(path, text, cs, i, hash, found, more, at);
      CleanSnoc(text, cs, i);
      found := found + more;
    }
    assert cs[..|cs|] == cs;
  }

  lemma NothingReportedExactly(path: string, text: string, c: Candidate, hash: string -> string, at: seq<nat>)
    requires c.value != "" && Greedy(text, c.value, at) && Exhausted(text, c.value, at)
    requires InText(text, at)
    ensures Report(path, text, c, hash, at) == [] <==> !Occurs(text, c.value)
  {
    NothingFoundExactly(text, c.value, at);
  }

  lemma AppendFindings(path: string, text: string, cs: seq<Candidate>, i: nat, hash: string -> string,
                       found: seq<Finding>, more: seq<Finding>, at: seq<nat>)
    requires i < |cs| && FindingsOf(path, text, cs[..i], hash, found)
    requires Greedy(text, cs[i].value, at) && Exhausted(text, cs[i].value, at)
    requires InText(text, at) && more == Report(path, text, cs[i], hash, at)
    ensures FindingsOf(path, text, cs[..i + 1], hash, found + more)
  {
    hide Greedy, Exhausted, Report;
    assert cs[..i + 1][..i] == cs[..i];
    assert (found + more)[..|found|] == found && (found + more)[|found|..] == more;
  }

  lemma CleanSnoc(text: string, cs: seq<Candidate>, i: nat)
    requires i < |cs|
    ensures Clean(text, cs[..i + 1]) <==> Clean(text, cs[..i]) && !Occurs(text, cs[i].value)
  {
    assert cs[..i + 1] == cs[..i] + [cs[i]];
  }

  /** No candidate occurs. */
  ghost predicate Clean(text: string, cs: seq<Candidate>) { forall c <- cs :: !Occurs(text, c.value) }

  datatype Artifact = Artifact(path: string, resolved: string, text: Option<string>)

  datatype ScanResult = ScanResult(scanned: nat, findings: seq<Finding>)

  /** The files a scan reads: not a secret source, and text. */
  predicate Scanned(a: Artifact, sources: set<string>) { a.resolved !in sources && a.text.Some? }

  ghost function CountScanned(files: seq<Artifact>, sources: set<string>): nat {
    if files == [] then 0
    else CountScanned(files[..|files| - 1], sources) + if Scanned(files[|files| - 1], sources) then 1 else 0
  }

  ghost predicate AllClean(files: seq<Artifact>, cs: seq<Candidate>, sources: set<string>) {
    forall a <- files :: Scanned(a, sources) ==> Clean(a.text.value, cs)
  }

  /** The findings of a scan: those of each file it reads, in turn. */
  ghost predicate ScanFindings(files: seq<Artifact>, cs: seq<Candidate>, sources: set<string>, hash: string -> string,
                               found: seq<Finding>) {
    if files == [] then found == []
    else
      var a := files[|files| - 1];
      if !Scanned(a, sources) then ScanFindings(files[..|files| - 1], cs, sources, hash, found)
      else
        exists m: nat ::
          && m <= |found| && ScanFindings(files[..|files| - 1], cs, sources, hash, found[..m])
          && FindingsOf(a.path, a.text.value, cs, hash, found[m..])
  }

  lemma AppendFile(files: seq<Artifact>, i: nat, cs: seq<Candidate>, sources: set<string>, hash: string -> string,
                   found: seq<Finding>, more: seq<Finding>)
    requires i < |files| && ScanFindings(files[..i], cs, sources, hash, found)
    ensures !Scanned(files[i], sources) ==> ScanFindings(files[..i + 1], cs, sources, hash, found)
    ensures Scanned(files[i], sources) && FindingsOf(files[i].path, files[i].text.value, cs, hash, more) ==>
              ScanFindings(files[..i + 1], cs, sources, hash, found + more)
  {
    hide FindingsOf;
    assert files[..i + 1][..i] == files[..i];
    assert (found + more)[..|found|] == found && (found + more)[|found|..] == more;
  }

  /** A scan reports the findings of every file it reads, and passes exactly when no candidate occurs in
      any of them. */
  method ScanArtifacts(files: seq<Artifact>, cs: seq<Candidate>, sources: set<string>, hash: string -> string)
    returns (result: ScanResult)
    requires Scanworthy(cs)
    ensures result.findings == [] <==> AllClean(files, cs, sources)
    ensures ScanFindings(files, cs, sources, hash, result.findings)
    ensures result.scanned == CountScanned(files, sources)
  {
    var findings, scanned := [], 0;
    for i := 0 to |files|
      invariant findings == [] <==> AllClean(files[..i], cs, sources)
      invariant ScanFindings(files[..i], cs, sources, hash, findings)
      invariant scanned == CountScanned(files[..i], sources)
    {
      hide FindingsOf, ScanFindings, Clean;
      var a := files[i];
      AppendFile(files, i, cs, sources, hash, findings, []);
      assert files[..i + 1] == files[..i] + [a] && files[..i + 1][..i] == files[..i];
      if a.resolved in sources { continue; }
      if a.text.None? { continue; }
      scanned := scanned + 1;
      var found := FindLeaks(a.path, a.text.value, cs, hash);
      AppendFile(files, i, cs, sources, hash, findings, found);
      findings := findings + found;
    }
    assert files[..|files|] == files;
    return ScanResult(scanned, findings);
  }

  // ---- Deduplication ----

  /** Stable insertion by label, as `sorted` leaves equal labels in their order. */
  function InsertByName(c: Candidate, cs: seq<Candidate>): seq<Candidate> {
    if cs == [] || Before(c.name, cs[0].name) then [c] + cs else [cs[0]] + InsertByName(c, cs[1..])
  }

  function SortByName(cs: seq<Candidate>): seq<Candidate> {
    if cs == [] then [] else InsertByName(cs[|cs| - 1], SortByName(cs[..|cs| - 1]))
  }

  /** Some candidate has the value. */
  predicate HasValue(cs: seq<Candidate>, value: string) { exists c <- cs :: c.value == value }

  ghost predicate DistinctValues(cs: seq<Candidate>) {
    forall i, j :: 0 <= i < j < |cs| ==> cs[i].value != cs[j].value
  }

  /** No candidate before that one has its value. */
  predicate FirstAt(cs: seq<Candidate>, i: nat)
    requires i < |cs|
  {
    forall j :: 0 <= j < i ==> cs[j].value != cs[i].value
  }

  predicate IsFirst(cs: seq<Candidate>, c: Candidate) { exists i :: 0 <= i < |cs| && cs[i] == c && FirstAt(cs, i) }

  /** Where a value appears first. */
  function Rank(cs: seq<Candidate>, value: string): (i: nat)
    ensures i <= |cs| && (i < |cs| ==> cs[i].value == value) && forall j :: 0 <= j < i ==> cs[j].value != value
  {
    if cs == [] || cs[0].value == value then 0 else 1 + Rank(cs[1..], value)
  }

  /** In order of first appearance. */
  predicate InOrder(cs: seq<Candidate>, kept: seq<Candidate>) {
    forall i, j | 0 <= i < j < |kept| :: Rank(cs, kept[i].value) < Rank(cs, kept[j].value)
  }

  /** Of equal labels, in order of first appearance. */
  predicate StableIn(cs: seq<Candidate>, kept: seq<Candidate>) {
    forall i, j | 0 <= i < j < |kept| ::
      kept[i].name == kept[j].name ==> Rank(cs, kept[i].value) < Rank(cs, kept[j].value)
  }

  /** What is kept of the first candidates `cs[..i]`. */
  predicate KeptSoFar(cs: seq<Candidate>, i: nat, kept: seq<Candidate>)
    requires i <= |cs|
  {
    && InOrder(cs, kept)
    && forall c <- kept :: c in cs && IsFirst(cs, c) && Rank(cs, c.value) < i
  }

  lemma KeptGrows(cs: seq<Candidate>, i: nat, kept: seq<Candidate>)
    requires i < |cs| && KeptSoFar(cs, i, kept)
    ensures KeptSoFar(cs, i + 1, kept)
    ensures (forall j :: 0 <= j < i ==> cs[j].value != cs[i].value) ==> KeptSoFar(cs, i + 1, kept + [cs[i]])
  {
    hide Rank, IsFirst;
    if forall j :: 0 <= j < i ==> cs[j].value != cs[i].value {
      RankOfFirst(cs, i);
      assert cs[i] in cs;
      var more := kept + [cs[i]];
      forall a, b | 0 <= a < b < |more| ensures Rank(cs, more[a].value) < Rank(cs, more[b].value) {
        if b == |kept| { assert more[a] == kept[a] && kept[a] in kept; }
      }
    }
  }

  /** The first candidate of every value, in order. */
  method FirstByValue(cs: seq<Candidate>) returns (kept: seq<Candidate>)
    ensures forall c <- kept :: c in cs && IsFirst(cs, c)
    ensures forall c <- cs :: HasValue(kept, c.value)
    ensures DistinctValues(kept) && InOrder(cs, kept)
  {
    hide Rank, IsFirst, InOrder;
    kept := [];
    var seen: set<string> := {};
    assert KeptSoFar(cs, 0, []) by { NothingInOrder(cs); }
    for i := 0 to |cs|
      invariant seen == set k <- kept :: k.value
      invariant forall v <- seen :: exists j :: 0 <= j < i && cs[j].value == v
      invariant forall j :: 0 <= j < i ==> cs[j].value in seen
      invariant KeptSoFar(cs, i, kept)
      invariant forall a, b :: 0 <= a < b < |kept| ==> kept[a].value != kept[b].value
    {
      KeptGrows(cs, i, kept);
      hide KeptSoFar;
      if cs[i].value !in seen {
        kept := kept + [cs[i]];
        seen := seen + {cs[i].value};
      }
    }
    forall c | c in cs ensures HasValue(kept, c.value) {
      assert c.value in seen;
    }
  }

  lemma NothingInOrder(cs: seq<Candidate>)
    ensures InOrder(cs, [])
  {}

  lemma RankOfFirst(cs: seq<Candidate>, i: nat)
    requires i < |cs| && forall j :: 0 <= j < i ==> cs[j].value != cs[i].value
    ensures Rank(cs, cs[i].value) == i && IsFirst(cs, cs[i])
  {
    assert FirstAt(cs, i);
  }

  ghost predicate SortedByName(cs: seq<Candidate>) {
    forall i, j :: 0 <= i < j < |cs| ==> !Before(cs[j].name, cs[i].name)
  }

  lemma {:induction false} InsertKeepsOrder(c: Candidate, cs: seq<Candidate>)
    requires SortedByName(cs)
    ensures var r := InsertByName(c, cs); SortedByName(r) && multiset(r) == multiset(cs) + multiset{c}
  {
    if cs == [] {
    } else if Before(c.name, cs[0].name) {
      BeforeIsAsymmetric(c.name, cs[0].name);
      forall j | 0 <= j < |cs| ensures !Before(cs[j].name, c.name) {
        if j > 0 { NotBeforeIsTransitive(c.name, cs[0].name, cs[j].name); }
      }
    } else {
      var r := InsertByName(c, cs[1..]);
      assert InsertByName(c, cs) == [cs[0]] + r;
      hide Before, InsertByName;
      InsertKeepsOrder(c, cs[1..]);
      assert cs == [cs[0]] + cs[1..];
      forall j | 0 <= j < |r| ensures !Before(r[j].name, cs[0].name) {
        assert r[j] in multiset(r);
        assert r[j] == c || r[j] in cs[1..];
      }
    }
  }

  lemma {:induction false} SortIsOrderedPermutation(cs: seq<Candidate>)
    ensures SortedByName(SortByName(cs)) && multiset(SortByName(cs)) == multiset(cs)
  {
    if cs != [] {
      var n := |cs| - 1;
      SortIsOrderedPermutation(cs[..n]);
      InsertKeepsOrder(cs[n], SortByName(cs[..n]));
      assert cs == cs[..n] + [cs[n]];
    }
  }

  lemma StableCons(all: seq<Candidate>, x: Candidate, r: seq<Candidate>)
    requires StableIn(all, r) && forall y <- r :: y.name == x.name ==> Rank(all, x.value) < Rank(all, y.value)
    ensures StableIn(all, [x] + r)
  {
    hide Rank;
    var s := [x] + r;
    assert forall k :: 0 < k < |s| ==> s[k] == r[k - 1];
  }

  lemma StableTail(all: seq<Candidate>, cs: seq<Candidate>)
    requires StableIn(all, cs) && cs != []
    ensures StableIn(all, cs[1..])
    ensures forall y <- cs[1..] :: y.name == cs[0].name ==> Rank(all, cs[0].value) < Rank(all, y.value)
  {
    hide Rank;
  }

  lemma InsertMembers(c: Candidate, cs: seq<Candidate>)
    requires SortedByName(cs)
    ensures forall y :: y in InsertByName(c, cs) <==> y == c || y in cs
    ensures SortedByName(InsertByName(c, cs))
  {
    InsertKeepsOrder(c, cs);
    hide InsertByName, SortedByName;
    SameMembers(InsertByName(c, cs), cs + [c]);
  }

  lemma SmallerLabel(c: Candidate, cs: seq<Candidate>)
    requires SortedByName(cs) && cs != [] && Before(c.name, cs[0].name)
    ensures forall y <- cs :: y.name != c.name
  {
    BeforeIsAsymmetric(c.name, cs[0].name);
    hide Before;
  }

  /** A candidate that appears after all others goes behind those of its label. */
  lemma {:induction false} InsertKeepsStable(all: seq<Candidate>, c: Candidate, cs: seq<Candidate>)
    requires SortedByName(cs) && StableIn(all, cs) && forall x <- cs :: Rank(all, x.value) < Rank(all, c.value)
    ensures StableIn(all, InsertByName(c, cs))
  {
    hide Rank, StableIn, Before;
    if cs == [] {
      StableCons(all, c, []) by { assert StableIn(all, []) by { NothingIsStable(all); } }
    } else if Before(c.name, cs[0].name) {
      SmallerLabel(c, cs);
      StableCons(all, c, cs);
    } else {
      StableTail(all, cs);
      assert cs == [cs[0]] + cs[1..];
      InsertKeepsStable(all, c, cs[1..]);
      InsertMembers(c, cs[1..]);
      hide InsertByName;
      StableCons(all, cs[0], InsertByName(c, cs[1..]));
    }
  }

  lemma NothingIsStable(all: seq<Candidate>)
    ensures StableIn(all, [])
  {}

  lemma {:induction false} SortIsStable(all: seq<Candidate>, cs: seq<Candidate>)
    requires InOrder(all, cs)
    ensures StableIn(all, SortByName(cs))
  {
    hide Rank;
    if cs != [] {
      var n := |cs| - 1;
      SortIsStable(all, cs[..n]);
      SortIsOrderedPermutation(cs[..n]);
      SameMembers(SortByName(cs[..n]), cs[..n]);
      InsertKeepsStable(all, cs[n], SortByName(cs[..n]));
    }
  }

  method DedupeCandidates(cs: seq<Candidate>) returns (kept: seq<Candidate>)
    ensures SameValues(kept, cs) && (forall c <- kept :: c in cs) && SortedByName(kept)
    ensures forall c <- kept :: multiset(kept)[c] == 1
    ensures forall c <- kept, d <- kept :: c.value == d.value ==> c == d
    ensures forall c <- kept :: IsFirst(cs, c)
    ensures StableIn(cs, kept)
  {
    var first := FirstByValue(cs);
    kept := SortByName(first);
    SortIsOrderedPermutation(first);
    SortIsStable(cs, first);
    hide SortByName, SortedByName, DistinctValues, SameValues, IsFirst, StableIn, InOrder;
    SameMembers(first, kept);
    DistinctOnce(first);
    SameMembersSameValues(first, kept, cs);
  }

  lemma SameMembersSameValues(first: seq<Candidate>, kept: seq<Candidate>, cs: seq<Candidate>)
    requires forall c :: c in first <==> c in kept
    requires (forall c <- first :: c in cs) && forall c <- cs :: HasValue(first, c.value)
    ensures SameValues(kept, cs)
  {
    forall d | d in cs ensures HasValue(kept, d.value) {
      var k :| k in first && k.value == d.value;
      assert k in kept;
    }
    forall c | c in kept ensures HasValue(cs, c.value) {
      assert c in first && c in cs;
    }
  }

  lemma SameMembers(a: seq<Candidate>, b: seq<Candidate>)
    requires multiset(a) == multiset(b)
    ensures forall c :: c in a <==> c in b
  {
    assert forall c :: c in a <==> c in multiset(a);
    assert forall c :: c in b <==> c in multiset(b);
  }

  lemma {:induction false} DistinctOnce(a: seq<Candidate>)
    requires DistinctValues(a)
    ensures forall c <- a :: multiset(a)[c] == 1
    ensures forall c <- a, d <- a :: c.value == d.value ==> c == d
  {
    if a != [] {
      var n := |a| - 1;
      DistinctOnce(a[..n]);
      assert a == a[..n] + [a[n]];
      assert a[n] !in a[..n];
    }
  }

  ghost predicate SameValues(a: seq<Candidate>, b: seq<Candidate>) {
    (forall c <- a :: HasValue(b, c.value)) && (forall c <- b :: HasValue(a, c.value))
  }

  /** Whether a scan passes depends only on which values are searched. */
  lemma VerdictIgnoresDuplicates(files: seq<Artifact>, a: seq<Candidate>, b: seq<Candidate>, sources: set<string>)
    requires SameValues(a, b)
    ensures AllClean(files, a, sources) <==> AllClean(files, b, sources)
  {
    hide *;
    SameValuesSymmetric(a, b);
    if AllClean(files, a, sources) { AllCleanTransfers(files, a, b, sources); }
    if AllClean(files, b, sources) { AllCleanTransfers(files, b, a, sources); }
  }

  lemma SameValuesSymmetric(a: seq<Candidate>, b: seq<Candidate>)
    requires SameValues(a, b)
    ensures SameValues(b, a)
  {}

  lemma AllCleanTransfers(files: seq<Artifact>, a: seq<Candidate>, b: seq<Candidate>, sources: set<string>)
    requires SameValues(a, b) && AllClean(files, a, sources)
    ensures AllClean(files, b, sources)
  {
    hide Clean, SameValues;
    forall f | f in files && Scanned(f, sources) ensures Clean(f.text.value, b) {
      CleanTransfers(f.text.value, a, b);
    }
  }

  lemma CleanTransfers(text: string, a: seq<Candidate>, b: seq<Candidate>)
    requires SameValues(a, b) && Clean(text, a)
    ensures Clean(text, b)
  {
    hide Occurs;
    forall d | d in b ensures !Occurs(text, d.value) {
      var c :| c in a && c.value == d.value;
    }
  }
}
