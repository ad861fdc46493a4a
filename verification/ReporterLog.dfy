/** What the reporter prints of lines a line buffer has already redacted and masked (`remote_output` in
    `remote.py`, fed by `_StreamLineBuffer` in `remote_transport.py`). */
module ReporterLog {
  import opened Text
  import opened EnvFormat
  import opened Redaction
  import opened StreamRedaction

  // ---- What is promised ----

  /** The stream's entries are what streaming a text logs. */
  ghost predicate Logged(alnum: AlnumTable, mask: string -> string, es: seq<Entry>, key: StreamKey, text: string) {
    Select(es, key) == Masked(mask, Shown(alnum, AllLines(text)))
  }

  /** A reporter that masks with `again` prints every stream of every log as logged. */
  ghost predicate PrintsAsLogged(alnum: AlnumTable, mask: string -> string, again: string -> string) {
    forall es: seq<Entry>, key: StreamKey, text: string :: Logged(alnum, mask, es, key, text) ==>
      Select(Printed(alnum, again, es), key) == Select(es, key)
  }

  /** The mask makes no markers, and no assignments but of assignments with the same key. */
  ghost predicate KeepsStarts(alnum: AlnumTable, mask: string -> string) {
    && (forall l :: IsMarker(mask(l)) ==> IsMarker(l))
    && (forall l :: StreamAssignment(alnum, mask(l)) ==> StreamAssignment(alnum, l) && KeyOf(mask(l)) == KeyOf(l))
  }

  /** Masking twice is masking once, on lines. */
  ghost predicate MasksOnce(mask: string -> string) {
    forall l :: IsLine(l) ==> mask(mask(l)) == mask(l)
  }

  /** A marker and the hidden assignment below it stay both recognisable, and the second is changed. */
  ghost predicate Undoes(alnum: AlnumTable, mask: string -> string, marker: string, l: string) {
    && IsLine(marker) && IsMarker(mask(marker))
    && StreamAssignment(alnum, l) && StreamAssignment(alnum, mask(Hide(l))) && mask(Hide(l)) != Hide(l)
  }

  // ---- One printed line ----

  lemma {:induction false} LinesAreLines(text: string)
    ensures forall l <- AllLines(text) :: IsLine(l)
    decreases |text|
  {
    var i := IndexOf(text, '\n');
    if i < |text| {
      FirstLine(text, i);
      StrippedIsLine(text[..i]);
      LinesAreLines(text[i + 1..]);
      hide CompleteLines, Partial, RStripCr;
      assert AllLines(text) == [RStripCr(text[..i])] + AllLines(text[i + 1..]);
    } else {
      NoLine(text);
      StrippedIsLine(text);
    }
  }

  lemma {:induction false} StrippedIsLine(s: string)
    requires !Contains(s, '\n')
    ensures IsLine(RStripCr(s))
  {
    if s != "" && s[|s| - 1] == '\r' {
      var t := s[..|s| - 1];
      assert forall i :: 0 <= i < |t| ==> t[i] == s[i];
      StrippedIsLine(t);
    }
  }

  lemma HiddenIsLine(alnum: AlnumTable, l: string)
    requires StreamAssignment(alnum, l)
    ensures IsLine(Hide(l)) && IsLine(KeyOf(l) + "=")
  {
    var k, h := KeyOf(l), Hide(l);
    assert !Contains(REDACTED, '\n') && REDACTED[|REDACTED| - 1] == '>' by {
      assert REDACTED == ['<', 'R', 'E', 'D', 'A', 'C', 'T', 'E', 'D', '>'];
    }
    forall i | 0 <= i < |k| ensures k[i] != '\n' {
      assert !alnum('\n');
      if k[i] == '\n' { OthersStay(k, '\n'); }
    }
    assert h == k + "=" + REDACTED;
    assert h[|h| - 1] == REDACTED[|REDACTED| - 1];
    assert forall i :: 0 <= i < |h| ==>
                         h[i] == if i < |k| then k[i] else if i == |k| then '=' else REDACTED[i - |k| - 1];
  }

  lemma {:induction false} OthersStay(s: string, c: char)
    requires c != '_' && c in s
    ensures c in Replace(s, '_', "")
  {
    if s[0] != c { OthersStay(s[1..], c); }
  }

  lemma ShownIsLine(alnum: AlnumTable, ls: seq<string>, k: nat)
    requires k < |ls| && forall l <- ls :: IsLine(l)
    ensures IsLine(ShownAt(alnum, ls, k))
  {
    hide StreamAssignment, IsMarker, Hide, IsLine;
    if StreamAssignment(alnum, ls[k]) { HiddenIsLine(alnum, ls[k]); }
  }

  lemma MarkerShown(alnum: AlnumTable, ls: seq<string>, k: nat)
    requires k < |ls| && IsMarker(ShownAt(alnum, ls, k))
    ensures ShownAt(alnum, ls, k) == ls[k]
  {
    StreamAssignmentIsNoMarker(alnum, ls[k]);
    hide StreamAssignment, IsMarker, Hide;
  }

  lemma AssignmentBelowMarker(alnum: AlnumTable, ls: seq<string>, k: nat)
    requires 0 < k < |ls| && IsMarker(ls[k - 1]) && StreamAssignment(alnum, ShownAt(alnum, ls, k))
    ensures StreamAssignment(alnum, ls[k]) && ShownAt(alnum, ls, k) == Hide(ls[k])
  {
    hide StreamAssignment, IsMarker, Hide;
  }

  /** The reporter leaves an entry's line as it is, or hides again what had been hidden and masked. */
  lemma EntryReported(alnum: AlnumTable, mask: string -> string, es: seq<Entry>, i: nat, ls: seq<string>)
    returns (k: nat)
    requires KeepsStarts(alnum, mask) && i < |es| && Select(es, es[i].stream) == Masked(mask, Shown(alnum, ls))
    ensures k < |ls| && es[i].line == mask(ShownAt(alnum, ls, k))
    ensures || ReportAt(alnum, es, i) == es[i].line
            || (&& 0 < k && IsMarker(mask(ls[k - 1])) && ShownAt(alnum, ls, k) == Hide(ls[k])
                && StreamAssignment(alnum, ls[k]) && StreamAssignment(alnum, mask(Hide(ls[k])))
                && ReportAt(alnum, es, i) == Hide(ls[k]))
  {
    hide StreamAssignment, IsMarker, Hide, Select, ShownAt, Masked, Shown;
    SelectPosition(es, i);
    MaskedAt(alnum, mask, ls);
    var key := es[i].stream;
    k := |Select(es[..i], key)|;
    if k > 0 && BelowMarker(es[..i], key) && StreamAssignment(alnum, es[i].line) {
      assert Select(es[..i], key)[k - 1] == Select(es, key)[k - 1] == mask(ShownAt(alnum, ls, k - 1));
      MarkerShown(alnum, ls, k - 1);
      AssignmentBelowMarker(alnum, ls, k);
      SameKeySameHidden(ls[k], es[i].line, alnum);
    }
  }

  lemma SameKeySameHidden(l: string, shown: string, alnum: AlnumTable)
    requires StreamAssignment(alnum, l)
    ensures KeyOf(shown) == KeyOf(Hide(l)) ==> Hide(shown) == Hide(l)
  {
    var k := KeyOf(l);
    assert Contains(l, '=');
    assert Hide(l)[|k|] == '=' && forall i :: 0 <= i < |k| ==> Hide(l)[i] == k[i] != '=';
    assert IndexOf(Hide(l), '=') == |k|;
  }

  // ---- Whole logs ----

  lemma {:induction false} SelectAlike(a: seq<Entry>, b: seq<Entry>, key: StreamKey)
    requires |a| == |b|
    requires forall i :: 0 <= i < |a| ==> a[i].stream == b[i].stream && (a[i].stream == key ==> a[i] == b[i])
    ensures Select(a, key) == Select(b, key)
  {
    if a != [] {
      var n := |a| - 1;
      SelectAlike(a[..n], b[..n], key);
    }
  }

  lemma PrintedAt(alnum: AlnumTable, again: string -> string, es: seq<Entry>, i: nat)
    requires i < |es|
    ensures |Printed(alnum, again, es)| == |es|
    ensures Printed(alnum, again, es)[i] == Entry(es[i].stream, again(ReportAt(alnum, es, i)))
  {
    hide ReportAt;
    assert Printed(alnum, again, es)[i] == Entry(es[i].stream, again(ReportAt(alnum, es, i)));
  }

  lemma LogOfOne(alnum: AlnumTable, mask: string -> string, key: StreamKey, l: string)
    requires IsLine(l)
    ensures Logged(alnum, mask, [Entry(key, mask(l))], key, l + "\n")
  {
    hide IsLine, AllLines;
    AllLinesCons(l, "");
    assert l + "\n" + "" == l + "\n" && AllLines("") == [] by { NothingHasNoLines(); }
    assert AllLines(l + "\n") == [l];
    MaskedAt(alnum, mask, [l]);
    OneIsPrinted(alnum, mask, key, mask(l));
    hide Select, Masked, Shown, StreamAssignment, IsMarker, Hide;
    assert ShownAt(alnum, [l], 0) == l;
    assert Masked(mask, Shown(alnum, [l])) == [mask(l)];
  }

  lemma NothingHasNoLines()
    ensures AllLines("") == []
  {}

  lemma LogOfTwo(alnum: AlnumTable, mask: string -> string, key: StreamKey, m: string, l: string)
    requires IsLine(m) && IsLine(l) && IsMarker(m) && StreamAssignment(alnum, l)
    ensures Logged(alnum, mask, [Entry(key, mask(m)), Entry(key, mask(Hide(l)))], key, m + "\n" + (l + "\n"))
  {
    hide IsLine, AllLines, StreamAssignment, IsMarker, Hide;
    AllLinesCons(l, "");
    AllLinesCons(m, l + "\n");
    assert l + "\n" + "" == l + "\n" && AllLines("") == [] by { NothingHasNoLines(); }
    var ls := [m, l];
    assert AllLines(m + "\n" + (l + "\n")) == ls;
    MaskedAt(alnum, mask, ls);
    var es := [Entry(key, mask(m)), Entry(key, mask(Hide(l)))];
    assert ShownAt(alnum, ls, 0) == m && ShownAt(alnum, ls, 1) == Hide(l);
    SelectSnoc([], es[0], key);
    SelectSnoc([es[0]], es[1], key);
    assert [] + [es[0]] == [es[0]] && [es[0]] + [es[1]] == es;
    assert Select(es, key) == [mask(m), mask(Hide(l))];
    assert Masked(mask, Shown(alnum, ls)) == [mask(m), mask(Hide(l))];
  }

  /** Every line a reporter prints of a logged stream is the logged one, in every log, exactly when masking
      twice is masking once: what the reporter hides once more comes out of its own mask the same. */
  lemma PrintsAsLoggedExactly(alnum: AlnumTable, mask: string -> string)
    requires KeepsStarts(alnum, mask)
    ensures PrintsAsLogged(alnum, mask, mask) <==> MasksOnce(mask)
  {
    hide KeepsStarts, Select, Printed, ReportAt, IsLine, AllLines, Shown, Masked;
    if MasksOnce(mask) {
      forall es: seq<Entry>, key: StreamKey, text: string | Logged(alnum, mask, es, key, text)
        ensures Select(Printed(alnum, mask, es), key) == Select(es, key)
      {
        LogIsPrinted(alnum, mask, es, key, text);
      }
    }
    if PrintsAsLogged(alnum, mask, mask) {
      forall l | IsLine(l) ensures mask(mask(l)) == mask(l) {
        var key := ("", "");
        LogOfOne(alnum, mask, key, l);
        OneIsPrinted(alnum, mask, key, mask(l));
      }
    }
  }

  lemma OneIsPrinted(alnum: AlnumTable, again: string -> string, key: StreamKey, line: string)
    ensures Select(Printed(alnum, again, [Entry(key, line)]), key) == [again(line)]
    ensures Select([Entry(key, line)], key) == [line]
  {
    var es := [Entry(key, line)];
    assert es[..0] == [];
    assert Select(es[..0], key) == [];
    hide StreamAssignment, IsMarker, Hide;
    assert ReportAt(alnum, es, 0) == line;
    assert Printed(alnum, again, es) == [Entry(key, again(line))];
    var ps := [Entry(key, again(line))];
    assert ps[..0] == [];
  }

  lemma TwoArePrinted(alnum: AlnumTable, again: string -> string, key: StreamKey, m: string, line: string)
    requires IsMarker(m) && StreamAssignment(alnum, line)
    ensures Select(Printed(alnum, again, [Entry(key, m), Entry(key, line)]), key) == [again(m), again(Hide(line))]
    ensures Select([Entry(key, m), Entry(key, line)], key) == [m, line]
  {
    hide StreamAssignment, IsMarker, Hide;
    var es := [Entry(key, m)] + [Entry(key, line)];
    assert es == [Entry(key, m), Entry(key, line)];
    OneIsPrinted(alnum, again, key, m);
    hide Select, Printed;
    SelectSnoc([Entry(key, m)], Entry(key, line), key);
    assert ReportAt(alnum, es, 1) == Hide(line) by { assert es[..1] == [Entry(key, m)]; }
    PrintedSnoc(alnum, again, [Entry(key, m)], Entry(key, line));
    SelectSnoc(Printed(alnum, again, [Entry(key, m)]), Entry(key, again(Hide(line))), key);
  }

  lemma LogIsPrinted(alnum: AlnumTable, mask: string -> string, es: seq<Entry>, key: StreamKey, text: string)
    requires KeepsStarts(alnum, mask) && MasksOnce(mask) && Logged(alnum, mask, es, key, text)
    ensures Select(Printed(alnum, mask, es), key) == Select(es, key)
  {
    hide KeepsStarts, Select, ReportAt, IsLine, AllLines, Shown, Masked, ShownAt, IsMarker, StreamAssignment, Hide;
    hide Printed;
    var ls := AllLines(text);
    var ps := Printed(alnum, mask, es);
    assert |ps| == |es| by { if es != [] { PrintedAt(alnum, mask, es, 0); } else { NothingPrinted(alnum, mask); } }
    forall i | 0 <= i < |es| ensures ps[i].stream == es[i].stream && (es[i].stream == key ==> ps[i] == es[i]) {
      PrintedAt(alnum, mask, es, i);
      if es[i].stream == key {
        var k := EntryReported(alnum, mask, es, i, ls);
        LinesAreLines(text);
        ShownIsLine(alnum, ls, k);
      }
    }
    SelectAlike(ps, es, key);
  }

  /** A reporter that heard a log prints it as logged, if masking twice is masking once. */
  lemma ReporterPrintsLog(reporter: RemoteProgressReporter, key: StreamKey, text: string)
    requires reporter.Valid() && Logged(reporter.alnum, reporter.mask, reporter.heard, key, text)
    requires KeepsStarts(reporter.alnum, reporter.mask) && MasksOnce(reporter.mask)
    ensures Select(reporter.printed, key) == Select(reporter.heard, key)
  {
    hide Select, Printed, ReportAt, Logged, KeepsStarts, MasksOnce, BelowMarker;
    LogIsPrinted(reporter.alnum, reporter.mask, reporter.heard, key, text);
  }

  lemma NothingPrinted(alnum: AlnumTable, again: string -> string)
    ensures Printed(alnum, again, []) == []
  {}

  /** Without its mask the reporter would change no logged line exactly when the mask undoes no hidden
      assignment below a marker it lets through. */
  lemma HidesNothingMoreExactly(alnum: AlnumTable, mask: string -> string)
    requires KeepsStarts(alnum, mask)
    ensures PrintsAsLogged(alnum, mask, l => l) <==> forall m, l :: !Undoes(alnum, mask, m, l)
  {
    hide KeepsStarts, Select, Printed, ReportAt, IsLine, AllLines, Shown, Masked, Undoes;
    if forall m, l :: !Undoes(alnum, mask, m, l) {
      forall es: seq<Entry>, key: StreamKey, text: string | Logged(alnum, mask, es, key, text)
        ensures Select(Printed(alnum, l => l, es), key) == Select(es, key)
      {
        LogIsKept(alnum, mask, es, key, text);
      }
    }
    if PrintsAsLogged(alnum, mask, l => l) {
      forall m, l ensures !Undoes(alnum, mask, m, l) {
        if Undoes(alnum, mask, m, l) { UndoneShows(alnum, mask, m, l); }
      }
    }
  }

  lemma LogIsKept(alnum: AlnumTable, mask: string -> string, es: seq<Entry>, key: StreamKey, text: string)
    requires KeepsStarts(alnum, mask) && Logged(alnum, mask, es, key, text)
    requires forall m, l :: !Undoes(alnum, mask, m, l)
    ensures Select(Printed(alnum, l => l, es), key) == Select(es, key)
  {
    hide KeepsStarts, Select, ReportAt, IsLine, AllLines, Shown, Masked, ShownAt, IsMarker, StreamAssignment, Hide;
    hide Printed;
    var again: string -> string := l => l;
    var ls := AllLines(text);
    var ps := Printed(alnum, again, es);
    assert |ps| == |es| by { if es != [] { PrintedAt(alnum, again, es, 0); } else { NothingPrinted(alnum, again); } }
    forall i | 0 <= i < |es| ensures ps[i].stream == es[i].stream && (es[i].stream == key ==> ps[i] == es[i]) {
      PrintedAt(alnum, again, es, i);
      if es[i].stream == key {
        var k := EntryReported(alnum, mask, es, i, ls);
        LinesAreLines(text);
        if ReportAt(alnum, es, i) != es[i].line {
          assert ls[k - 1] in ls;
          assert !Undoes(alnum, mask, ls[k - 1], ls[k]);
        }
      }
    }
    SelectAlike(ps, es, key);
  }

  lemma SameKeyHides(alnum: AlnumTable, l: string)
    requires StreamAssignment(alnum, l)
    ensures var s := KeyOf(l) + "="; StreamAssignment(alnum, s) && Hide(s) == Hide(l)
  {
    var s, k := KeyOf(l) + "=", KeyOf(l);
    assert s[|k|] == '=' && forall i :: 0 <= i < |k| ==> s[i] == k[i] != '=';
    assert IndexOf(s, '=') == |k| && KeyOf(s) == k;
  }

  /** Logged below its marker, an undone line is hidden again. */
  lemma UndoneShows(alnum: AlnumTable, mask: string -> string, m: string, l: string)
    requires KeepsStarts(alnum, mask) && Undoes(alnum, mask, m, l)
    ensures !PrintsAsLogged(alnum, mask, l => l)
  {
    hide StreamAssignment, IsMarker, Hide, AllLines, IsLine, Masked, Shown, Select, Printed, KeyOf;
    var key, s, h := ("", ""), KeyOf(l) + "=", mask(Hide(l));
    var es := [Entry(key, mask(m)), Entry(key, h)];
    SameKeyHides(alnum, l);
    HiddenIsLine(alnum, l);
    LogOfTwo(alnum, mask, key, m, s);
    SameKeySameHidden(l, h, alnum);
    TwoArePrinted(alnum, l => l, key, mask(m), h);
  }
}
