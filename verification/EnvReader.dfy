/** Reading an env payload back: what a dotenv consumer of the merged text sees. */
module EnvReader {
  import opened Text
  import opened EnvFormat
  import opened EnvMerge

  /** Last assignment wins. */
  function LastAssignment(ls: seq<string>, name: string): Option<string> {
    if ls == [] then None
    else
      var l := ls[|ls| - 1];
      if LooksLikeEnvAssignment(l) && KeyOf(l) == name then Some(DecodeValue(ValueOf(l)))
      else LastAssignment(ls[..|ls| - 1], name)
  }

  function LastSpec(specs: seq<EnvSpec>, name: string): Option<EnvSpec> {
    if specs == [] then None
    else if specs[|specs| - 1].name == name then Some(specs[|specs| - 1])
    else LastSpec(specs[..|specs| - 1], name)
  }

  datatype Entry = Entry(name: string, marker: string, owner: string, value: string)

  /** The owned assignments of a payload: a marker line with both fields and the line below it. */
  function OwnedEntries(ls: seq<string>): seq<Entry> {
    if |ls| < 2 then []
    else if IsEntry(ls[0], ls[1]) then [EntryOf(ls[0], ls[1])] + OwnedEntries(ls[2..])
    else OwnedEntries(ls[1..])
  }

  predicate IsEntry(m: string, a: string) {
    && IsMarker(m) && LooksLikeEnvAssignment(a)
    && MarkerField(m, "marker").Some? && MarkerField(m, "owner").Some?
  }

  function EntryOf(m: string, a: string): Entry
    requires IsEntry(m, a)
  {
    Entry(KeyOf(a), MarkerField(m, "marker").value, MarkerField(m, "owner").value,
          DecodeValue(ValueOf(a)))
  }

  function Written(specs: seq<EnvSpec>): seq<Entry> {
    seq(|specs|, i requires 0 <= i < |specs| =>
      Entry(specs[i].name, specs[i].marker, specs[i].owner, specs[i].value))
  }

  lemma SpecIsEntry(s: EnvSpec)
    requires WellFormed(s)
    ensures IsEntry(MarkerLine(s), AssignmentLine(s))
    ensures EntryOf(MarkerLine(s), AssignmentLine(s)) == Entry(s.name, s.marker, s.owner, s.value)
  {
    MarkerLineFields(s);
    MarkerLineIsOneLine(s);
    AssignmentLineParses(s);
    DecodeEncode(s.value);
  }

  lemma MarkerBelowIsNoEntry(a: string, b: string)
    requires IsMarker(b)
    ensures !IsEntry(a, b)
  {
    AssignmentIsNoMarker(b);
  }

  lemma {:induction false} EntriesAppend(a: seq<string>, b: seq<string>)
    requires b == [] || IsMarker(b[0])
    ensures OwnedEntries(a + b) == OwnedEntries(a) + OwnedEntries(b)
    decreases |a|
  {
    hide IsEntry, EntryOf, IsMarker;
    if a == [] || b == [] {
      assert a + b == if a == [] then b else a;
    } else if |a| == 1 {
      MarkerBelowIsNoEntry(a[0], b[0]);
      assert (a + b)[1..] == b;
    } else if IsEntry(a[0], a[1]) {
      EntriesAppend(a[2..], b);
      assert (a + b)[2..] == a[2..] + b;
      Regroup([EntryOf(a[0], a[1])], OwnedEntries(a[2..]), OwnedEntries(b));
    } else {
      EntriesAppend(a[1..], b);
      assert (a + b)[1..] == a[1..] + b;
    }
  }

  // ---- Which values come back ----

  lemma {:induction false} UnescapedBreaks(s: string)
    requires NoBreak(s)
    ensures OnlyNewlineBreaks(Unescape(s))
    decreases |s|
  {
    if s != "" {
      var k := if s[0] == '\\' && |s| > 1 then 2 else 1;
      var head := if k == 1 then [s[0]] else if s[1] == 'n' then "\n" else [s[1]];
      assert Unescape(s) == head + Unescape(s[k..]);
      UnescapedBreaks(s[k..]);
    }
  }

  /** What is read from one line holds no break but newlines, and none at all unless quoted. */
  lemma DecodedBreaks(t: string)
    requires NoBreak(t)
    ensures OnlyNewlineBreaks(DecodeValue(t))
  {
    if |t| >= 2 { UnescapedBreaks(t[1..|t| - 1]); }
  }

  /** Cut at its first break, an encoding reads as some other value. */
  lemma CutReadsOtherwise(v: string)
    requires !Admissible(v)
    ensures var e := DotenvValue(v); BreakAt(e) < |e| && DecodeValue(e[..BreakAt(e)]) != v
  {
    EncodingIsOneLineExactly(v);
    var e := DotenvValue(v);
    var cut := e[..BreakAt(e)];
    if OnlyNewlineBreaks(v) {
      assert e == v && AllSafe(v[..|v| - 1]) && v[|v| - 1] == '\n';
      assert forall j :: 0 <= j < |v| - 1 ==> IsSafe(v[..|v| - 1][j]) && !IsBreak(v[j]);
      assert cut == v[..|v| - 1];
      assert DecodeValue(cut) == cut;
    } else {
      DecodedBreaks(cut);
    }
  }

  lemma CutLineReadsOtherwise(s: EnvSpec)
    requires WellFormed(s) && !Admissible(s.value)
    ensures var a := AssignmentLine(s);
            && BreakAt(a) < |a| && LooksLikeEnvAssignment(a[..BreakAt(a)])
            && DecodeValue(ValueOf(a[..BreakAt(a)])) != s.value
  {
    IdentifierIsPlain(s.name);
    CutReadsOtherwise(s.value);
    var e := DotenvValue(s.value);
    var cut := e[..BreakAt(e)];
    CutAssignment(s, cut);
    hide DotenvValue, DecodeValue, LooksLikeEnvAssignment, Admissible, IsIdentifier, WellFormed;
    BreakIsThere(s.name + "=", e);
    var l := s.name + "=" + cut;
    assert l[|s.name|] == '=' && IndexOf(l, '=') == |s.name|;
    assert ValueOf(l) == cut;
  }

  lemma BreakIsThere(a: string, e: string)
    requires NoBreak(a) && BreakAt(e) < |e|
    ensures BreakAt(a + e) == |a| + BreakAt(e) && (a + e)[..BreakAt(a + e)] == a + e[..BreakAt(e)]
  {
    var t, k := a + e, |a| + BreakAt(e);
    assert forall j :: 0 <= j < k ==> t[j] == if j < |a| then a[j] else e[j - |a|];
    assert t[k] == e[BreakAt(e)];
  }

  lemma FirstLineIs(t: string)
    requires t != ""
    ensures Lines(t) != [] && Lines(t)[0] == t[..BreakAt(t)]
  {
    hide BreakAt;
    assert Pieces(t)[0].body == t[..BreakAt(t)];
  }

  lemma FirstLineIsCut(a: string, rest: string)
    requires BreakAt(a) < |a|
    ensures Lines(a + rest) != [] && Lines(a + rest)[0] == a[..BreakAt(a)]
  {
    hide BreakAt, Lines;
    var t := a + rest;
    FirstLineIs(t);
    assert forall j :: 0 <= j <= BreakAt(a) ==> t[j] == a[j];
    assert BreakAt(t) == BreakAt(a);
    assert t[..BreakAt(a)] == a[..BreakAt(a)];
  }

  /** A block's first spec, written above the others. */
  lemma FirstSpecAbove(specs: seq<EnvSpec>)
    requires specs != []
    ensures RenderBlock(specs)
            == Terminated([MarkerLine(specs[0])]) + (AssignmentLine(specs[0]) + ("\n" + RenderBlock(specs[1..])))
    ensures RenderBlock(specs)
            == Terminated([MarkerLine(specs[0]), AssignmentLine(specs[0])]) + RenderBlock(specs[1..])
  {
    hide MarkerLine, AssignmentLine, RenderBlock;
    RenderBlockIsTerminated(specs);
    RenderBlockIsTerminated(specs[1..]);
    var m, a, rest := MarkerLine(specs[0]), AssignmentLine(specs[0]), BlockLines(specs[1..]);
    assert BlockLines(specs) == [m, a] + rest;
    TerminatedAppend([m, a], rest);
    TerminatedOne(m);
    TerminatedTwo(m, a);
    hide Terminated, BlockLines;
    calc {
      RenderBlock(specs);
      m + "\n" + (a + "\n") + Terminated(rest);
      { Regroup(m + "\n", a + "\n", Terminated(rest)); Regroup(a, "\n", Terminated(rest)); }
      Terminated([m]) + (a + ("\n" + RenderBlock(specs[1..])));
    }
  }

  lemma FirstSpecWhole(specs: seq<EnvSpec>)
    requires specs != [] && WellFormed(specs[0]) && Admissible(specs[0].value)
    ensures var s := specs[0];
            Lines(RenderBlock(specs)) == [MarkerLine(s), AssignmentLine(s)] + Lines(RenderBlock(specs[1..]))
  {
    FirstSpecAbove(specs);
    MarkerLineIsOneLine(specs[0]);
    AssignmentLineIsOneLine(specs[0]);
    hide Lines, RenderBlock, Terminated, MarkerLine, AssignmentLine, WellFormed, Admissible, NoBreak;
    LinesTerminatedThen([MarkerLine(specs[0]), AssignmentLine(specs[0])], RenderBlock(specs[1..]));
  }

  lemma FirstSpecCut(specs: seq<EnvSpec>)
    requires specs != [] && WellFormed(specs[0]) && !Admissible(specs[0].value)
    ensures var a, ls := AssignmentLine(specs[0]), Lines(RenderBlock(specs));
            && |ls| >= 2 && ls[0] == MarkerLine(specs[0]) && BreakAt(a) < |a| && ls[1] == a[..BreakAt(a)]
  {
    FirstSpecAbove(specs);
    MarkerLineIsOneLine(specs[0]);
    CutLineReadsOtherwise(specs[0]);
    hide Lines, RenderBlock, Terminated, MarkerLine, AssignmentLine, WellFormed, Admissible, NoBreak;
    hide LooksLikeEnvAssignment, DecodeValue, ValueOf, BreakAt, BlockLines;
    var rest := "\n" + RenderBlock(specs[1..]);
    LinesTerminatedThen([MarkerLine(specs[0])], AssignmentLine(specs[0]) + rest);
    FirstLineIsCut(AssignmentLine(specs[0]), rest);
    assert Lines(RenderBlock(specs)) == [MarkerLine(specs[0])] + Lines(AssignmentLine(specs[0]) + rest);
  }

  /** A spec at the head of a block reads back as written exactly when its encoding is one line. */
  lemma FirstSpecReads(specs: seq<EnvSpec>)
    requires specs != [] && AllWellFormed(specs)
    ensures var s, ls := specs[0], Lines(RenderBlock(specs));
            && |ls| >= 2 && IsEntry(ls[0], ls[1])
            && if Admissible(s.value) then ls == [MarkerLine(s), AssignmentLine(s)] + Lines(RenderBlock(specs[1..]))
               else EntryOf(ls[0], ls[1]).value != s.value
  {
    var s := specs[0];
    SpecIsEntry(s);
    MarkerLineFields(s);
    MarkerLineIsOneLine(s);
    if Admissible(s.value) {
      FirstSpecWhole(specs);
    } else {
      FirstSpecCut(specs);
      CutLineReadsOtherwise(s);
    }
    hide Lines, RenderBlock, MarkerLine, AssignmentLine, WellFormed, Admissible, NoBreak, Words;
    hide LooksLikeEnvAssignment, DecodeValue, ValueOf, MarkerField, BreakAt, IsMarker, KeyOf;
  }

  /** A block reads back as the list written exactly when every value encodes to one line. */
  lemma {:induction false} BlockReadsBackExactly(specs: seq<EnvSpec>)
    requires AllWellFormed(specs)
    ensures OwnedEntries(Lines(RenderBlock(specs))) == Written(specs) <==> AllAdmissible(specs)
  {
    hide Lines, RenderBlock, MarkerLine, AssignmentLine, IsEntry, EntryOf, WellFormed, Admissible;
    if specs == [] {
      assert Lines(RenderBlock([])) == [] by { EmptyHasNoLines(); EmptyBlock(); }
    } else {
      var s, ls := specs[0], Lines(RenderBlock(specs));
      FirstSpecReads(specs);
      SpecIsEntry(s);
      BlockReadsBackExactly(specs[1..]);
      var first := Entry(s.name, s.marker, s.owner, s.value);
      assert Written(specs) == [first] + Written(specs[1..]);
      assert OwnedEntries(ls) == [EntryOf(ls[0], ls[1])] + OwnedEntries(ls[2..]);
      assert specs == [s] + specs[1..];
      if Admissible(s.value) {
        assert ls[2..] == Lines(RenderBlock(specs[1..]));
        assert OwnedEntries(ls)[1..] == OwnedEntries(ls[2..]) && Written(specs)[1..] == Written(specs[1..]);
      } else {
        assert OwnedEntries(ls)[0].value != s.value && Written(specs)[0] == first;
      }
    }
  }

  lemma EmptyBlock()
    ensures RenderBlock([]) == ""
  {}

  /** Over any text, the names, owners and values written are the ones read back, after whatever owned
      entries the kept foreign lines hold, exactly when every value encodes to one line. */
  lemma MergedPayloadReadsBack(text: string, specs: seq<EnvSpec>)
    requires AllWellFormed(specs)
    ensures OwnedEntries(Lines(Merge(text, specs))) == OwnedEntries(Kept(text, specs)) + Written(specs)
            <==> AllAdmissible(specs)
  {
    ForeignLinesSurvive(text, specs);
    BlockReadsBackExactly(specs);
    EmptyBlock();
    EmptyHasNoLines();
    if specs != [] {
      FirstSpecReads(specs);
      EntryIsMarked(Lines(RenderBlock(specs))[0], Lines(RenderBlock(specs))[1]);
    }
    hide OwnedEntries, Lines, RenderBlock, Kept, Merge, WellFormed, Admissible, IsMarker, IsEntry;
    EntriesAppend(Kept(text, specs), Lines(RenderBlock(specs)));
    var k, x, y := OwnedEntries(Kept(text, specs)), OwnedEntries(Lines(RenderBlock(specs))), Written(specs);
    assert (k + x)[|k|..] == x && (k + y)[|k|..] == y;
  }

  lemma EntryIsMarked(m: string, a: string)
    requires IsEntry(m, a)
    ensures IsMarker(m)
  {}

  lemma LastAssignmentSnoc(ls: seq<string>, l: string, name: string)
    ensures LastAssignment(ls + [l], name) ==
            if LooksLikeEnvAssignment(l) && KeyOf(l) == name then Some(DecodeValue(ValueOf(l)))
            else LastAssignment(ls, name)
  {
    hide LooksLikeEnvAssignment, KeyOf, DecodeValue, ValueOf;
    assert (ls + [l])[..|ls|] == ls;
  }

  lemma LastAssignmentAfterSpec(ls: seq<string>, s: EnvSpec, name: string)
    requires WellFormed(s)
    ensures LastAssignment(ls + BlockLines([s]), name) ==
            if s.name == name then Some(s.value) else LastAssignment(ls, name)
  {
    hide LooksLikeEnvAssignment, DecodeValue, LastAssignment, DotenvValue, IsIdentifier;
    var m, a := MarkerLine(s), AssignmentLine(s);
    MarkerLineIsOneLine(s);
    AssignmentIsNoMarker(m);
    AssignmentLineParses(s);
    DecodeEncode(s.value);
    LastAssignmentSnoc(ls, m, name);
    LastAssignmentSnoc(ls + [m], a, name);
    assert BlockLines([s]) == [m, a] by {
      hide MarkerLine, AssignmentLine;
      assert [s][1..] == [];
    }
    hide MarkerLine, AssignmentLine, BlockLines, KeyOf;
    assert ls + [m] + [a] == ls + BlockLines([s]);
  }

  lemma {:induction false} LastAssignmentInBlock(pre: seq<string>, specs: seq<EnvSpec>, name: string)
    requires AllWellFormed(specs)
    ensures LastAssignment(pre + BlockLines(specs), name)
            == match LastSpec(specs, name)
               case Some(s) => Some(s.value)
               case None => LastAssignment(pre, name)
  {
    hide LastAssignment, MarkerLine, AssignmentLine, WellFormed;
    if specs == [] {
      assert pre + BlockLines(specs) == pre;
    } else {
      var n := |specs| - 1;
      assert specs[n] in specs;
      LastAssignmentInBlock(pre, specs[..n], name);
      BlockLinesAppend(specs[..n], [specs[n]]);
      assert specs[..n] + [specs[n]] == specs;
      LastAssignmentAfterSpec(pre + BlockLines(specs[..n]), specs[n], name);
      assert pre + BlockLines(specs[..n]) + BlockLines([specs[n]]) == pre + BlockLines(specs);
    }
  }

  lemma {:induction false} LastAssignmentJoins(a: seq<string>, b: seq<string>, name: string)
    ensures LastAssignment(a + b, name)
            == match LastAssignment(b, name)
               case Some(v) => Some(v)
               case None => LastAssignment(a, name)
  {
    hide LooksLikeEnvAssignment, KeyOf, DecodeValue, ValueOf;
    if b == [] {
      assert a + b == a;
    } else {
      var n := |b| - 1;
      LastAssignmentJoins(a, b[..n], name);
      LastAssignmentSnoc(a + b[..n], b[n], name);
      assert a + b[..n] + [b[n]] == a + b && b[..n] + [b[n]] == b;
    }
  }

  lemma {:induction false} ReadValueBreaks(ls: seq<string>, name: string)
    requires AllNoBreak(ls)
    ensures LastAssignment(ls, name).Some? ==> OnlyNewlineBreaks(LastAssignment(ls, name).value)
  {
    hide LooksLikeEnvAssignment, DecodeValue, OnlyNewlineBreaks;
    if ls != [] {
      var n := |ls| - 1;
      ReadValueBreaks(ls[..n], name);
      if LooksLikeEnvAssignment(ls[n]) { ValueBreaks(ls[n]); }
    }
  }

  lemma ValueBreaks(l: string)
    requires NoBreak(l) && LooksLikeEnvAssignment(l)
    ensures OnlyNewlineBreaks(DecodeValue(ValueOf(l)))
  {
    hide DecodeValue;
    DecodedBreaks(ValueOf(l));
  }

  /** After a merge every name resolves as in the block read on its own, and names it does not assign
      as the kept foreign lines say; when all values encode to one line that is the name's last spec's
      value, while no text gives a value with another raw break back. */
  lemma MergedValue(text: string, specs: seq<EnvSpec>, name: string)
    requires AllWellFormed(specs)
    ensures var read := LastAssignment(Lines(Merge(text, specs)), name);
            && read == (match LastAssignment(Lines(RenderBlock(specs)), name)
                        case Some(v) => Some(v)
                        case None => LastAssignment(Kept(text, specs), name))
            && (AllAdmissible(specs) ==>
                  read == match LastSpec(specs, name)
                          case Some(s) => Some(s.value)
                          case None => LastAssignment(Kept(text, specs), name))
            && (forall s <- specs :: !OnlyNewlineBreaks(s.value) ==> read != Some(s.value))
  {
    hide *;
    ForeignLinesSurvive(text, specs);
    LastAssignmentJoins(Kept(text, specs), Lines(RenderBlock(specs)), name);
    if AllAdmissible(specs) { LastAssignmentInBlock(Kept(text, specs), specs, name); }
    LinesHaveNoBreak(Merge(text, specs));
    ReadValueBreaks(Lines(Merge(text, specs)), name);
  }

  // ---- Values whose only raw breaks are newlines ----

  /** What such a value reads back as: a safe run loses the newline that closes it. */
  function ReadAs(v: string): string { if SafeThenNewline(v) then v[..|v| - 1] else v }

  lemma ClosedSpecReads(s: EnvSpec, name: string)
    requires WellFormed(s) && SafeThenNewline(s.value)
    ensures LastAssignment(SpecWritten(s), name) == if s.name == name then Some(ReadAs(s.value)) else None
  {
    var v := s.value[..|s.value| - 1];
    var m, a := MarkerLine(s), s.name + "=" + v;
    MarkerLineIsOneLine(s);
    AssignmentIsNoMarker(m);
    CutAssignment(s, v);
    SafeDecodes(v);
    assert !LooksLikeEnvAssignment("");
    assert ValueOf(a) == v by { hide LooksLikeEnvAssignment, IsIdentifier, WellFormed; assert KeyOf(a) == s.name; }
    hide LooksLikeEnvAssignment, DecodeValue, ValueOf, KeyOf, MarkerLine, SafeThenNewline, WellFormed;
    LastAssignmentSnoc([], m, name);
    LastAssignmentSnoc([m], a, name);
    LastAssignmentSnoc([m, a], "", name);
    assert [] + [m] == [m] && [m] + [a] == [m, a] && [m, a] + [""] == SpecWritten(s);
  }

  lemma SafeDecodes(v: string)
    requires AllSafe(v)
    ensures DecodeValue(v) == v
  {}

  lemma SpecReadsAs(s: EnvSpec, name: string)
    requires WellFormed(s)
    ensures LastAssignment(SpecWritten(s), name) == if s.name == name then Some(ReadAs(s.value)) else None
  {
    hide LastAssignment, SafeThenNewline, MarkerLine, AssignmentLine, WellFormed;
    if SafeThenNewline(s.value) {
      ClosedSpecReads(s, name);
    } else {
      LastAssignmentAfterSpec([], s, name);
      assert [] + BlockLines([s]) == SpecWritten(s) by { assert [s][1..] == []; }
      assert LastAssignment([], name) == None by { NothingAssigned(name); }
    }
  }

  lemma NothingAssigned(name: string)
    ensures LastAssignment([], name) == None
  {}

  lemma {:induction false} LastSpecCons(specs: seq<EnvSpec>, name: string)
    requires specs != []
    ensures LastSpec(specs, name) ==
            match LastSpec(specs[1..], name)
            case Some(s) => Some(s)
            case None => if specs[0].name == name then Some(specs[0]) else None
  {
    if |specs| > 1 {
      var n := |specs| - 1;
      LastSpecCons(specs[..n], name);
      assert specs[..n][1..] == specs[1..][..n - 1];
    }
  }

  lemma {:induction false} WrittenReads(specs: seq<EnvSpec>, name: string)
    requires AllWellFormed(specs)
    ensures LastAssignment(WrittenLines(specs), name)
            == match LastSpec(specs, name) case Some(s) => Some(ReadAs(s.value)) case None => None
  {
    hide LastAssignment, LastSpec, ReadAs, SpecWritten, WellFormed;
    if specs == [] {
      NothingAssigned(name);
      assert LastSpec([], name) == None by { NoSpec(name); }
    } else {
      WrittenReads(specs[1..], name);
      SpecReadsAs(specs[0], name);
      LastSpecCons(specs, name);
      LastAssignmentJoins(SpecWritten(specs[0]), WrittenLines(specs[1..]), name);
    }
  }

  lemma NoSpec(name: string)
    ensures LastSpec([], name) == None
  {}

  /** The last spec of a name reads back its value over the empty text only if it encodes to one line. */
  lemma LastSpecReadsBack(specs: seq<EnvSpec>, name: string)
    requires AllWellFormed(specs) && (forall s <- specs :: OnlyNewlineBreaks(s.value)) && LastSpec(specs, name).Some?
    ensures LastAssignment(Lines(Merge("", specs)), name) == Some(ReadAs(LastSpec(specs, name).value.value))
  {
    hide *;
    MergedValue("", specs, name);
    RenderBlockIsTerminated(specs);
    WrittenLinesAreTheBlock(specs);
    LinesTerminated(WrittenLines(specs));
    WrittenReads(specs, name);
  }
}
