/** `merge_env_text`: foreign lines survive, owner-marked blocks are rewritten
    (`dokploy/env_spec.py`). */
module EnvMerge {
  import opened Text
  import opened EnvFormat

  /** A line goes when it is an owned marker, or an assignment right below one. */
  predicate Dropped(ls: seq<string>, i: nat, pairs: set<Pair>)
    requires i < |ls|
  {
    IsOwnedMarker(ls[i], pairs)
    || (i > 0 && IsOwnedMarker(ls[i - 1], pairs) && LooksLikeEnvAssignment(ls[i]))
  }

  function Foreign(ls: seq<string>, pairs: set<Pair>): seq<string> {
    if ls == [] then []
    else
      var n := |ls| - 1;
      Foreign(ls[..n], pairs) + if Dropped(ls, n, pairs) then [] else [ls[n]]
  }

  /** The scan with the skip flag selects exactly the lines that are not dropped. */
  method PreserveUnrelatedEnvLines(text: string, specs: seq<EnvSpec>) returns (preserved: seq<string>)
    ensures preserved == Foreign(Lines(text), OwnedPairs(specs))
  {
    var ownedPairs := OwnedPairs(specs);
    preserved := [];
    var skipNextAssignment := false;
    var lines := Lines(text);
    for i := 0 to |lines|
      invariant preserved == Foreign(lines[..i], ownedPairs)
      invariant skipNextAssignment == (i > 0 && IsOwnedMarker(lines[i - 1], ownedPairs))
    {
      var line := lines[i];
      assert lines[..i + 1][..i] == lines[..i];
      assert Dropped(lines[..i + 1], i, ownedPairs) == Dropped(lines, i, ownedPairs);
      AssignmentIsNoMarker(line);
      if skipNextAssignment {
        skipNextAssignment := false;
        if LooksLikeEnvAssignment(line) {
          continue;
        }
      }
      if IsMarker(line) {
        var marker := MarkerField(line, "marker");
        var owner := MarkerField(line, "owner");
        if marker.Some? && owner.Some? && (marker.value, owner.value) in ownedPairs {
          skipNextAssignment := true;
          continue;
        }
      }
      preserved := preserved + [line];
    }
    assert lines[..|lines|] == lines;
  }

  function Kept(text: string, specs: seq<EnvSpec>): seq<string> {
    var f := Foreign(Lines(text), OwnedPairs(specs));
    if f == [] then [] else TrimTail(f)
  }

  function Merge(text: string, specs: seq<EnvSpec>): string {
    var preserved := Foreign(Lines(text), OwnedPairs(specs));
    var block := RenderBlock(specs);
    if preserved == [] then block
    else if block == "" then RStrip(JoinLines(preserved)) + "\n"
    else RStrip(JoinLines(preserved)) + "\n" + block
  }

  method MergeEnvText(existing: string, specs: seq<EnvSpec>) returns (merged: string)
    ensures merged == Merge(existing, specs)
  {
    var preserved := PreserveUnrelatedEnvLines(existing, specs);
    var block := RenderWizardEnvBlock(specs);
    if preserved == [] {
      return block;
    }
    if block == "" {
      return RStrip(JoinLines(preserved)) + "\n";
    }
    return RStrip(JoinLines(preserved)) + "\n" + block;
  }

  // ---- Dropping lines ----

  lemma AssignmentIsNoMarker(line: string)
    ensures !(LooksLikeEnvAssignment(line) && IsMarker(line))
  {
    if IsMarker(line) {
      assert line[0] == '#';
      assert LStrip(line) == line;
      assert "#" <= line;
    }
  }

  lemma {:induction false} ForeignAppend(a: seq<string>, b: seq<string>, pairs: set<Pair>)
    requires a == [] || !IsOwnedMarker(a[|a| - 1], pairs)
    ensures Foreign(a + b, pairs) == Foreign(a, pairs) + Foreign(b, pairs)
  {
    hide IsOwnedMarker, LooksLikeEnvAssignment;
    if b == [] {
      assert a + b == a;
    } else {
      var n := |b| - 1;
      ForeignAppend(a, b[..n], pairs);
      assert (a + b)[..|a + b| - 1] == a + b[..n] && (a + b)[|a| + n] == b[n];
      assert Dropped(a + b, |a| + n, pairs) == Dropped(b, n, pairs);
    }
  }

  predicate NoneOwned(ls: seq<string>, pairs: set<Pair>) {
    forall i :: 0 <= i < |ls| ==> !IsOwnedMarker(ls[i], pairs)
  }

  lemma {:induction false} ForeignOfForeign(ls: seq<string>, pairs: set<Pair>)
    ensures NoneOwned(Foreign(ls, pairs), pairs)
    ensures forall l <- Foreign(ls, pairs) :: l in ls
  {
    hide IsOwnedMarker, LooksLikeEnvAssignment;
    if ls != [] { ForeignOfForeign(ls[..|ls| - 1], pairs); }
  }

  lemma {:induction false} ForeignOfNoneOwned(ls: seq<string>, pairs: set<Pair>)
    requires NoneOwned(ls, pairs)
    ensures Foreign(ls, pairs) == ls
  {
    hide IsOwnedMarker, LooksLikeEnvAssignment;
    if ls != [] {
      var n := |ls| - 1;
      ForeignOfNoneOwned(ls[..n], pairs);
      assert ls == ls[..n] + [ls[n]];
    }
  }

  /** Trailing white space never decides whether a line is an owned marker. */
  lemma OwnedMarkerRStrip(line: string, pairs: set<Pair>)
    ensures IsOwnedMarker(RStrip(line), pairs) == IsOwnedMarker(line, pairs)
  {
    WordsRStrip(line);
    RStripIsPrefix(line);
    var r := RStrip(line);
    if IsMarker(line) {
      var last := |MARKER| - 1;
      assert line[last] == MARKER[last] == 'v';
      assert |r| > last;
      assert r[..|MARKER|] == line[..|MARKER|];
    }
    if IsMarker(r) { assert line[..|MARKER|] == r[..|MARKER|]; }
  }

  lemma KeptIsForeign(text: string, specs: seq<EnvSpec>)
    ensures NoneOwned(Kept(text, specs), OwnedPairs(specs)) && AllNoBreak(Kept(text, specs))
    ensures var k := Kept(text, specs); k != [] ==> TrimTail(k) == k
  {
    hide IsOwnedMarker, Lines, NoBreak, Dropped, TrimTail, RStrip;
    var pairs := OwnedPairs(specs);
    var f := Foreign(Lines(text), pairs);
    ForeignOfForeign(Lines(text), pairs);
    LinesHaveNoBreak(text);
    if f != [] {
      assert AllNoBreak(f) by {
        forall i | 0 <= i < |f| ensures NoBreak(f[i]) { assert f[i] in Lines(text); }
      }
      TrimTailShape(f);
      TrimTailNoBreak(f);
      var t := TrimTail(f);
      forall i | 0 <= i < |t| ensures !IsOwnedMarker(t[i], pairs) {
        if i < |t| - 1 { assert t[..|t| - 1][i] == f[i]; } else { OwnedMarkerRStrip(f[i], pairs); }
      }
    }
  }

  // ---- The shape of a merge ----

  lemma RenderBlockIsTerminated(specs: seq<EnvSpec>)
    ensures RenderBlock(specs) == Terminated(BlockLines(specs))
  {
    if BlockLines(specs) != [] { JoinTerminated(BlockLines(specs)); }
  }

  lemma MergeShape(text: string, specs: seq<EnvSpec>)
    ensures Merge(text, specs) == Terminated(Kept(text, specs)) + RenderBlock(specs)
  {
    var f := Foreign(Lines(text), OwnedPairs(specs));
    if f == [] {
      assert Terminated([]) + RenderBlock(specs) == RenderBlock(specs);
    } else {
      RStripJoin(f);
    }
  }

  lemma MergedLines(text: string, specs: seq<EnvSpec>)
    ensures Lines(Merge(text, specs)) == Kept(text, specs) + Lines(RenderBlock(specs))
  {
    hide Lines, Merge, Kept, RenderBlock, Terminated;
    MergeShape(text, specs);
    KeptIsForeign(text, specs);
    LinesTerminatedThen(Kept(text, specs), RenderBlock(specs));
  }

  /** What a later merge keeps of an earlier one: its foreign lines, and whatever the earlier
      block leaves behind when it is read back. */
  lemma ForeignOfMerge(text: string, first: seq<EnvSpec>, second: seq<EnvSpec>)
    requires OwnedPairs(first) == OwnedPairs(second)
    ensures var pairs := OwnedPairs(second);
            Foreign(Lines(Merge(text, first)), pairs)
            == Kept(text, first) + Foreign(Lines(RenderBlock(first)), pairs)
  {
    hide Lines, Merge, Kept, RenderBlock, Foreign, IsOwnedMarker;
    var pairs, k := OwnedPairs(second), Kept(text, first);
    MergedLines(text, first);
    KeptIsForeign(text, first);
    ForeignAppend(k, Lines(RenderBlock(first)), pairs);
    ForeignOfNoneOwned(k, pairs);
  }

  /** A block that reads back clean is replaced as a whole, by specs with the same owners. */
  lemma MergeAfterCleanBlock(text: string, first: seq<EnvSpec>, second: seq<EnvSpec>)
    requires OwnedPairs(first) == OwnedPairs(second)
    requires Foreign(Lines(RenderBlock(first)), OwnedPairs(first)) == []
    ensures Merge(Merge(text, first), second) == Merge(text, second)
  {
    ForeignOfMerge(text, first, second);
    KeptIsForeign(text, first);
    MergeShape(text, second);
    MergeShape(Merge(text, first), second);
    assert Kept(text, first) + [] == Kept(text, first);
  }

  lemma EmptyTextKeepsNothing(specs: seq<EnvSpec>)
    ensures Kept("", specs) == [] && Merge("", specs) == RenderBlock(specs)
  {
    assert Lines("") == [];
  }

  /** Two merges whose specs have the same owners equal the second alone, on every text, exactly when
      the first block reads back without a line the merge would keep. */
  lemma SecondMergeWinsExactly(first: seq<EnvSpec>, second: seq<EnvSpec>)
    requires OwnedPairs(first) == OwnedPairs(second)
    ensures (forall text :: Merge(Merge(text, first), second) == Merge(text, second))
            <==> Foreign(Lines(RenderBlock(first)), OwnedPairs(first)) == []
  {
    hide Lines, Foreign, RenderBlock, Merge, TrimTail;
    if Foreign(Lines(RenderBlock(first)), OwnedPairs(first)) == [] {
      forall text ensures Merge(Merge(text, first), second) == Merge(text, second) {
        MergeAfterCleanBlock(text, first, second);
      }
    } else {
      EmptyTextKeepsNothing(first);
      EmptyTextKeepsNothing(second);
      var block := RenderBlock(first);
      MergeShape(block, second);
      var k := Kept(block, second);
      assert Terminated(k) == k[0] + "\n" + Terminated(k[1..]);
      assert |Merge(block, second)| > |RenderBlock(second)|;
      assert Merge(Merge("", first), second) != Merge("", second);
    }
  }

  /** With one list of specs this is idempotence. */
  lemma MergeIdempotentExactly(specs: seq<EnvSpec>)
    ensures (forall text :: Merge(Merge(text, specs), specs) == Merge(text, specs))
            <==> Foreign(Lines(RenderBlock(specs)), OwnedPairs(specs)) == []
  {
    hide *;
    SecondMergeWinsExactly(specs, specs);
  }

  // ---- Which blocks read back clean ----

  lemma {:induction false} BlockLinesAreLines(specs: seq<EnvSpec>)
    requires AllWellFormed(specs) && AllAdmissible(specs)
    ensures AllNoBreak(BlockLines(specs))
  {
    hide NoBreak, MarkerLine, AssignmentLine, WellFormed, Admissible;
    if specs != [] {
      BlockLinesAreLines(specs[1..]);
      MarkerLineIsOneLine(specs[0]);
      AssignmentLineIsOneLine(specs[0]);
    }
  }

  lemma BlockReadsAsWritten(specs: seq<EnvSpec>)
    requires AllWellFormed(specs) && AllAdmissible(specs)
    ensures Lines(RenderBlock(specs)) == BlockLines(specs)
  {
    hide Lines, BlockLines, RenderBlock, Terminated;
    RenderBlockIsTerminated(specs);
    BlockLinesAreLines(specs);
    LinesTerminated(BlockLines(specs));
  }

  lemma SpecLines(s: EnvSpec, pairs: set<Pair>)
    requires WellFormed(s)
    ensures IsOwnedMarker(MarkerLine(s), pairs) <==> (s.marker, s.owner) in pairs
    ensures LooksLikeEnvAssignment(AssignmentLine(s)) && !IsOwnedMarker(AssignmentLine(s), pairs)
  {
    MarkerLineFields(s);
    MarkerLineIsOneLine(s);
    AssignmentLineParses(s);
  }

  lemma {:induction false} OwnBlockIsDropped(specs: seq<EnvSpec>, pairs: set<Pair>)
    requires AllWellFormed(specs) && OwnedPairs(specs) <= pairs
    ensures Foreign(BlockLines(specs), pairs) == []
  {
    hide MarkerLine, AssignmentLine, IsOwnedMarker, LooksLikeEnvAssignment, WellFormed;
    if specs != [] {
      hide Foreign;
      var s := specs[0];
      assert s in specs && (s.marker, s.owner) in OwnedPairs(specs);
      SpecLines(s, pairs);
      OwnBlockIsDropped(specs[1..], pairs);
      ForeignOfPair(MarkerLine(s), AssignmentLine(s), pairs);
      ForeignAppend([MarkerLine(s), AssignmentLine(s)], BlockLines(specs[1..]), pairs);
    }
  }

  lemma {:induction false} OtherBlockIsForeign(specs: seq<EnvSpec>, pairs: set<Pair>)
    requires AllWellFormed(specs) && OwnedPairs(specs) !! pairs
    ensures NoneOwned(BlockLines(specs), pairs)
  {
    hide MarkerLine, AssignmentLine, IsOwnedMarker, LooksLikeEnvAssignment, WellFormed;
    if specs != [] {
      var s := specs[0];
      assert s in specs && (s.marker, s.owner) in OwnedPairs(specs);
      SpecLines(s, pairs);
      OtherBlockIsForeign(specs[1..], pairs);
    }
  }

  /** One-line values always read back so: two merges for the same owners equal the second. */
  lemma SameOwnersSecondMergeWins(text: string, first: seq<EnvSpec>, second: seq<EnvSpec>)
    requires AllWellFormed(first) && AllAdmissible(first)
    requires OwnedPairs(first) == OwnedPairs(second)
    ensures Merge(Merge(text, first), second) == Merge(text, second)
  {
    hide *;
    BlockReadsAsWritten(first);
    OwnBlockIsDropped(first, OwnedPairs(first));
    MergeAfterCleanBlock(text, first, second);
  }

  /** The lines a spec takes up once written: a safe value ending in a newline spills an empty one. */
  function SpecWritten(s: EnvSpec): seq<string> {
    if SafeThenNewline(s.value) then [MarkerLine(s), s.name + "=" + s.value[..|s.value| - 1], ""]
    else [MarkerLine(s), AssignmentLine(s)]
  }

  function WrittenLines(specs: seq<EnvSpec>): seq<string> {
    if specs == [] then [] else SpecWritten(specs[0]) + WrittenLines(specs[1..])
  }

  lemma SpecWrittenIsItsBlock(s: EnvSpec)
    requires WellFormed(s) && OnlyNewlineBreaks(s.value)
    ensures Terminated(SpecWritten(s)) == Terminated([MarkerLine(s), AssignmentLine(s)])
    ensures AllNoBreak(SpecWritten(s))
  {
    MarkerLineIsOneLine(s);
    IdentifierIsPlain(s.name);
    EncodingIsOneLineExactly(s.value);
    if SafeThenNewline(s.value) {
      var cut := s.name + "=" + s.value[..|s.value| - 1];
      SafeHasNoBreak(s.value[..|s.value| - 1]);
      assert AssignmentLine(s) == cut + "\n";
      assert [MarkerLine(s), cut, ""][1..] == [cut, ""];
      assert [MarkerLine(s), AssignmentLine(s)][1..] == [AssignmentLine(s)];
      TerminatedTwo(cut, "");
      TerminatedOne(AssignmentLine(s));
    }
  }

  lemma {:induction false} WrittenLinesAreTheBlock(specs: seq<EnvSpec>)
    requires AllWellFormed(specs) && forall s <- specs :: OnlyNewlineBreaks(s.value)
    ensures Terminated(BlockLines(specs)) == Terminated(WrittenLines(specs))
    ensures AllNoBreak(WrittenLines(specs))
  {
    hide MarkerLine, AssignmentLine, SpecWritten, Terminated, NoBreak, WellFormed, OnlyNewlineBreaks;
    if specs != [] {
      var s := specs[0];
      assert s in specs;
      WrittenLinesAreTheBlock(specs[1..]);
      SpecWrittenIsItsBlock(s);
      TerminatedAppend([MarkerLine(s), AssignmentLine(s)], BlockLines(specs[1..]));
      TerminatedAppend(SpecWritten(s), WrittenLines(specs[1..]));
    }
  }

  lemma TerminatedOne(a: string)
    ensures Terminated([a]) == a + "\n"
  {
    assert Terminated([a][1..]) == "";
  }

  lemma TerminatedTwo(a: string, b: string)
    ensures Terminated([a, b]) == a + "\n" + (b + "\n")
  {
    assert [a, b][1..] == [b];
    TerminatedOne(b);
  }

  lemma SafeHasNoBreak(s: string)
    requires AllSafe(s)
    ensures NoBreak(s)
  {}

  lemma ForeignOfPair(marker: string, assignment: string, pairs: set<Pair>)
    requires IsOwnedMarker(marker, pairs) && LooksLikeEnvAssignment(assignment)
    ensures Foreign([marker, assignment], pairs) == []
    ensures !IsOwnedMarker(assignment, pairs)
  {
    AssignmentIsNoMarker(assignment);
    assert [marker, assignment][..1] == [marker] && [marker][..0] == [];
    assert Foreign([marker], pairs) == [];
  }

  lemma ForeignOfTriple(marker: string, assignment: string, pairs: set<Pair>)
    requires IsOwnedMarker(marker, pairs) && LooksLikeEnvAssignment(assignment)
    ensures Foreign([marker, assignment, ""], pairs) == [""] && !IsOwnedMarker("", pairs)
  {
    assert !IsOwnedMarker("", pairs) && !LooksLikeEnvAssignment("");
    hide IsOwnedMarker, LooksLikeEnvAssignment;
    ForeignOfPair(marker, assignment, pairs);
    assert [marker, assignment, ""][..2] == [marker, assignment];
  }

  lemma SpecWrittenForeign(s: EnvSpec, pairs: set<Pair>)
    requires WellFormed(s) && (s.marker, s.owner) in pairs
    ensures var w := SpecWritten(s);
            && Foreign(w, pairs) == (if SafeThenNewline(s.value) then [""] else [])
            && !IsOwnedMarker(w[|w| - 1], pairs)
  {
    SpecLines(s, pairs);
    if SafeThenNewline(s.value) {
      CutAssignment(s, s.value[..|s.value| - 1]);
      ForeignOfTriple(MarkerLine(s), s.name + "=" + s.value[..|s.value| - 1], pairs);
      hide SafeThenNewline, MarkerLine, IsOwnedMarker, LooksLikeEnvAssignment, WellFormed, Foreign;
    } else {
      hide SafeThenNewline, MarkerLine, IsOwnedMarker, LooksLikeEnvAssignment, WellFormed, AssignmentLine;
      ForeignOfPair(MarkerLine(s), AssignmentLine(s), pairs);
    }
  }

  lemma {:induction false} SpilledLinesSurvive(specs: seq<EnvSpec>, pairs: set<Pair>)
    requires AllWellFormed(specs) && OwnedPairs(specs) <= pairs
    ensures Foreign(WrittenLines(specs), pairs) == []
            <==> forall s <- specs :: !SafeThenNewline(s.value)
  {
    hide IsOwnedMarker, WellFormed;
    if specs != [] {
      hide SpecWritten, Foreign;
      var s := specs[0];
      assert s in specs && (s.marker, s.owner) in OwnedPairs(specs);
      SpilledLinesSurvive(specs[1..], pairs);
      SpecWrittenForeign(s, pairs);
      ForeignAppend(SpecWritten(s), WrittenLines(specs[1..]), pairs);
      assert forall t <- specs :: t == s || t in specs[1..];
    }
  }

  lemma CutAssignment(s: EnvSpec, v: string)
    requires IsIdentifier(s.name)
    ensures LooksLikeEnvAssignment(s.name + "=" + v) && KeyOf(s.name + "=" + v) == s.name
  {
    var l := s.name + "=" + v;
    IdentifierIsPlain(s.name);
    assert l[|s.name|] == '=' && forall j :: 0 <= j < |s.name| ==> l[j] == s.name[j];
    assert IndexOf(l, '=') == |s.name|;
    assert l[0] == s.name[0] && LStrip(l) == l;
  }

  /** Among values whose only raw breaks are newlines, repeating a merge changes nothing on every
      text exactly when no value is a safe run followed by one newline. */
  lemma MergeIdempotentIff(specs: seq<EnvSpec>)
    requires AllWellFormed(specs) && forall s <- specs :: OnlyNewlineBreaks(s.value)
    ensures (forall text :: Merge(Merge(text, specs), specs) == Merge(text, specs))
            <==> forall s <- specs :: !SafeThenNewline(s.value)
  {
    hide *;
    MergeIdempotentExactly(specs);
    RenderBlockIsTerminated(specs);
    WrittenLinesAreTheBlock(specs);
    LinesTerminated(WrittenLines(specs));
    SpilledLinesSurvive(specs, OwnedPairs(specs));
  }

  lemma SplitLine(head: string, c: char, tail: string)
    requires NoBreak(head) && NoBreak(tail) && tail != "" && IsBreak(c)
    ensures Pieces(head + [c] + (tail + "\n")) == [Piece(head, [c]), Piece(tail, "\n")]
  {
    assert (tail + "\n")[0] == tail[0] && !IsBreak(tail[0]);
    EmptyHasNoPieces();
    hide Pieces, NoBreak;
    PiecesConsBreak(head, c, tail + "\n");
    PiecesCons(tail, "");
    assert tail + "\n" + "" == tail + "\n";
  }

  lemma EmptyHasNoPieces()
    ensures Pieces("") == []
  {}

  lemma SplitBlock(m: string, head: string, c: char, tail: string)
    requires NoBreak(m) && NoBreak(head) && NoBreak(tail) && tail != "" && IsBreak(c)
    ensures Lines(Terminated([m, head + [c] + tail])) == [m, head, tail]
  {
    hide Lines, Terminated, NoBreak;
    var rest := head + [c] + (tail + "\n");
    TerminatedTwo(m, head + [c] + tail);
    assert head + [c] + tail + "\n" == rest;
    assert m + "\n" + rest == Terminated([m, head + [c] + tail]);
    SplitRow(m, head, c, tail);
  }

  lemma SplitRow(m: string, head: string, c: char, tail: string)
    requires NoBreak(m) && NoBreak(head) && NoBreak(tail) && tail != "" && IsBreak(c)
    ensures Lines(m + "\n" + (head + [c] + (tail + "\n"))) == [m, head, tail]
  {
    hide Pieces, NoBreak, Bodies;
    var rest := head + [c] + (tail + "\n");
    PiecesCons(m, rest);
    SplitLine(head, c, tail);
    BodiesAppend([Piece(m, "\n")], [Piece(head, [c]), Piece(tail, "\n")]);
    BodiesOfThree(Piece(m, "\n"), Piece(head, [c]), Piece(tail, "\n"));
  }

  lemma BodiesOfThree(p: Piece, q: Piece, r: Piece)
    ensures Bodies([p]) == [p.body] && Bodies([q, r]) == [q.body, r.body]
  {}

  lemma OneSpecBlock(s: EnvSpec)
    ensures RenderBlock([s]) == Terminated([MarkerLine(s), AssignmentLine(s)])
  {
    RenderBlockIsTerminated([s]);
    assert [s][1..] == [];
    assert [MarkerLine(s), AssignmentLine(s)] + [] == [MarkerLine(s), AssignmentLine(s)];
  }

  /** Where one raw break falls inside an encoded value, the block reads back as three lines. */
  lemma BlockWithRawBreak(s: EnvSpec, pre: string, c: char, post: string)
    requires WellFormed(s) && DotenvValue(s.value) == pre + [c] + post
    requires NoBreak(pre) && NoBreak(post) && post != "" && IsBreak(c)
    ensures Lines(RenderBlock([s])) == [MarkerLine(s), s.name + "=" + pre, post]
  {
    MarkerLineIsOneLine(s);
    IdentifierIsPlain(s.name);
    OneSpecBlock(s);
    NoBreakAppend(s.name + "=", pre);
    SplitBlock(MarkerLine(s), s.name + "=" + pre, c, post);
    Regroup(s.name + "=", pre + [c], post);
    Regroup(s.name + "=", pre, [c]);
  }

  /** A raw carriage return inside a value splits its line; the tail then stays as foreign. */
  lemma CarriageReturnBreaksIdempotence(s: EnvSpec)
    requires WellFormed(s) && s.value == "a\rb"
    ensures exists text :: Merge(Merge(text, [s]), [s]) != Merge(text, [s])
  {
    EncodedCarriageReturn();
    hide RenderBlock, Lines, MarkerLine, Merge, DotenvValue, Words;
    BlockWithRawBreak(s, "\"a", '\r', "b\"");
    assert !IsOwnedMarker("b\"", OwnedPairs([s])) && !LooksLikeEnvAssignment("b\"") by {
      assert "b\""[0] == 'b' && !Contains("b\"", '=');
    }
    LineLeftBehind([s], 2);
  }

  lemma LineLeftBehind(specs: seq<EnvSpec>, i: nat)
    requires i < |Lines(RenderBlock(specs))| && !IsOwnedMarker(Lines(RenderBlock(specs))[i], OwnedPairs(specs))
    requires !LooksLikeEnvAssignment(Lines(RenderBlock(specs))[i])
    ensures exists text :: Merge(Merge(text, specs), specs) != Merge(text, specs)
  {
    hide IsOwnedMarker, LooksLikeEnvAssignment, RenderBlock, Lines, Foreign, Merge;
    ForeignKeeps(Lines(RenderBlock(specs)), i, OwnedPairs(specs));
    MergeIdempotentExactly(specs);
  }

  lemma EncodedCarriageReturn()
    ensures DotenvValue("a\rb") == "\"a" + ['\r'] + "b\""
  {
    var v := "a\rb";
    assert v[1] == '\r' && v[2] == 'b' && !MatchesSafePattern(v);
    ThreeReplacementsAreOneEscape(v);
    assert v[1..] == "\rb" && "\rb"[1..] == "b" && "b"[1..] == "";
    assert Escape("b") == "b" && Escape("\rb") == "\rb";
  }

  lemma {:induction false} ForeignKeeps(ls: seq<string>, i: nat, pairs: set<Pair>)
    requires i < |ls| && !Dropped(ls, i, pairs)
    ensures ls[i] in Foreign(ls, pairs)
  {
    hide IsOwnedMarker, LooksLikeEnvAssignment;
    if i < |ls| - 1 {
      assert Dropped(ls[..|ls| - 1], i, pairs) == Dropped(ls, i, pairs);
      ForeignKeeps(ls[..|ls| - 1], i, pairs);
    }
  }

  /** Foreign lines come first, in order: all but the last with content unchanged, that one without
      its trailing white space, blank ones below it gone. The block follows, with one-line values line
      for line as written. */
  lemma ForeignLinesSurvive(text: string, specs: seq<EnvSpec>)
    ensures Lines(Merge(text, specs)) == Kept(text, specs) + Lines(RenderBlock(specs))
    ensures AllWellFormed(specs) && AllAdmissible(specs) ==> Lines(RenderBlock(specs)) == BlockLines(specs)
    ensures var f, kept := Foreign(Lines(text), OwnedPairs(specs)), Kept(text, specs);
            if f == [] then kept == []
            else
              var k := |kept| - 1;
              && 0 <= k < |f| && kept[..k] == f[..k] && kept[k] == RStrip(f[k])
              && forall i :: k < i < |f| ==> Blank(f[i])
  {
    hide Lines, Merge, BlockLines, RenderBlock, Blank, RStrip, TrimTail;
    MergedLines(text, specs);
    if AllWellFormed(specs) && AllAdmissible(specs) { BlockReadsAsWritten(specs); }
    var f := Foreign(Lines(text), OwnedPairs(specs));
    if f != [] { TrimTailShape(f); }
  }

  /** Values never end a line with white space, so a block survives a trim as it is. */
  lemma BlockKeepsItsTail(specs: seq<EnvSpec>)
    requires specs != [] && AllWellFormed(specs) && AllAdmissible(specs)
    ensures var b := BlockLines(specs); b != [] && b[|b| - 1] != "" && RStrip(b[|b| - 1]) == b[|b| - 1]
  {
    var s := specs[|specs| - 1];
    assert s in specs;
    BlockLinesSnoc(specs);
    EncodingEndsSolid(s.value);
    hide DotenvValue, MarkerLine, BlockLines;
    var l := AssignmentLine(s);
    assert l[|l| - 1] == DotenvValue(s.value)[|DotenvValue(s.value)| - 1];
  }

  lemma TrimTailKeeps(a: seq<string>, b: seq<string>)
    requires b != [] && b[|b| - 1] != "" && RStrip(b[|b| - 1]) == b[|b| - 1]
    ensures TrimTail(a + b) == a + b
  {
    var n := |a + b| - 1;
    assert (a + b)[n] == b[|b| - 1];
    assert (a + b)[..n] + [(a + b)[n]] == a + b;
  }

  lemma {:induction false} TrimTailJoins(a: seq<string>, b: seq<string>)
    requires b != [] && !Blank(b[0])
    ensures TrimTail(a + b) == a + TrimTail(b)
  {
    hide Blank, RStrip;
    var n := |b| - 1;
    assert (a + b)[|a + b| - 1] == b[n] && (a + b)[..|a + b| - 1] == a + b[..n];
    if n > 0 && Blank(b[n]) { TrimTailJoins(a, b[..n]); }
  }

  lemma {:induction false} ForeignIsShorter(ls: seq<string>, pairs: set<Pair>)
    ensures |Foreign(ls, pairs)| <= |ls|
  {
    hide IsOwnedMarker, LooksLikeEnvAssignment;
    if ls != [] { ForeignIsShorter(ls[..|ls| - 1], pairs); }
  }

  lemma {:induction false} HashStays(s: string)
    requires s != "" && s[0] == '#'
    ensures RStrip(s) != ""
  {
    if |s| > 1 { HashStays(s[..|s| - 1]); }
  }

  /** A written block begins with its first marker line. */
  lemma BlockBegins(specs: seq<EnvSpec>)
    requires specs != [] && WellFormed(specs[0])
    ensures var b := Lines(RenderBlock(specs)); b != [] && b[0] == MarkerLine(specs[0])
    ensures !LooksLikeEnvAssignment(MarkerLine(specs[0])) && !Blank(MarkerLine(specs[0]))
  {
    var m := MarkerLine(specs[0]);
    MarkerLineIsOneLine(specs[0]);
    AssignmentIsNoMarker(m);
    HashStays(m);
    RenderBlockIsTerminated(specs);
    hide Lines, RenderBlock, MarkerLine, AssignmentLine, Terminated, NoBreak, WellFormed;
    var rest := [AssignmentLine(specs[0])] + BlockLines(specs[1..]);
    assert BlockLines(specs) == [m] + rest;
    TerminatedAppend([m], rest);
    LinesTerminatedThen([m], Terminated(rest));
  }

  lemma {:induction false} ForeignJoins(k: seq<string>, b: seq<string>, pairs: set<Pair>)
    requires b != [] && !LooksLikeEnvAssignment(b[0])
    ensures Foreign(k + b, pairs) == Foreign(k, pairs) + Foreign(b, pairs)
  {
    hide IsOwnedMarker, LooksLikeEnvAssignment;
    var n := |b| - 1;
    assert (k + b)[..|k + b| - 1] == k + b[..n];
    if n == 0 {
      assert k + b[..0] == k && b[..0] == [];
    } else {
      ForeignJoins(k, b[..n], pairs);
      assert Dropped(k + b, |k| + n, pairs) == Dropped(b, n, pairs);
    }
  }

  /** The first line of what survives whole is not blank. */
  lemma HeadOfWhole(f: seq<string>, b: seq<string>)
    requires f != [] && TrimTail(f) == b && |f| <= |b| && !Blank(b[0])
    ensures !Blank(f[0])
  {
    TrimTailShape(f);
    if |f| == 1 { RStripIsPrefix(f[0]); } else { assert b[..|b| - 1][0] == b[0]; }
    hide RStrip;
  }

  lemma KeptOfWholeBlock(text: string, first: seq<EnvSpec>, second: seq<EnvSpec>)
    requires first != [] && WellFormed(first[0]) && Kept(RenderBlock(first), second) == Lines(RenderBlock(first))
    ensures Kept(Merge(text, first), second)
            == Foreign(Kept(text, first), OwnedPairs(second)) + Lines(RenderBlock(first))
  {
    var pairs, k, b := OwnedPairs(second), Kept(text, first), Lines(RenderBlock(first));
    ForeignLinesSurvive(text, first);
    BlockBegins(first);
    ForeignIsShorter(b, pairs);
    hide Foreign, Lines, Merge, RenderBlock, TrimTail, OwnedPairs, WellFormed, Blank, MarkerLine;
    hide LooksLikeEnvAssignment;
    assert Foreign(b, pairs) != [] && TrimTail(Foreign(b, pairs)) == b;
    HeadOfWhole(Foreign(b, pairs), b);
    ForeignJoins(k, b, pairs);
    TrimTailJoins(Foreign(k, pairs), Foreign(b, pairs));
  }

  /** A later merge keeps the earlier block on every text, line for line and right above its own, exactly
      when it keeps that block, read back, on its own. */
  lemma LaterMergeKeepsTheBlockExactly(first: seq<EnvSpec>, second: seq<EnvSpec>)
    requires first != [] && WellFormed(first[0])
    ensures (forall text ::
               Lines(Merge(Merge(text, first), second))
               == Foreign(Kept(text, first), OwnedPairs(second)) + Lines(RenderBlock(first))
                  + Lines(RenderBlock(second)))
            <==> Kept(RenderBlock(first), second) == Lines(RenderBlock(first))
  {
    hide Foreign, Lines, Merge, RenderBlock, OwnedPairs, WellFormed, Kept;
    var b, c := Lines(RenderBlock(first)), Lines(RenderBlock(second));
    if Kept(RenderBlock(first), second) == b {
      forall text
        ensures Lines(Merge(Merge(text, first), second))
                == Foreign(Kept(text, first), OwnedPairs(second)) + b + c
      {
        KeptOfWholeBlock(text, first, second);
        MergedLines(Merge(text, first), second);
      }
    } else {
      EmptyTextKeepsNothing(first);
      NothingIsForeign(OwnedPairs(second));
      MergedLines(RenderBlock(first), second);
      assert Foreign(Kept("", first), OwnedPairs(second)) + b + c == b + c;
      var k := Kept(RenderBlock(first), second);
      assert |k| == |b| ==> (k + c)[..|b|] == k && (b + c)[..|b|] == b;
      assert Lines(Merge(Merge("", first), second)) != b + c;
    }
  }

  lemma NothingIsForeign(pairs: set<Pair>)
    ensures Foreign([], pairs) == []
  {}

  /** One-line values are kept so by a merge for other owners. */
  lemma DisjointOwnersKeepTheBlock(text: string, first: seq<EnvSpec>, second: seq<EnvSpec>)
    requires first != [] && AllWellFormed(first) && AllAdmissible(first)
    requires OwnedPairs(first) !! OwnedPairs(second)
    ensures Lines(Merge(Merge(text, first), second))
            == Foreign(Kept(text, first), OwnedPairs(second)) + BlockLines(first) + Lines(RenderBlock(second))
  {
    var b := BlockLines(first);
    BlockReadsAsWritten(first);
    OtherBlockIsForeign(first, OwnedPairs(second));
    ForeignOfNoneOwned(b, OwnedPairs(second));
    BlockKeepsItsTail(first);
    hide Foreign, Lines, Merge, BlockLines, RenderBlock, TrimTail, OwnedPairs, WellFormed, AllAdmissible;
    TrimTailKeeps([], b);
    assert [] + b == b;
    LaterMergeKeepsTheBlockExactly(first, second);
  }
}
