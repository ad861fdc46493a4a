/** When merges of env blocks agree with each other, value by value (`merge_env_text` in
    `dokploy/env_spec.py`). */
module MergeByValue {
  import opened Text
  import opened EnvFormat
  import opened EnvMerge
  import R = EnvReader

  // ---- What a value leaves below its own line ----

  /** The lines of an encoded value after its first raw break. */
  function Spill(v: string): seq<string> {
    var e := DotenvValue(v);
    var b := BreakAt(e);
    if b == |e| then [] else Lines(e[b + 1..] + "\n")
  }

  /** Nothing is spilled, or an owned marker, and after it only owned markers and assignments right below
      one. */
  predicate Swallowed(v: string, pairs: set<Pair>) {
    var ls := Spill(v); forall i :: 0 <= i < |ls| ==> Dropped(ls, i, pairs)
  }

  function CutLine(s: EnvSpec): string { var e := DotenvValue(s.value); s.name + "=" + e[..BreakAt(e)] }

  /** The lines a spec reads back as. */
  function SpecReads(s: EnvSpec): seq<string> { [MarkerLine(s), CutLine(s)] + Spill(s.value) }

  lemma {:induction false} EscapeHasNoNewline(s: string)
    ensures !Contains(Escape(s), '\n')
  {
    if s != "" {
      EscapeHasNoNewline(s[1..]);
      var h, t := EscapeChar(s[0]), Escape(s[1..]);
      assert forall i :: 0 <= i < |h + t| ==> (h + t)[i] == if i < |h| then h[i] else t[i - |h|];
    }
  }

  lemma QuotedEncoding(v: string)
    requires v == "" || !MatchesSafePattern(v)
    ensures var e := DotenvValue(v); e != "" && e[|e| - 1] == '"' && !Contains(e, '\n')
  {
    var x := Escape(v);
    ThreeReplacementsAreOneEscape(v);
    EscapeHasNoNewline(v);
    hide Replace, Escape, MatchesSafePattern;
    var e := "\"" + x + "\"";
    assert v == "" ==> x == "" by { EmptyEscape(); }
    assert DotenvValue(v) == e;
    assert forall i :: 0 <= i < |e| ==> e[i] == if 0 < i < |e| - 1 then x[i - 1] else '"';
  }

  lemma EmptyEscape()
    ensures Escape("") == ""
  {}

  lemma SafeEncoding(v: string)
    requires v != "" && AllSafe(v)
    ensures DotenvValue(v) == v && !IsSpace(v[|v| - 1]) && !Contains(v, '\n') && !SafeThenNewline(v)
  {
    assert IsSafe(v[|v| - 1]);
    assert forall i :: 0 <= i < |v| ==> IsSafe(v[i]);
  }

  lemma ClosedEncoding(v: string)
    requires SafeThenNewline(v)
    ensures DotenvValue(v) == v && BreakAt(v) == |v| - 1 && v[|v| - 1] == '\n'
  {
    assert DotenvValue(v) == v;
    var n := |v| - 1;
    SafeHasNoBreak(v[..n]);
    hide DotenvValue, AllSafe;
    FirstBreakLast(v, n);
  }

  lemma FirstBreakLast(v: string, n: nat)
    requires n == |v| - 1 && NoBreak(v[..n]) && IsBreak(v[n])
    ensures BreakAt(v) == n
  {
    assert forall i :: 0 <= i < n ==> v[i] == v[..n][i];
  }

  /** An encoding breaks at the newline it ends in, or ends in no white space and is free of newlines. */
  lemma EncodingBreaks(v: string)
    ensures var e := DotenvValue(v);
            if SafeThenNewline(v) then e == v && BreakAt(e) == |e| - 1 && e[|e| - 1] == '\n'
            else e != "" && !IsSpace(e[|e| - 1]) && !Contains(e, '\n')
  {
    hide SafeThenNewline, DotenvValue, AllSafe, Contains;
    if SafeThenNewline(v) {
      ClosedEncoding(v);
    } else if v != "" && AllSafe(v) {
      SafeEncoding(v);
    } else {
      QuotedEncoding(v);
    }
  }

  lemma FourParts(head: string, e: string, b: nat, rest: string)
    requires b < |e|
    ensures var x := e[b + 1..] + "\n";
            && head + e + ("\n" + rest) == head + e[..b] + [e[b]] + (x + rest)
            && (x + rest)[0] == x[0] && Ended(x)
  {
    assert e == e[..b] + [e[b]] + e[b + 1..];
  }

  /** Head, value and what is below, read from the value's first break on. */
  lemma BreakThen(head: string, e: string, rest: string)
    requires NoBreak(head) && BreakAt(e) < |e|
    requires e[BreakAt(e)] == '\r' ==> (e[BreakAt(e) + 1..] + "\n")[0] != '\n'
    ensures var b := BreakAt(e);
            Lines(head + e + ("\n" + rest)) == [head + e[..b]] + Lines(e[b + 1..] + "\n") + Lines(rest)
  {
    var b := BreakAt(e);
    NoBreakBefore(e);
    hide Lines, BreakAt, NoBreak, Ended;
    var h, x := head + e[..b], e[b + 1..] + "\n";
    NoBreakAppend(head, e[..b]);
    FourParts(head, e, b, rest);
    assert IsBreak(e[b]);
    hide IsBreak;
    OneLineThen(h, e[b], x + rest);
    LinesJoin(x, rest);
    Regroup([h], Lines(x), Lines(rest));
  }

  lemma WholeThen(head: string, rest: string)
    requires NoBreak(head)
    ensures Lines(head + ("\n" + rest)) == [head] + Lines(rest)
  {
    hide Lines, NoBreak;
    assert head + ("\n" + rest) == head + ['\n'] + rest;
    OneLineThen(head, '\n', rest);
  }

  lemma HeadIsPlain(s: EnvSpec)
    requires WellFormed(s)
    ensures NoBreak(s.name + "=")
  {
    IdentifierIsPlain(s.name);
    assert NoBreak("=");
    NoBreakAppend(s.name, "=");
  }

  lemma CutAtBreak(s: EnvSpec, rest: string)
    requires WellFormed(s)
    ensures Lines(AssignmentLine(s) + ("\n" + rest)) == [CutLine(s)] + Spill(s.value) + Lines(rest)
  {
    hide DotenvValue, SafeThenNewline, Lines, BreakAt, NoBreak, WellFormed, Contains, IsSpace;
    HeadIsPlain(s);
    EncodingBreaks(s.value);
    var head, e := s.name + "=", DotenvValue(s.value);
    var b := BreakAt(e);
    NoBreakBefore(e);
    if b == |e| {
      assert e[..b] == e;
      NoBreakAppend(head, e);
      WholeThen(head + e, rest);
    } else {
      NoNewlineAfter(e, b);
      BreakThen(head, e, rest);
    }
  }

  lemma NoNewlineAfter(e: string, b: nat)
    requires b < |e| && (Contains(e, '\n') ==> e[b] == '\n') && (!IsSpace(e[|e| - 1]) || e[|e| - 1] == '\n')
    ensures e[b] == '\r' ==> (e[b + 1..] + "\n")[0] != '\n'
  {
    if e[b] == '\r' { assert (e[b + 1..] + "\n")[0] == e[b + 1]; }
  }

  lemma OneLineThen(l: string, c: char, rest: string)
    requires NoBreak(l) && IsBreak(c) && (c == '\r' && rest != "" ==> rest[0] != '\n')
    ensures Lines(l + [c] + rest) == [l] + Lines(rest)
  {
    PiecesConsBreak(l, c, rest);
    hide Pieces;
    BodiesAppend([Piece(l, [c])], Pieces(rest));
  }

  lemma Stacked(a: string, b: string, c: seq<string>, d: seq<string>)
    ensures [a] + ([b] + c + d) == [a, b] + c + d
  {}

  /** A block reads back spec by spec. */
  lemma SpecAbove(specs: seq<EnvSpec>)
    requires specs != [] && WellFormed(specs[0])
    ensures Lines(RenderBlock(specs)) == SpecReads(specs[0]) + Lines(RenderBlock(specs[1..]))
  {
    var s, rest := specs[0], RenderBlock(specs[1..]);
    R.FirstSpecAbove(specs);
    MarkerLineIsOneLine(s);
    hide Lines, RenderBlock, MarkerLine, AssignmentLine, CutLine, Spill, WellFormed, Terminated, NoBreak;
    LinesTerminatedThen([MarkerLine(s)], AssignmentLine(s) + ("\n" + rest));
    CutAtBreak(s, rest);
    Stacked(MarkerLine(s), CutLine(s), Spill(s.value), Lines(rest));
  }

  // ---- What a merge keeps of a block ----

  lemma {:induction false} ForeignNothing(ls: seq<string>, pairs: set<Pair>)
    ensures Foreign(ls, pairs) == [] <==> forall i :: 0 <= i < |ls| ==> Dropped(ls, i, pairs)
  {
    hide IsOwnedMarker, LooksLikeEnvAssignment;
    if ls != [] {
      var n := |ls| - 1;
      ForeignNothing(ls[..n], pairs);
      assert forall i :: 0 <= i < n ==> (Dropped(ls[..n], i, pairs) <==> Dropped(ls, i, pairs));
    }
  }

  lemma SpecForeign(s: EnvSpec, pairs: set<Pair>)
    requires WellFormed(s)
    ensures (s.marker, s.owner) in pairs ==> Foreign(SpecReads(s), pairs) == Foreign(Spill(s.value), pairs)
  {
    SpecLines(s, pairs);
    CutIsAssignment(s);
    hide IsOwnedMarker, LooksLikeEnvAssignment, MarkerLine, CutLine, Spill, WellFormed, Foreign;
    if (s.marker, s.owner) in pairs {
      ForeignOfPair(MarkerLine(s), CutLine(s), pairs);
      ForeignAppend([MarkerLine(s), CutLine(s)], Spill(s.value), pairs);
    }
  }

  lemma CutIsAssignment(s: EnvSpec)
    requires WellFormed(s)
    ensures LooksLikeEnvAssignment(CutLine(s)) && !IsMarker(CutLine(s))
  {
    var e := DotenvValue(s.value);
    CutAssignment(s, e[..BreakAt(e)]);
    AssignmentIsNoMarker(CutLine(s));
    hide DotenvValue;
  }

  lemma {:induction false} BlockForeign(specs: seq<EnvSpec>, pairs: set<Pair>)
    requires AllWellFormed(specs) && OwnedPairs(specs) <= pairs
    ensures Foreign(Lines(RenderBlock(specs)), pairs) == [] <==> forall s <- specs :: Swallowed(s.value, pairs)
  {
    hide Foreign, Lines, RenderBlock, Spill, WellFormed, IsOwnedMarker, SpecReads, LooksLikeEnvAssignment, Blank;
    if specs == [] {
      assert Lines(RenderBlock([])) == [] by { EmptyHasNoLines(); R.EmptyBlock(); }
      NothingIsForeign(pairs);
    } else {
      var s, rest := specs[0], specs[1..];
      assert specs == [s] + rest && (s.marker, s.owner) in OwnedPairs(specs);
      assert OwnedPairs(rest) <= OwnedPairs(specs);
      BlockForeign(rest, pairs);
      SpecAbove(specs);
      SpecForeign(s, pairs);
      ForeignNothing(Spill(s.value), pairs);
      BlockSplits(SpecReads(s), rest, pairs);
    }
  }

  lemma BlockSplits(above: seq<string>, specs: seq<EnvSpec>, pairs: set<Pair>)
    requires AllWellFormed(specs)
    ensures var b := Lines(RenderBlock(specs)); Foreign(above + b, pairs) == Foreign(above, pairs) + Foreign(b, pairs)
  {
    hide Foreign, RenderBlock, Lines, LooksLikeEnvAssignment, WellFormed;
    var b := Lines(RenderBlock(specs));
    if specs == [] {
      assert b == [] by { EmptyHasNoLines(); R.EmptyBlock(); }
      NothingIsForeign(pairs);
      assert above + b == above;
    } else {
      BlockBegins(specs);
      ForeignJoins(above, b, pairs);
    }
  }

  // ---- The theorems ----

  /** Two merges whose specs have the same owners equal the second alone, on every text, exactly when
      every value of the first is swallowed by them. */
  lemma SecondMergeWinsByValue(first: seq<EnvSpec>, second: seq<EnvSpec>)
    requires AllWellFormed(first) && OwnedPairs(first) == OwnedPairs(second)
    ensures (forall text :: Merge(Merge(text, first), second) == Merge(text, second))
            <==> forall s <- first :: Swallowed(s.value, OwnedPairs(first))
  {
    hide *;
    SecondMergeWinsExactly(first, second);
    BlockForeign(first, OwnedPairs(first));
  }

  /** A merge is idempotent on every text exactly when every value is swallowed. */
  lemma MergeIdempotentByValue(specs: seq<EnvSpec>)
    requires AllWellFormed(specs)
    ensures (forall text :: Merge(Merge(text, specs), specs) == Merge(text, specs))
            <==> forall s <- specs :: Swallowed(s.value, OwnedPairs(specs))
  {
    hide *;
    SecondMergeWinsByValue(specs, specs);
  }

  lemma {:induction false} BlockNoneOwned(specs: seq<EnvSpec>, pairs: set<Pair>)
    requires AllWellFormed(specs)
    ensures NoneOwned(Lines(RenderBlock(specs)), pairs)
            <==> OwnedPairs(specs) !! pairs && forall s <- specs :: NoneOwned(Spill(s.value), pairs)
  {
    hide Lines, RenderBlock, Spill, WellFormed, IsOwnedMarker, SpecReads;
    if specs == [] {
      assert Lines(RenderBlock([])) == [] by { EmptyHasNoLines(); R.EmptyBlock(); }
    } else {
      var s, rest := specs[0], specs[1..];
      assert specs == [s] + rest;
      assert OwnedPairs(specs) == {(s.marker, s.owner)} + OwnedPairs(rest);
      BlockNoneOwned(rest, pairs);
      SpecAbove(specs);
      SpecNoneOwned(s, pairs);
      NoneOwnedJoins(SpecReads(s), Lines(RenderBlock(rest)), pairs);
    }
  }

  lemma NoneOwnedJoins(a: seq<string>, b: seq<string>, pairs: set<Pair>)
    ensures NoneOwned(a + b, pairs) <==> NoneOwned(a, pairs) && NoneOwned(b, pairs)
  {
    hide IsOwnedMarker;
    if NoneOwned(a + b, pairs) {
      forall i | 0 <= i < |a| ensures !IsOwnedMarker(a[i], pairs) { assert (a + b)[i] == a[i]; }
      forall i | 0 <= i < |b| ensures !IsOwnedMarker(b[i], pairs) { assert (a + b)[|a| + i] == b[i]; }
    }
  }

  lemma NoneOwnedTwo(a: string, b: string, pairs: set<Pair>)
    ensures NoneOwned([a, b], pairs) <==> !IsOwnedMarker(a, pairs) && !IsOwnedMarker(b, pairs)
  {
    hide IsOwnedMarker;
    assert [a, b][0] == a && [a, b][1] == b;
  }

  lemma SpecNoneOwned(s: EnvSpec, pairs: set<Pair>)
    requires WellFormed(s)
    ensures NoneOwned(SpecReads(s), pairs) <==> (s.marker, s.owner) !in pairs && NoneOwned(Spill(s.value), pairs)
  {
    SpecLines(s, pairs);
    CutIsAssignment(s);
    assert !IsOwnedMarker(CutLine(s), pairs);
    hide IsOwnedMarker, LooksLikeEnvAssignment, MarkerLine, CutLine, Spill, WellFormed, NoneOwned;
    NoneOwnedTwo(MarkerLine(s), CutLine(s), pairs);
    NoneOwnedJoins([MarkerLine(s), CutLine(s)], Spill(s.value), pairs);
  }

  /** Text that does not end in white space has such a last line. */
  predicate Solid(l: string) { l != "" && !IsSpace(l[|l| - 1]) }

  lemma {:induction false} LastLineIsSolid(x: string)
    requires Solid(x)
    ensures var ls := Lines(x + "\n"); ls != [] && Solid(ls[|ls| - 1])
    decreases |x|
  {
    if NoBreak(x) {
      LinesTerminated([x]);
      TerminatedOne(x);
    } else {
      var p, rest := FirstPieceEarlier(x);
      var y := x[|p.Whole()|..];
      assert y[|y| - 1] == x[|x| - 1];
      hide Pieces;
      LastLineIsSolid(y);
      BodiesAppend([p], Pieces(rest));
    }
  }

  lemma FirstPieceEarlier(x: string) returns (p: Piece, rest: string)
    requires Solid(x) && !NoBreak(x)
    ensures Pieces(x + "\n") == [p] + Pieces(rest)
    ensures 0 < |p.Whole()| < |x| && rest == x[|p.Whole()|..] + "\n"
  {
    var t := x + "\n";
    BreaksEarly(x);
    hide Pieces, BreakAt, NoBreak, Solid;
    p, rest := FirstPiece(t);
    var b, n := BreakAt(t), |p.Whole()|;
    EndingStays(x, p, rest, b);
    RestOf(x, p.Whole(), rest);
    EndingIsThere(p);
  }

  lemma BreaksEarly(x: string)
    requires !NoBreak(x)
    ensures BreakAt(x + "\n") < |x|
  {
    var i :| 0 <= i < |x| && IsBreak(x[i]);
    assert (x + "\n")[i] == x[i];
  }

  lemma RestOf(x: string, whole: string, rest: string)
    requires x + "\n" == whole + rest && |whole| < |x|
    ensures rest == x[|whole|..] + "\n"
  {
    assert rest == (x + "\n")[|whole|..];
  }

  lemma EndingIsThere(p: Piece)
    requires IsEnding(p.ending)
    ensures |p.Whole()| > 0
  {}

  lemma EndingStays(x: string, p: Piece, rest: string, b: nat)
    requires Solid(x) && x + "\n" == p.Whole() + rest && IsEnding(p.ending) && |p.body| == b < |x|
    ensures |p.Whole()| < |x|
  {
    var t, n := x + "\n", |p.Whole()|;
    var last := |x| - 1;
    assert t[last] == x[last] && !IsBreak(t[last]);
    assert t[b] == p.ending[0] && t[n - 1] == p.ending[|p.ending| - 1];
    assert IsBreak(t[b]) && IsBreak(t[n - 1]);
    assert b < last && n <= b + 2;
  }

  lemma SpecEnds(s: EnvSpec)
    requires WellFormed(s)
    ensures var ls := SpecReads(s); ls != [] && (Solid(ls[|ls| - 1]) <==> !SafeThenNewline(s.value))
    ensures SafeThenNewline(s.value) ==> SpecReads(s)[|SpecReads(s)| - 1] == ""
  {
    EncodingBreaks(s.value);
    var e := DotenvValue(s.value);
    var b := BreakAt(e);
    hide DotenvValue, SafeThenNewline, Lines, MarkerLine, WellFormed;
    if b == |e| {
      assert e[..b] == e;
      assert CutLine(s)[|CutLine(s)| - 1] == e[|e| - 1];
    } else if SafeThenNewline(s.value) {
      assert e[b + 1..] + "\n" == "\n";
      assert Lines("\n") == [""] by { OneEmptyLine(); }
    } else {
      assert b < |e| - 1;
      var x := e[b + 1..];
      assert x[|x| - 1] == e[|e| - 1];
      LastLineIsSolid(x);
    }
  }

  lemma OneEmptyLine()
    ensures Lines("\n") == [""]
  {
    LinesTerminated([""]);
    TerminatedOne("");
    assert "" + "\n" == "\n";
  }

  lemma {:induction false} BlockEnds(specs: seq<EnvSpec>)
    requires specs != [] && AllWellFormed(specs)
    ensures var ls := Lines(RenderBlock(specs));
            && |ls| >= 2
            && if SafeThenNewline(specs[|specs| - 1].value) then ls[|ls| - 1] == "" else Solid(ls[|ls| - 1])
  {
    hide Lines, RenderBlock, SpecReads, WellFormed, SafeThenNewline, Solid;
    SpecAbove(specs);
    assert |SpecReads(specs[0])| >= 2 by { AtLeastTwo(specs[0]); }
    if |specs| == 1 {
      assert specs[1..] == [];
      assert Lines(RenderBlock([])) == [] by { EmptyHasNoLines(); R.EmptyBlock(); }
      SpecEnds(specs[0]);
    } else {
      BlockEnds(specs[1..]);
    }
  }

  lemma AtLeastTwo(s: EnvSpec)
    ensures |SpecReads(s)| >= 2
  {}

  lemma SolidStays(l: string)
    requires Solid(l)
    ensures RStrip(l) == l
  {}

  /** Without an owned marker nothing is dropped, with one something is. */
  lemma {:induction false} ForeignCounts(ls: seq<string>, pairs: set<Pair>)
    ensures NoneOwned(ls, pairs) ==> Foreign(ls, pairs) == ls
    ensures !NoneOwned(ls, pairs) ==> |Foreign(ls, pairs)| < |ls|
  {
    hide IsOwnedMarker, LooksLikeEnvAssignment;
    if ls != [] {
      var n := |ls| - 1;
      ForeignCounts(ls[..n], pairs);
      ForeignIsShorter(ls[..n], pairs);
      assert ls == ls[..n] + [ls[n]];
      assert NoneOwned(ls, pairs) <==> NoneOwned(ls[..n], pairs) && !IsOwnedMarker(ls[n], pairs);
    }
  }

  lemma KeptWhole(first: seq<EnvSpec>, second: seq<EnvSpec>)
    requires first != [] && AllWellFormed(first)
    ensures Kept(RenderBlock(first), second) == Lines(RenderBlock(first)) <==>
            NoneOwned(Lines(RenderBlock(first)), OwnedPairs(second)) && !SafeThenNewline(first[|first| - 1].value)
  {
    hide Foreign, Lines, RenderBlock, WellFormed, SafeThenNewline, IsOwnedMarker, NoneOwned;
    var ls, pairs := Lines(RenderBlock(first)), OwnedPairs(second);
    var f, n := Foreign(ls, pairs), |ls| - 1;
    BlockEnds(first);
    ForeignCounts(ls, pairs);
    if f != [] { TrimTailShape(f); }
    if NoneOwned(ls, pairs) {
      if SafeThenNewline(first[|first| - 1].value) {
        assert TrimTail(ls) == TrimTail(ls[..n]) by { assert Blank(""); }
        TrimTailShape(ls[..n]);
      } else {
        SolidStays(ls[n]);
        hide TrimTail, RStrip;
        TrimTailKeeps([], ls);
        assert [] + ls == ls;
      }
    }
  }

  /** A later merge keeps the earlier block on every text, line for line and right above its own, exactly
      when it has none of its owners, no value spills one of its markers, and the last value is not a
      safe run closed by a newline. */
  lemma LaterMergeKeepsByValue(first: seq<EnvSpec>, second: seq<EnvSpec>)
    requires first != [] && AllWellFormed(first)
    ensures (forall text ::
               Lines(Merge(Merge(text, first), second))
               == Foreign(Kept(text, first), OwnedPairs(second)) + Lines(RenderBlock(first))
                  + Lines(RenderBlock(second)))
            <==> && OwnedPairs(first) !! OwnedPairs(second)
                 && (forall s <- first :: NoneOwned(Spill(s.value), OwnedPairs(second)))
                 && !SafeThenNewline(first[|first| - 1].value)
  {
    hide Foreign, Lines, Merge, RenderBlock, OwnedPairs, WellFormed, Kept, Spill, SafeThenNewline, NoneOwned;
    LaterMergeKeepsTheBlockExactly(first, second);
    KeptWhole(first, second);
    BlockNoneOwned(first, OwnedPairs(second));
  }
}
