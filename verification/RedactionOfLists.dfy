/** Which lists of values redaction hides, over any existing env text (`redact_dokploy_env_payload` in
    `verification.py` on what `merge_env_text` writes). */
module RedactionOfLists {
  import opened Text
  import opened EnvFormat
  import M = EnvMerge
  import opened Redaction
  import T = RedactionTwice

  // ---- Redaction, part by part ----

  /** Nothing, or text whose first line is a comment. */
  predicate Commented(y: string) { y == "" || y[0] == '#' }

  lemma HashIsNoAssignment(p: Piece)
    requires p.Whole() != "" && p.Whole()[0] == '#'
    ensures !LooksLikeEnvAssignment(LineBody(p))
  {
    var b := LineBody(p);
    if b != "" {
      assert b[0] == '#';
      assert !IsLetter('#');
      assert KeyOf(b) != "" ==> KeyOf(b)[0] == '#';
    }
  }

  lemma {:induction false} TailJoins(ps: seq<Piece>, qs: seq<Piece>, marked: bool)
    requires qs != [] ==> !LooksLikeEnvAssignment(LineBody(qs[0]))
    ensures T.Tail(ps + qs, marked) == T.Tail(ps, marked) + T.Tail(qs, false)
  {
    hide LooksLikeEnvAssignment, LineBody, LineEnding, Hide, IsMarker, Piece.Whole;
    if ps == [] {
      assert ps + qs == qs;
    } else {
      assert (ps + qs)[1..] == ps[1..] + qs;
      var b := LineBody(ps[0]);
      if marked && LooksLikeEnvAssignment(b) {
        TailJoins(ps[1..], qs, false);
        Regroup(Hide(b) + LineEnding(ps[0]), T.Tail(ps[1..], false), T.Tail(qs, false));
      } else {
        TailJoins(ps[1..], qs, IsMarker(b));
        Regroup(ps[0].Whole(), T.Tail(ps[1..], IsMarker(b)), T.Tail(qs, false));
      }
    }
  }

  /** Before a comment line redaction can be cut. */
  lemma RedactJoins(x: string, y: string)
    requires Ended(x) && Commented(y)
    ensures Redact(x + y) == Redact(x) + Redact(y)
  {
    PiecesJoin(x, y);
    T.RedactIsTail(x + y);
    T.RedactIsTail(x);
    T.RedactIsTail(y);
    if Pieces(y) != [] { CommentComesFirst(y); }
    hide Redact, Pieces, T.Tail, LooksLikeEnvAssignment;
    TailJoins(Pieces(x), Pieces(y), false);
  }

  lemma CommentComesFirst(y: string)
    requires Commented(y) && Pieces(y) != []
    ensures !LooksLikeEnvAssignment(LineBody(Pieces(y)[0]))
  {
    var ps := Pieces(y);
    PiecesAreWellSplit(y);
    T.WellSplitTail(ps);
    hide LooksLikeEnvAssignment, LineBody, WellSplit, Pieces;
    assert y == ps[0].Whole() + TextOf(ps[1..]);
    HashIsNoAssignment(ps[0]);
  }

  // ---- A block, spec by spec ----

  lemma BlockJoins(specs: seq<EnvSpec>)
    requires specs != []
    ensures RenderBlock(specs) == RenderBlock([specs[0]]) + RenderBlock(specs[1..])
  {
    M.RenderBlockIsTerminated(specs);
    M.RenderBlockIsTerminated([specs[0]]);
    M.RenderBlockIsTerminated(specs[1..]);
    assert specs == [specs[0]] + specs[1..];
    BlockLinesAppend([specs[0]], specs[1..]);
    TerminatedAppend(BlockLines([specs[0]]), BlockLines(specs[1..]));
    hide RenderBlock, BlockLines, Terminated;
  }

  lemma BlockEnds(specs: seq<EnvSpec>)
    ensures Ended(RenderBlock(specs)) && Commented(RenderBlock(specs))
  {
    M.RenderBlockIsTerminated(specs);
    TerminatedEnds(BlockLines(specs));
    if specs != [] {
      assert BlockLines(specs)[0] == MarkerLine(specs[0]);
      assert MarkerLine(specs[0])[0] == '#';
    }
  }

  lemma {:induction false} TerminatedEnds(ls: seq<string>)
    ensures Ended(Terminated(ls))
    ensures ls != [] && ls[0] != "" ==> Terminated(ls) != "" && Terminated(ls)[0] == ls[0][0]
  {
    if ls != [] { TerminatedEnds(ls[1..]); }
  }

  predicate AllEmpty(specs: seq<EnvSpec>) { forall s <- specs :: s.value == "" }

  /** Hidden completely, a block looks like that of empty values; otherwise there is more to see. */
  lemma {:induction false} BlockShows(a: seq<EnvSpec>, b: seq<EnvSpec>)
    requires SameButValues(a, b) && AllWellFormed(a) && AllEmpty(b)
    ensures if AllAdmissible(a) then Redact(RenderBlock(a)) == Redact(RenderBlock(b))
            else |Redact(RenderBlock(a))| > |Redact(RenderBlock(b))|
  {
    hide Redact, RenderBlock, WellFormed, Admissible, SameButValue;
    if a != [] {
      assert SameButValue(a[0], b[0]) && a[0] in a && b[0] in b;
      forall i | 0 <= i < |a[1..]| ensures SameButValue(a[1..][i], b[1..][i]) {
        assert SameButValue(a[i + 1], b[i + 1]);
      }
      BlockShows(a[1..], b[1..]);
      OneValueStaysHiddenExactly(a[0], b[0]);
      RedactFirst(a);
      RedactFirst(b);
      assert a == [a[0]] + a[1..];
    } else {
      assert a == b;
    }
  }

  lemma RedactFirst(specs: seq<EnvSpec>)
    requires specs != []
    ensures Redact(RenderBlock(specs)) == Redact(RenderBlock([specs[0]])) + Redact(RenderBlock(specs[1..]))
  {
    BlockJoins(specs);
    BlockEnds([specs[0]]);
    BlockEnds(specs[1..]);
    hide Redact, RenderBlock;
    RedactJoins(RenderBlock([specs[0]]), RenderBlock(specs[1..]));
  }

  // ---- The theorem ----

  /** Merged into any text, specs redact to what they would with empty values exactly when every value
      encodes to one line. */
  lemma ValuesStayHiddenExactly(text: string, a: seq<EnvSpec>, b: seq<EnvSpec>)
    requires SameButValues(a, b) && AllWellFormed(a) && AllEmpty(b)
    ensures Redact(M.Merge(text, a)) == Redact(M.Merge(text, b)) <==> AllAdmissible(a)
  {
    M.MergeShape(text, a);
    M.MergeShape(text, b);
    SameOwners(a, b);
    assert M.Kept(text, a) == M.Kept(text, b);
    var kept := Terminated(M.Kept(text, a));
    TerminatedEnds(M.Kept(text, a));
    BlockEnds(a);
    BlockEnds(b);
    BlockShows(a, b);
    hide Redact, RenderBlock, M.Merge, M.Kept, Terminated;
    RedactJoins(kept, RenderBlock(a));
    RedactJoins(kept, RenderBlock(b));
    var k, x, y := Redact(kept), Redact(RenderBlock(a)), Redact(RenderBlock(b));
    assert (k + x)[|k|..] == x && (k + y)[|k|..] == y;
  }
}
