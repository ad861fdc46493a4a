/** Whether the service named for a leaked value is the one the value stands in
    (`_reject_raw_sensitive_value` in `dokploy/env_spec.py`): its line is counted by newlines, the lines of
    services are those of `splitlines`. */
module LeakService {
  import opened Text
  import opened ComposeValidation

  /** The line of `splitlines` that an offset falls in. */
  function LineOf(ps: seq<Piece>, offset: nat): nat {
    if ps == [] || offset < |ps[0].Whole()| then 0 else 1 + LineOf(ps[1..], offset - |ps[0].Whole()|)
  }

  /** The line break counts as a newline. */
  predicate Counted(p: Piece) { Contains(p.ending, '\n') }

  lemma NoneToCount(s: string)
    requires NoBreak(s)
    ensures CountNewlines(s) == 0
  {
    assert !Contains(s, '\n');
    NoNewlineCount(s);
  }

  lemma CountPiece(p: Piece)
    requires NoBreak(p.body) && IsEnding(p.ending)
    ensures CountNewlines(p.Whole()) == if Counted(p) then 1 else 0
  {
    NoneToCount(p.body);
    CountAppend(p.body, p.ending);
    CountEnding(p.ending);
  }

  lemma CountEnding(e: string)
    requires IsEnding(e)
    ensures CountNewlines(e) == if Contains(e, '\n') then 1 else 0
    ensures |e| == 2 ==> e[0] != '\n'
  {
    assert |e| == 1 ==> e[1..] == "";
    if |e| == 2 { assert e[1..] == "\n" && e[1..][1..] == ""; }
  }

  /** Up to any place within a first line no newline is passed. */
  lemma CountWithin(p: Piece, rest: string, offset: nat)
    requires NoBreak(p.body) && (IsEnding(p.ending) || p.ending == "") && offset < |p.Whole()|
    ensures CountNewlines((p.Whole() + rest)[..offset]) == 0
  {
    var t := (p.Whole() + rest)[..offset];
    if offset <= |p.body| {
      assert t == p.body[..offset];
      NoneToCount(t);
    } else {
      CountEnding(p.ending);
      assert |p.ending| == 2 && t == p.body + [p.ending[0]];
      NoneToCount(p.body);
      CountAppend(p.body, [p.ending[0]]);
      assert CountNewlines([p.ending[0]]) == 0 by { assert [p.ending[0]][1..] == ""; }
    }
  }

  lemma OneLine(file: string)
    requires file != "" && BreakAt(file) == |file|
    ensures Pieces(file) == [Piece(file, "")] && NoBreak(file)
  {
    NoBreakBefore(file);
    assert file[..|file|] == file;
  }

  lemma LineOfCons(p: Piece, ps: seq<Piece>, offset: nat)
    ensures LineOf([p] + ps, offset) == if offset < |p.Whole()| then 0 else 1 + LineOf(ps, offset - |p.Whole()|)
  {
    assert ([p] + ps)[1..] == ps;
  }

  lemma WholeFile(file: string, offset: nat)
    requires offset < |file| == BreakAt(file)
    ensures |Pieces(file)| == 1 && LineOf(Pieces(file), offset) == 0
    ensures file == "" + Pieces(file)[0].Whole() + "" && CountNewlines(file[..offset]) == 0
  {
    OneLine(file);
    CountWithin(Piece(file, ""), "", offset);
    assert Piece(file, "").Whole() + "" == file;
  }

  /** The line an offset falls in holds it. */
  lemma {:induction false} LineHolds(file: string, offset: nat) returns (before: string, after: string)
    requires offset < |file|
    ensures var ps, k := Pieces(file), LineOf(Pieces(file), offset);
            && k < |ps| && file == before + ps[k].Whole() + after
            && |before| <= offset < |before| + |ps[k].Whole()|
    decreases |file|
  {
    hide Pieces, BreakAt, IsEnding, NoBreak, LineOf, Piece.Whole;
    if BreakAt(file) == |file| {
      WholeFile(file, offset);
      before, after := "", "";
    } else {
      var p, rest := FirstPiece(file);
      assert file == "" + p.Whole() + rest;
      LineOfCons(p, Pieces(rest), offset);
      if offset < |p.Whole()| {
        before, after := "", rest;
      } else {
        var n := |p.Whole()|;
        var b, a := LineHolds(rest, offset - n);
        before, after := p.Whole() + b, a;
        Further(p, rest, b, a, LineOf(Pieces(rest), offset - n));
      }
    }
  }

  lemma Further(p: Piece, rest: string, before: string, after: string, k: nat)
    requires k < |Pieces(rest)| && rest == before + Pieces(rest)[k].Whole() + after
    ensures var ps := [p] + Pieces(rest);
            p.Whole() + rest == p.Whole() + before + ps[k + 1].Whole() + after
  {
    hide Pieces;
    var w := Pieces(rest)[k].Whole();
    Regroup(p.Whole(), before + w, after);
    Regroup(p.Whole(), before, w);
  }

  /** The newlines before an offset number its line exactly when every line above it ends in one; they
      never count too many. */
  lemma {:induction false} LineCountedExactly(file: string, offset: nat)
    requires offset < |file|
    ensures var ps, k, m := Pieces(file), LineOf(Pieces(file), offset), CountNewlines(file[..offset]);
            && m <= k < |ps|
            && (m == k <==> forall j :: 0 <= j < k ==> Counted(ps[j]))
    decreases |file|
  {
    hide Pieces, BreakAt, IsEnding, NoBreak, Counted, LineOf, CountNewlines, Piece.Whole;
    if BreakAt(file) == |file| {
      WholeFile(file, offset);
    } else {
      var p, rest := FirstPiece(file);
      LineOfCons(p, Pieces(rest), offset);
      if offset < |p.Whole()| {
        CountWithin(p, rest, offset);
      } else {
        var n := |p.Whole()|;
        LineCountedExactly(rest, offset - n);
        CountPiece(p);
        CountAppend(p.Whole(), rest[..offset - n]);
        assert file[..offset] == p.Whole() + rest[..offset - n];
        LinesBelow(p, Pieces(rest), LineOf(Pieces(rest), offset - n));
      }
    }
  }

  lemma LinesBelow(p: Piece, ps: seq<Piece>, k: nat)
    requires k < |ps|
    ensures var all := [p] + ps;
            && all[1..] == ps
            && ((forall j :: 0 <= j < k + 1 ==> Counted(all[j])) <==>
                Counted(p) && forall j :: 0 <= j < k ==> Counted(ps[j]))
  {
    hide Counted;
    var all := [p] + ps;
    if forall j :: 0 <= j < k + 1 ==> Counted(all[j]) {
      forall j | 0 <= j < k ensures Counted(ps[j]) { assert all[j + 1] == ps[j]; }
      assert all[0] == p;
    }
  }

  /** A header below one line and at or above another. */
  lemma {:induction false} ServiceFurther(hs: seq<Option<string>>, m: nat, k: nat)
    requires m <= k < |hs|
    ensures Quiet(hs, m, k + 1) ==> ServiceOf(hs, k) == ServiceOf(hs, m)
    ensures forall i :: StartsBetween(hs, m, k, i) ==> ServiceOf(hs, k) == hs[i]
    ensures !Quiet(hs, m, k + 1) ==> exists i :: StartsBetween(hs, m, k, i)
    decreases k
  {
    if m < k {
      if hs[k].Some? {
        assert StartsBetween(hs, m, k, k);
      } else {
        var n := k - 1;
        ServiceFurther(hs, m, n);
        assert forall i :: StartsBetween(hs, m, n, i) <==> StartsBetween(hs, m, k, i);
      }
    }
  }

  /** The service at the line an offset falls in. */
  function OwnService(file: string, offset: nat): Option<string> {
    var hs, k := HeaderMarks(Lines(file)), LineOf(Pieces(file), offset);
    if k < |hs| then ServiceOf(hs, k) else None
  }

  /** Another service starts between two lines, the last to do so at `i`. */
  predicate StartsBetween(hs: seq<Option<string>>, m: nat, k: nat, i: int) {
    m < i <= k && i < |hs| && hs[i].Some? && Quiet(hs, i, k + 1)
  }

  /** The service named for a value is its own exactly when none starts between the line counted and the
      value's, or the last one to start there has the same name. */
  lemma ServiceNamedExactly(file: string, offset: nat)
    requires offset < |file|
    ensures var hs, m, k := HeaderMarks(Lines(file)), CountNewlines(file[..offset]), LineOf(Pieces(file), offset);
            && m <= k < |hs|
            && (ServiceAt(file, offset) == OwnService(file, offset) <==>
                Quiet(hs, m, k + 1) || exists i :: StartsBetween(hs, m, k, i) && hs[i] == ServiceOf(hs, m))
  {
    hide Pieces, HeaderAt, LineOf, CountNewlines, ServiceOf, Quiet;
    LineCountedExactly(file, offset);
    var hs, m, k := HeaderMarks(Lines(file)), CountNewlines(file[..offset]), LineOf(Pieces(file), offset);
    assert |hs| == |Pieces(file)|;
    hide HeaderMarks, Lines;
    ServiceFurther(hs, m, k);
  }

  /** So it is for every value of a file whose lines all end in newlines, alone or after a carriage
      return. */
  lemma ServiceNamedRight(file: string, offset: nat)
    requires offset < |file| && forall p <- Pieces(file) :: p.ending == "" || Counted(p)
    ensures ServiceAt(file, offset) == OwnService(file, offset)
  {
    hide Pieces, HeaderAt, LineOf, ServiceOf, Lines, HeaderMarks, CountNewlines, Counted;
    LineCountedExactly(file, offset);
    ServiceNamedExactly(file, offset);
    OnlyLastOpen(file);
  }

  lemma {:induction false} OnlyLastOpen(file: string)
    ensures var ps := Pieces(file); forall j :: 0 <= j < |ps| - 1 ==> ps[j].ending != ""
    decreases |file|
  {
    if file != "" {
      if BreakAt(file) == |file| {
        OneLine(file);
      } else {
        var p, rest := FirstPiece(file);
        OnlyLastOpen(rest);
        hide Pieces;
        assert forall j :: 0 < j < |Pieces(file)| ==> Pieces(file)[j] == Pieces(rest)[j - 1];
      }
    }
  }
}
